/**
  The state of the daily to-do page and the effect of each of its handlers.
  Every handler takes the outcomes the store gives to the calls it may make
  and returns the calls it made, in order. A re-fetch that the handler
  starts without waiting for it is applied at once, after the handler's own
  update.
 */
module SchedulePage {
  import opened Store
  import opened Text

  class TodoPage {
    var todos: seq<Todo>
    var newTodo: string
    var loading: bool

    /** The page as first rendered: no to-dos, an empty input, loading. */
    constructor ()
      ensures todos == [] && newTodo == "" && loading
    {
      todos, newTodo, loading := [], "", true;
    }

    /** Typing into the input box replaces the draft and nothing else. */
    method EditNewTodo(text: string)
      modifies this
      ensures newTodo == text
      ensures todos == old(todos) && loading == old(loading)
    {
      newTodo := text;
    }

    /**
      `fetchTodos`: one select. On success the list is replaced by the rows
      returned; on failure it is kept. Loading ends either way.
     */
    method FetchTodos(response: Outcome<seq<Todo>>) returns (calls: seq<StoreCall>)
      modifies this
      ensures calls == [SelectTodos]
      ensures todos == if response.Ok? then response.data else old(todos)
      ensures !loading
      ensures newTodo == old(newTodo)
    {
      calls := [SelectTodos];
      if response.Ok? {
        todos := response.data;
      }
      loading := false;
    }

    /**
      `addTodo`: nothing at all happens when the input trims to empty.
      Otherwise the trimmed text is inserted as an incomplete to-do; only
      when the insert succeeds is the input cleared and the list fetched
      again.
     */
    method AddTodo(insert: Outcome<()>, refetch: Outcome<seq<Todo>>) returns (calls: seq<StoreCall>)
      modifies this
      ensures IsBlank(old(newTodo)) ==>
                calls == [] && todos == old(todos) && newTodo == old(newTodo) && loading == old(loading)
      ensures !IsBlank(old(newTodo)) && insert.Err? ==>
                calls == [InsertTodo(Trim(old(newTodo)), false)]
                && todos == old(todos) && newTodo == old(newTodo) && loading == old(loading)
      ensures !IsBlank(old(newTodo)) && insert.Ok? ==>
                calls == [InsertTodo(Trim(old(newTodo)), false), SelectTodos]
                && newTodo == "" && !loading
                && todos == if refetch.Ok? then refetch.data else old(todos)
    {
      calls := [];
      if IsBlank(newTodo) {
        return;
      }
      calls := [InsertTodo(Trim(newTodo), false)];
      if insert.Err? {
        return;
      }
      newTodo := "";
      var more := FetchTodos(refetch);
      calls := calls + more;
    }

    /** `toggleTodo`: updates one to-do's flag and fetches the list again on success. */
    method ToggleTodo(id: Id, isComplete: bool, update: Outcome<()>, refetch: Outcome<seq<Todo>>)
      returns (calls: seq<StoreCall>)
      modifies this
      ensures update.Err? ==>
                calls == [UpdateTodo(id, isComplete)] && todos == old(todos) && loading == old(loading)
      ensures update.Ok? ==>
                calls == [UpdateTodo(id, isComplete), SelectTodos] && !loading
                && todos == if refetch.Ok? then refetch.data else old(todos)
      ensures newTodo == old(newTodo)
    {
      calls := [UpdateTodo(id, isComplete)];
      if update.Ok? {
        var more := FetchTodos(refetch);
        calls := calls + more;
      }
    }

    /** `deleteTodo`: deletes one to-do and fetches the list again on success. */
    method DeleteTodo(id: Id, delete: Outcome<()>, refetch: Outcome<seq<Todo>>) returns (calls: seq<StoreCall>)
      modifies this
      ensures delete.Err? ==>
                calls == [StoreCall.DeleteTodo(id)] && todos == old(todos) && loading == old(loading)
      ensures delete.Ok? ==>
                calls == [StoreCall.DeleteTodo(id), SelectTodos] && !loading
                && todos == if refetch.Ok? then refetch.data else old(todos)
      ensures newTodo == old(newTodo)
    {
      calls := [StoreCall.DeleteTodo(id)];
      if delete.Ok? {
        var more := FetchTodos(refetch);
        calls := calls + more;
      }
    }
  }
}
