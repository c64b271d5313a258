/**
  The hosted database as the two list pages see it: the rows of its three
  tables, the calls the pages make on it, and the outcome of one call.

  A call is never performed here. Each page handler receives, as parameters,
  the outcomes the store would give to the calls it may make, and reports
  the calls it actually made, in order.
 */
module Store {

  /** Identifiers are server-assigned strings. */
  type Id = string

  /** A row of the `todos` table. Timestamps are abstracted to day numbers. */
  datatype Todo = Todo(id: Id, task: string, isComplete: bool, createdDay: int, updatedDay: int)

  /** A row of the `goals` table; `isComplete` is maintained by the store. */
  datatype Goal = Goal(id: Id, title: string, isComplete: bool, createdDay: int)

  /** A row of the `sub_goals` table, owned by the goal `goalId`. */
  datatype SubGoal = SubGoal(id: Id, goalId: Id, title: string, isComplete: bool, createdDay: int)

  /**
    The outcome of one store call: success with the returned data, or
    failure. A reported error and a thrown exception are handled alike by
    every caller, so both are `Err`.
   */
  datatype Outcome<T> = Ok(data: T) | Err

  /** One request sent to the store. */
  datatype StoreCall =
    | SelectTodos
    | InsertTodo(task: string, isComplete: bool)
    | UpdateTodo(id: Id, isComplete: bool)
    | DeleteTodo(id: Id)
    | SelectGoals
    | InsertGoal(title: string)
    | DeleteGoal(id: Id)
    | SelectSubGoals(goalId: Id)
    | InsertSubGoal(goalId: Id, title: string)
    | UpdateSubGoal(id: Id, isComplete: bool)
    | DeleteSubGoal(id: Id)
}
