/**
  The state of the goal page and the effect of each of its handlers: the
  goal list, the sub-goal cache (goal id to its loaded sub-goals; a missing
  key means "never loaded"), the expansion flags and the two kinds of
  input draft.

  As on the to-do page, each handler takes the outcomes the store gives to
  the calls it may make and returns the calls it made, in order; re-fetches
  started without waiting are applied at once, in the order they are
  started. Whether a goal is complete is decided by the store and only ever
  read back.
 */
module GoalCompleter {
  import opened Store
  import opened Text

  /** A goal's expansion flag; a goal without an entry is collapsed. */
  function Expanded(flags: map<Id, bool>, g: Id): bool
  {
    g in flags && flags[g]
  }

  /**
    The `setExpandedGoals` updater of `toggleGoalExpansion`: `g`'s flag is
    negated (a missing flag counting as false) and every other entry is
    left as it was.
   */
  function ToggledExpansion(flags: map<Id, bool>, g: Id): (r: map<Id, bool>)
    ensures r.Keys == flags.Keys + {g}
    ensures Expanded(r, g) == !Expanded(flags, g)
    ensures forall k :: k in flags && k != g ==> r[k] == flags[k]
  {
    flags[g := !Expanded(flags, g)]
  }

  /** Toggling the same goal twice leaves every goal as expanded as it was. */
  lemma ToggleTwiceRestoresFlags(flags: map<Id, bool>, g: Id)
    ensures forall k :: Expanded(ToggledExpansion(ToggledExpansion(flags, g), g), k) == Expanded(flags, k)
  {
    forall k ensures Expanded(ToggledExpansion(ToggledExpansion(flags, g), g), k) == Expanded(flags, k) {
      if k != g {
        assert k in ToggledExpansion(flags, g) <==> k in flags;
      }
    }
  }

  /**
    `toggleGoalExpansion` loads `g`'s sub-goals when `g` was collapsed
    before the toggle and nothing was ever loaded for it: exactly when the
    toggle opens `g` and the cache has no entry for it. A loaded empty list
    counts as loaded (an empty array is truthy).
   */
  function NeedsSubGoalLoad(flags: map<Id, bool>, cache: map<Id, seq<SubGoal>>, g: Id): (load: bool)
    ensures load <==> Expanded(ToggledExpansion(flags, g), g) && g !in cache
  {
    !Expanded(flags, g) && g !in cache
  }

  /** The `setSubGoals` updater of `fetchSubGoals`: `g`'s entry is set and no other entry changes. */
  function WithSubGoals(cache: map<Id, seq<SubGoal>>, g: Id, list: seq<SubGoal>): (r: map<Id, seq<SubGoal>>)
    ensures r.Keys == cache.Keys + {g}
    ensures r[g] == list
    ensures forall k :: k in cache && k != g ==> r[k] == cache[k]
  {
    cache[g := list]
  }

  /** The `setSubGoals` updater of `deleteGoal`: exactly the key `g` is dropped. */
  function WithoutGoal(cache: map<Id, seq<SubGoal>>, g: Id): (r: map<Id, seq<SubGoal>>)
    ensures r.Keys == cache.Keys - {g}
    ensures forall k :: k in r ==> r[k] == cache[k]
  {
    cache - {g}
  }

  /** Once `g`'s sub-goals are loaded, even as an empty list, toggling `g` never loads them again. */
  lemma LoadedNeedsNoLoad(flags: map<Id, bool>, cache: map<Id, seq<SubGoal>>, g: Id, list: seq<SubGoal>)
    ensures !NeedsSubGoalLoad(flags, WithSubGoals(cache, g, list), g)
  {
  }

  /** The sub-goal cache after a `fetchSubGoals(g)` whose select answered `response`. */
  function Refreshed(cache: map<Id, seq<SubGoal>>, g: Id, response: Outcome<seq<SubGoal>>): map<Id, seq<SubGoal>>
  {
    if response.Ok? then WithSubGoals(cache, g, response.data) else cache
  }

  /**
    The expansion map rebuilt by `fetchGoals`: exactly the ids of the
    fetched goals that are not complete, each mapped to true.
   */
  ghost predicate ExpandsExactlyIncomplete(goals: seq<Goal>, flags: map<Id, bool>)
  {
    && (forall id :: id in flags ==> flags[id])
    && (forall id :: id in flags <==> exists i :: 0 <= i < |goals| && goals[i].id == id && !goals[i].isComplete)
  }

  /** The map `ExpandsExactlyIncomplete` describes is unique. */
  lemma ExpandsExactlyIncompleteUnique(goals: seq<Goal>, f1: map<Id, bool>, f2: map<Id, bool>)
    requires ExpandsExactlyIncomplete(goals, f1) && ExpandsExactlyIncomplete(goals, f2)
    ensures f1 == f2
  {
    assert f1.Keys == f2.Keys;
  }

  /**
    After a rebuild, a goal is expanded exactly when some fetched goal with
    its id is not complete: a goal the store now reports complete is
    collapsed, even if it was expanded before the fetch.
   */
  lemma RebuiltFlags(goals: seq<Goal>, flags: map<Id, bool>, g: Id)
    requires ExpandsExactlyIncomplete(goals, flags)
    ensures Expanded(flags, g) <==> exists i :: 0 <= i < |goals| && goals[i].id == g && !goals[i].isComplete
  {
  }

  /**
    The `forEach` of `fetchGoals`: starting from an empty map, every goal
    that is not complete gets the flag true.
   */
  method AutoExpand(goals: seq<Goal>) returns (expanded: map<Id, bool>)
    ensures ExpandsExactlyIncomplete(goals, expanded)
  {
    expanded := map[];
    for i := 0 to |goals|
      invariant ExpandsExactlyIncomplete(goals[..i], expanded)
    {
      var goal := goals[i];
      if !goal.isComplete {
        expanded := expanded[goal.id := true];
      }
      assert forall j :: 0 <= j < i ==> goals[..i + 1][j] == goals[..i][j];
    }
    assert goals[..|goals|] == goals;
  }

  /**
    Whether `addSubGoal(g)` stops before the store: the draft is missing,
    empty, or blank after trimming; that is, exactly when there is no draft
    for `g` or it is all whitespace.
   */
  function SubGoalDraftBlank(drafts: map<Id, string>, g: Id): (blank: bool)
    ensures blank <==> g !in drafts || AllWhitespace(drafts[g])
  {
    g !in drafts || drafts[g] == "" || IsBlank(drafts[g])
  }

  class GoalPage {
    var goals: seq<Goal>
    var subGoals: map<Id, seq<SubGoal>>
    var newGoal: string
    var newSubGoals: map<Id, string>
    var loading: bool
    var expandedGoals: map<Id, bool>

    /** The page as first rendered: nothing loaded, empty drafts, loading. */
    constructor ()
      ensures goals == [] && subGoals == map[] && newGoal == "" && newSubGoals == map[]
      ensures loading && expandedGoals == map[]
    {
      goals, subGoals, newGoal, newSubGoals := [], map[], "", map[];
      loading, expandedGoals := true, map[];
    }

    /**
      The goal list and expansion flags after a `fetchGoals` whose select
      answered `response`, given their values before it.
     */
    ghost predicate GoalsRefreshed(response: Outcome<seq<Goal>>, goals0: seq<Goal>, flags0: map<Id, bool>)
      reads this
    {
      if response.Ok? then goals == response.data && ExpandsExactlyIncomplete(response.data, expandedGoals)
      else goals == goals0 && expandedGoals == flags0
    }

    /**
      `fetchGoals`: one select. On success the goal list is replaced and the
      expansion map rebuilt from it alone, so earlier entries, manual
      expansions included, are discarded. On failure neither changes.
     */
    method FetchGoals(response: Outcome<seq<Goal>>) returns (calls: seq<StoreCall>)
      modifies this
      ensures calls == [SelectGoals]
      ensures GoalsRefreshed(response, old(goals), old(expandedGoals))
      ensures subGoals == old(subGoals) && newGoal == old(newGoal)
      ensures newSubGoals == old(newSubGoals) && loading == old(loading)
    {
      calls := [SelectGoals];
      if response.Ok? {
        goals := response.data;
        expandedGoals := AutoExpand(response.data);
      }
    }

    /** The initial load: `fetchGoals`, then loading ends whatever its outcome. */
    method InitialLoad(response: Outcome<seq<Goal>>) returns (calls: seq<StoreCall>)
      modifies this
      ensures calls == [SelectGoals]
      ensures GoalsRefreshed(response, old(goals), old(expandedGoals))
      ensures !loading
      ensures subGoals == old(subGoals) && newGoal == old(newGoal) && newSubGoals == old(newSubGoals)
    {
      calls := FetchGoals(response);
      loading := false;
    }

    /** `fetchSubGoals(g)`: on success only `g`'s cache entry is set; nothing else changes. */
    method FetchSubGoals(g: Id, response: Outcome<seq<SubGoal>>) returns (calls: seq<StoreCall>)
      modifies this
      ensures calls == [SelectSubGoals(g)]
      ensures subGoals == Refreshed(old(subGoals), g, response)
      ensures goals == old(goals) && expandedGoals == old(expandedGoals) && newGoal == old(newGoal)
      ensures newSubGoals == old(newSubGoals) && loading == old(loading)
    {
      calls := [SelectSubGoals(g)];
      if response.Ok? {
        subGoals := WithSubGoals(subGoals, g, response.data);
      }
    }

    /**
      The re-fetch after a sub-goal mutation: `g`'s sub-goals, then the
      whole goal list, whose completion flags the store may have changed.
     */
    method RefreshGoal(g: Id, subResponse: Outcome<seq<SubGoal>>, goalsResponse: Outcome<seq<Goal>>)
      returns (calls: seq<StoreCall>)
      modifies this
      ensures calls == [SelectSubGoals(g), SelectGoals]
      ensures subGoals == Refreshed(old(subGoals), g, subResponse)
      ensures GoalsRefreshed(goalsResponse, old(goals), old(expandedGoals))
      ensures newGoal == old(newGoal) && newSubGoals == old(newSubGoals) && loading == old(loading)
    {
      var first := FetchSubGoals(g, subResponse);
      var second := FetchGoals(goalsResponse);
      calls := first + second;
    }

    /** Typing into the goal input replaces that draft and nothing else. */
    method EditNewGoal(text: string)
      modifies this
      ensures newGoal == text
      ensures goals == old(goals) && subGoals == old(subGoals) && newSubGoals == old(newSubGoals)
      ensures loading == old(loading) && expandedGoals == old(expandedGoals)
    {
      newGoal := text;
    }

    /** Typing into `g`'s sub-goal input replaces `g`'s draft and no other. */
    method EditNewSubGoal(g: Id, text: string)
      modifies this
      ensures newSubGoals == old(newSubGoals)[g := text]
      ensures goals == old(goals) && subGoals == old(subGoals) && newGoal == old(newGoal)
      ensures loading == old(loading) && expandedGoals == old(expandedGoals)
    {
      newSubGoals := newSubGoals[g := text];
    }

    /**
      `toggleGoalExpansion(g)`: negates `g`'s flag only, and loads `g`'s
      sub-goals exactly when `g` was collapsed and never loaded.
     */
    method ToggleGoalExpansion(g: Id, load: Outcome<seq<SubGoal>>) returns (calls: seq<StoreCall>)
      modifies this
      ensures expandedGoals == ToggledExpansion(old(expandedGoals), g)
      ensures calls == if NeedsSubGoalLoad(old(expandedGoals), old(subGoals), g) then [SelectSubGoals(g)] else []
      ensures subGoals == if NeedsSubGoalLoad(old(expandedGoals), old(subGoals), g)
                          then Refreshed(old(subGoals), g, load) else old(subGoals)
      ensures goals == old(goals) && newGoal == old(newGoal)
      ensures newSubGoals == old(newSubGoals) && loading == old(loading)
    {
      var wasExpanded := expandedGoals;
      expandedGoals := ToggledExpansion(expandedGoals, g);
      calls := [];
      if NeedsSubGoalLoad(wasExpanded, subGoals, g) {
        calls := FetchSubGoals(g, load);
      }
    }

    /**
      `addGoal`: nothing happens when the goal draft trims to empty.
      Otherwise the trimmed title is inserted; on success the goal draft,
      and only it, is cleared and the goal list fetched again.
     */
    method AddGoal(insert: Outcome<()>, refetch: Outcome<seq<Goal>>) returns (calls: seq<StoreCall>)
      modifies this
      ensures IsBlank(old(newGoal)) ==> calls == [] && newGoal == old(newGoal)
      ensures !IsBlank(old(newGoal)) && insert.Err? ==>
                calls == [InsertGoal(Trim(old(newGoal)))] && newGoal == old(newGoal)
      ensures !IsBlank(old(newGoal)) && insert.Ok? ==>
                calls == [InsertGoal(Trim(old(newGoal))), SelectGoals] && newGoal == ""
                && GoalsRefreshed(refetch, old(goals), old(expandedGoals))
      ensures IsBlank(old(newGoal)) || insert.Err? ==> goals == old(goals) && expandedGoals == old(expandedGoals)
      ensures subGoals == old(subGoals) && newSubGoals == old(newSubGoals) && loading == old(loading)
    {
      calls := [];
      if IsBlank(newGoal) {
        return;
      }
      calls := [InsertGoal(Trim(newGoal))];
      if insert.Err? {
        return;
      }
      newGoal := "";
      var more := FetchGoals(refetch);
      calls := calls + more;
    }

    /**
      `addSubGoal(g)`: nothing happens when `g`'s draft is missing or blank.
      Otherwise the trimmed title is inserted under `g`; on success `g`'s
      draft, and no other input, is set to the empty string, and `g`'s
      sub-goals and the goal list are fetched again.
     */
    method AddSubGoal(g: Id, insert: Outcome<()>, subRefetch: Outcome<seq<SubGoal>>, goalsRefetch: Outcome<seq<Goal>>)
      returns (calls: seq<StoreCall>)
      modifies this
      ensures SubGoalDraftBlank(old(newSubGoals), g) ==> calls == [] && newSubGoals == old(newSubGoals)
      ensures !SubGoalDraftBlank(old(newSubGoals), g) && insert.Err? ==>
                calls == [InsertSubGoal(g, Trim(old(newSubGoals)[g]))] && newSubGoals == old(newSubGoals)
      ensures !SubGoalDraftBlank(old(newSubGoals), g) && insert.Ok? ==>
                calls == [InsertSubGoal(g, Trim(old(newSubGoals)[g])), SelectSubGoals(g), SelectGoals]
                && newSubGoals == old(newSubGoals)[g := ""]
                && subGoals == Refreshed(old(subGoals), g, subRefetch)
                && GoalsRefreshed(goalsRefetch, old(goals), old(expandedGoals))
      ensures SubGoalDraftBlank(old(newSubGoals), g) || insert.Err? ==>
                goals == old(goals) && subGoals == old(subGoals) && expandedGoals == old(expandedGoals)
      ensures newGoal == old(newGoal) && loading == old(loading)
    {
      calls := [];
      if SubGoalDraftBlank(newSubGoals, g) {
        return;
      }
      calls := [InsertSubGoal(g, Trim(newSubGoals[g]))];
      if insert.Err? {
        return;
      }
      newSubGoals := newSubGoals[g := ""];
      var more := RefreshGoal(g, subRefetch, goalsRefetch);
      calls := calls + more;
    }

    /** `toggleSubGoal`: updates one sub-goal's flag; on success `g`'s sub-goals and the goal list are fetched again. */
    method ToggleSubGoal(id: Id, g: Id, isComplete: bool, update: Outcome<()>,
                         subRefetch: Outcome<seq<SubGoal>>, goalsRefetch: Outcome<seq<Goal>>)
      returns (calls: seq<StoreCall>)
      modifies this
      ensures update.Err? ==>
                calls == [UpdateSubGoal(id, isComplete)]
                && goals == old(goals) && subGoals == old(subGoals) && expandedGoals == old(expandedGoals)
      ensures update.Ok? ==>
                calls == [UpdateSubGoal(id, isComplete), SelectSubGoals(g), SelectGoals]
                && subGoals == Refreshed(old(subGoals), g, subRefetch)
                && GoalsRefreshed(goalsRefetch, old(goals), old(expandedGoals))
      ensures newGoal == old(newGoal) && newSubGoals == old(newSubGoals) && loading == old(loading)
    {
      calls := [UpdateSubGoal(id, isComplete)];
      if update.Ok? {
        var more := RefreshGoal(g, subRefetch, goalsRefetch);
        calls := calls + more;
      }
    }

    /**
      `deleteGoal(g)`: on success the goal list is fetched again and exactly
      the key `g` is dropped from the sub-goal cache, without reading the
      store for it. On failure nothing changes.
     */
    method DeleteGoal(g: Id, delete: Outcome<()>, refetch: Outcome<seq<Goal>>) returns (calls: seq<StoreCall>)
      modifies this
      ensures delete.Err? ==>
                calls == [StoreCall.DeleteGoal(g)]
                && goals == old(goals) && subGoals == old(subGoals) && expandedGoals == old(expandedGoals)
      ensures delete.Ok? ==>
                calls == [StoreCall.DeleteGoal(g), SelectGoals]
                && subGoals == WithoutGoal(old(subGoals), g)
                && GoalsRefreshed(refetch, old(goals), old(expandedGoals))
      ensures newGoal == old(newGoal) && newSubGoals == old(newSubGoals) && loading == old(loading)
    {
      calls := [StoreCall.DeleteGoal(g)];
      if delete.Ok? {
        var more := FetchGoals(refetch);
        calls := calls + more;
        subGoals := WithoutGoal(subGoals, g);
      }
    }

    /** `deleteSubGoal`: deletes one sub-goal; on success `g`'s sub-goals and the goal list are fetched again. */
    method DeleteSubGoal(id: Id, g: Id, delete: Outcome<()>,
                         subRefetch: Outcome<seq<SubGoal>>, goalsRefetch: Outcome<seq<Goal>>)
      returns (calls: seq<StoreCall>)
      modifies this
      ensures delete.Err? ==>
                calls == [StoreCall.DeleteSubGoal(id)]
                && goals == old(goals) && subGoals == old(subGoals) && expandedGoals == old(expandedGoals)
      ensures delete.Ok? ==>
                calls == [StoreCall.DeleteSubGoal(id), SelectSubGoals(g), SelectGoals]
                && subGoals == Refreshed(old(subGoals), g, subRefetch)
                && GoalsRefreshed(goalsRefetch, old(goals), old(expandedGoals))
      ensures newGoal == old(newGoal) && newSubGoals == old(newSubGoals) && loading == old(loading)
    {
      calls := [StoreCall.DeleteSubGoal(id)];
      if delete.Ok? {
        var more := RefreshGoal(g, subRefetch, goalsRefetch);
        calls := calls + more;
      }
    }
  }
}
