/**
  The to-do list's display rules: to-dos are bucketed by the calendar day
  they were created on, the buckets are shown most recent day first, and
  each bucket is headed by a label relative to the current day.

  A calendar day is an integer day number (consecutive days differ by one);
  the long-form date string is the constructor `LongForm`.
 */
module DayGrouping {
  import opened Store

  /** The header shown above a day's to-dos. */
  datatype Label = Today | Yesterday | LongForm(day: int)

  /**
    `formatDate`: the current day is `Today`, the day before it `Yesterday`,
    and every other day its long-form date. `Today` is tested first.
   */
  function FormatDate(day: int, today: int): (header: Label)
    ensures header == Today <==> day == today
    ensures header == Yesterday <==> day == today - 1
    ensures header.LongForm? <==> day != today && day != today - 1
    ensures header.LongForm? ==> header.day == day
  {
    if day == today then Today
    else if day == today - 1 then Yesterday
    else LongForm(day)
  }

  /** Different days never share a label. */
  lemma FormatDateInjective(today: int, d1: int, d2: int)
    requires FormatDate(d1, today) == FormatDate(d2, today)
    ensures d1 == d2
  {
    match FormatDate(d1, today)
    case Today =>
    case Yesterday =>
    case LongForm(_) =>
  }

  /** One bucket of the grouped view: a day and the to-dos created on it. */
  datatype DayGroup = DayGroup(day: int, todos: seq<Todo>)

  /** The days on which some to-do of `todos` was created. */
  function Days(todos: seq<Todo>): set<int>
  {
    set t | t in todos :: t.createdDay
  }

  /** The days that have a bucket in `groups`. */
  function GroupDays(groups: seq<DayGroup>): set<int>
  {
    set g | g in groups :: g.day
  }

  /**
    The to-dos of `todos` created on `day`, in input order. It holds exactly
    the to-dos of that day.
   */
  function OnDay(todos: seq<Todo>, day: int): (r: seq<Todo>)
    ensures |r| <= |todos|
    ensures forall t :: t in r <==> t in todos && t.createdDay == day
  {
    if todos == [] then []
    else
      var last := todos[|todos| - 1];
      var rest := OnDay(todos[..|todos| - 1], day);
      assert todos == todos[..|todos| - 1] + [last];
      if last.createdDay == day then rest + [last] else rest
  }

  /** Appending a to-do adds its day to the days seen. */
  lemma DaysSnoc(todos: seq<Todo>, todo: Todo)
    ensures Days(todos + [todo]) == Days(todos) + {todo.createdDay}
  {
    assert forall t :: t in todos + [todo] <==> t in todos || t == todo;
  }

  /** Appending a to-do appends it to its own day's to-dos and to no other day's. */
  lemma OnDaySnoc(todos: seq<Todo>, todo: Todo, day: int)
    ensures OnDay(todos + [todo], day)
            == if todo.createdDay == day then OnDay(todos, day) + [todo] else OnDay(todos, day)
  {
    assert (todos + [todo])[..|todos|] == todos;
  }

  /** Bucket days are strictly decreasing: the most recent day comes first. */
  ghost predicate NewestFirst(groups: seq<DayGroup>)
  {
    forall i, j :: 0 <= i < j < |groups| ==> groups[i].day > groups[j].day
  }

  /**
    `groups` is the grouped view of `todos`: one bucket per creation day and
    no other, most recent day first, and each bucket holds exactly that
    day's to-dos in input order.
   */
  ghost predicate IsDayGrouping(todos: seq<Todo>, groups: seq<DayGroup>)
  {
    && NewestFirst(groups)
    && GroupDays(groups) == Days(todos)
    && forall i :: 0 <= i < |groups| ==> groups[i].todos == OnDay(todos, groups[i].day)
  }

  predicate Distinct(s: seq<int>)
  {
    forall i, j :: 0 <= i < j < |s| ==> s[i] != s[j]
  }

  /** Putting `k` at the position of a descending list where it belongs keeps the list descending. */
  lemma InsertDescending(s: seq<int>, p: int, k: int)
    requires 0 <= p <= |s|
    requires forall i, j :: 0 <= i < j < |s| ==> s[i] > s[j]
    requires forall q :: 0 <= q < p ==> s[q] > k
    requires p < |s| ==> s[p] < k
    ensures var t := s[..p] + [k] + s[p..];
            (forall d :: d in t <==> d in s || d == k) && (forall i, j :: 0 <= i < j < |t| ==> t[i] > t[j])
  {
    assert s == s[..p] + s[p..];
  }

  /**
    Orders bucket keys by the comparator `(a, b) => b - a`: the most recent
    day first. Object keys are never repeated, so neither are these.
   */
  method SortNewestFirst(keys: seq<int>) returns (sorted: seq<int>)
    requires Distinct(keys)
    ensures |sorted| == |keys|
    ensures forall d :: d in sorted <==> d in keys
    ensures forall i, j :: 0 <= i < j < |sorted| ==> sorted[i] > sorted[j]
  {
    sorted := [];
    for i := 0 to |keys|
      invariant |sorted| == i
      invariant forall d :: d in sorted <==> d in keys[..i]
      invariant forall a, b :: 0 <= a < b < |sorted| ==> sorted[a] > sorted[b]
    {
      var k := keys[i];
      assert k !in keys[..i];
      var p := 0;
      while p < |sorted| && sorted[p] > k
        invariant 0 <= p <= |sorted|
        invariant forall q :: 0 <= q < p ==> sorted[q] > k
      {
        p := p + 1;
      }
      assert p < |sorted| ==> sorted[p] != k;
      assert keys[..i + 1] == keys[..i] + [k];
      InsertDescending(sorted, p, k);
      sorted := sorted[..p] + [k] + sorted[p..];
    }
    assert keys[..|keys|] == keys;
  }

  /**
    `buckets` holds, for each day of `todos` and no other, that day's to-dos
    in input order, and `keys` lists the bucket keys once each.
   */
  ghost predicate BucketsOf(todos: seq<Todo>, buckets: map<int, seq<Todo>>, keys: seq<int>)
  {
    && buckets.Keys == Days(todos)
    && (forall d :: d in buckets ==> buckets[d] == OnDay(todos, d))
    && Distinct(keys)
    && (forall d :: d in keys <==> d in buckets)
  }

  /** A day on which nothing was created has no to-dos. */
  lemma OnAbsentDay(todos: seq<Todo>, day: int)
    requires day !in Days(todos)
    ensures OnDay(todos, day) == []
  {
  }

  /** One step of the `forEach` pass keeps `BucketsOf`. */
  lemma BucketsStep(todos: seq<Todo>, todo: Todo, buckets: map<int, seq<Todo>>, keys: seq<int>)
    requires BucketsOf(todos, buckets, keys)
    ensures var day := todo.createdDay;
            var open := if day in buckets then buckets else buckets[day := []];
            BucketsOf(todos + [todo], open[day := open[day] + [todo]],
                      if day in buckets then keys else keys + [day])
  {
    var day := todo.createdDay;
    var open := if day in buckets then buckets else buckets[day := []];
    var buckets' := open[day := open[day] + [todo]];
    var keys' := if day in buckets then keys else keys + [day];
    DaysSnoc(todos, todo);
    assert buckets'.Keys == Days(todos + [todo]);
    forall d | d in buckets' ensures buckets'[d] == OnDay(todos + [todo], d) {
      OnDaySnoc(todos, todo, d);
      if d == day && day !in buckets {
        OnAbsentDay(todos, day);
      }
    }
    assert Distinct(keys');
  }

  /**
    The `forEach` pass of `groupTodosByDate`: each to-do, in input order, is
    appended to the bucket of its creation day, and a bucket is created on
    first use. `keys` lists the bucket keys in creation order.
   */
  method CollectBuckets(todos: seq<Todo>) returns (buckets: map<int, seq<Todo>>, keys: seq<int>)
    ensures BucketsOf(todos, buckets, keys)
  {
    buckets, keys := map[], [];
    for i := 0 to |todos|
      invariant BucketsOf(todos[..i], buckets, keys)
    {
      var todo := todos[i];
      var day := todo.createdDay;
      assert todos[..i + 1] == todos[..i] + [todo];
      BucketsStep(todos[..i], todo, buckets, keys);
      if day !in buckets {
        buckets := buckets[day := []];
        keys := keys + [day];
      }
      buckets := buckets[day := buckets[day] + [todo]];
    }
    assert todos[..|todos|] == todos;
  }

  /**
    `groupTodosByDate`: the buckets collected by the `forEach` pass, listed
    in the order of their keys sorted most recent first.
   */
  method GroupTodosByDate(todos: seq<Todo>) returns (groups: seq<DayGroup>)
    ensures IsDayGrouping(todos, groups)
  {
    var buckets, keys := CollectBuckets(todos);
    var sorted := SortNewestFirst(keys);
    forall k | 0 <= k < |sorted| ensures sorted[k] in buckets {
      assert sorted[k] in sorted;
    }
    groups := [];
    for j := 0 to |sorted|
      invariant |groups| == j
      invariant forall k :: 0 <= k < j ==> groups[k] == DayGroup(sorted[k], buckets[sorted[k]])
    {
      groups := groups + [DayGroup(sorted[j], buckets[sorted[j]])];
    }
    assert forall d :: d in GroupDays(groups) <==> d in sorted;
  }

  /** The to-dos of a grouping, bucket after bucket, as the page lists them. */
  function Flatten(groups: seq<DayGroup>): seq<Todo>
  {
    if groups == [] then [] else groups[0].todos + Flatten(groups[1..])
  }

  /** The to-dos of `todos` created on one of `days`, in input order. */
  function OnDays(todos: seq<Todo>, days: set<int>): seq<Todo>
  {
    if todos == [] then []
    else
      var last := todos[|todos| - 1];
      var rest := OnDays(todos[..|todos| - 1], days);
      if last.createdDay in days then rest + [last] else rest
  }

  lemma {:induction false} OnNoDays(todos: seq<Todo>)
    ensures OnDays(todos, {}) == []
  {
    if todos != [] {
      OnNoDays(todos[..|todos| - 1]);
    }
  }

  /** Adding a day to a set of days adds exactly that day's to-dos. */
  lemma {:induction false} OnDaysAddDay(todos: seq<Todo>, days: set<int>, day: int)
    requires day !in days
    ensures multiset(OnDays(todos, days + {day}))
            == multiset(OnDays(todos, days)) + multiset(OnDay(todos, day))
  {
    if todos != [] {
      OnDaysAddDay(todos[..|todos| - 1], days, day);
    }
  }

  /** Keeping the to-dos of every day that occurs keeps them all. */
  lemma {:induction false} OnDaysCoveringAll(todos: seq<Todo>, days: set<int>)
    requires Days(todos) <= days
    ensures OnDays(todos, days) == todos
  {
    if todos != [] {
      var init := todos[..|todos| - 1];
      assert todos == init + [todos[|todos| - 1]];
      DaysSnoc(init, todos[|todos| - 1]);
      OnDaysCoveringAll(init, days);
    }
  }

  /** Buckets of distinct days, each holding its day's to-dos, together hold the to-dos of those days. */
  lemma {:induction false} FlattenOnDays(todos: seq<Todo>, groups: seq<DayGroup>)
    requires forall i, j :: 0 <= i < j < |groups| ==> groups[i].day != groups[j].day
    requires forall i :: 0 <= i < |groups| ==> groups[i].todos == OnDay(todos, groups[i].day)
    ensures multiset(Flatten(groups)) == multiset(OnDays(todos, GroupDays(groups)))
  {
    if groups == [] {
      assert GroupDays(groups) == {};
      OnNoDays(todos);
    } else {
      var rest := groups[1..];
      FlattenOnDays(todos, rest);
      assert GroupDays(groups) == GroupDays(rest) + {groups[0].day} by {
        assert groups == [groups[0]] + rest;
      }
      assert groups[0].day !in GroupDays(rest);
      OnDaysAddDay(todos, GroupDays(rest), groups[0].day);
    }
  }

  /**
    Grouping neither loses nor duplicates a to-do: the buckets, read one
    after the other, hold the input to-dos exactly once each.
   */
  lemma GroupingIsPartition(todos: seq<Todo>, groups: seq<DayGroup>)
    requires IsDayGrouping(todos, groups)
    ensures multiset(Flatten(groups)) == multiset(todos)
  {
    FlattenOnDays(todos, groups);
    OnDaysCoveringAll(todos, GroupDays(groups));
  }

  /** Every to-do is in the bucket of its own creation day, and in no bucket of another day. */
  lemma GroupingPlacesByOwnDay(todos: seq<Todo>, groups: seq<DayGroup>, t: Todo)
    requires IsDayGrouping(todos, groups)
    requires t in todos
    ensures exists k :: 0 <= k < |groups| && groups[k].day == t.createdDay && t in groups[k].todos
    ensures forall k :: 0 <= k < |groups| && t in groups[k].todos ==> groups[k].day == t.createdDay
  {
    assert t.createdDay in GroupDays(groups);
  }

  /** No bucket is empty, and there are no buckets exactly when there are no to-dos. */
  lemma GroupingBucketsNonEmpty(todos: seq<Todo>, groups: seq<DayGroup>)
    requires IsDayGrouping(todos, groups)
    ensures forall i :: 0 <= i < |groups| ==> groups[i].todos != []
    ensures groups == [] <==> todos == []
  {
    forall i | 0 <= i < |groups| ensures groups[i].todos != [] {
      assert groups[i].day in GroupDays(groups);
      var t :| t in todos && t.createdDay == groups[i].day;
      assert t in groups[i].todos;
    }
    if todos != [] {
      assert todos[0].createdDay in Days(todos);
    }
    if groups != [] {
      assert groups[0].day in GroupDays(groups);
    }
  }

  /** The input positions of the to-dos created on `day`, in increasing order. */
  ghost function DayPositions(todos: seq<Todo>, day: int): (p: seq<int>)
    ensures forall k :: 0 <= k < |p| ==> 0 <= p[k] < |todos| && todos[p[k]].createdDay == day
    ensures forall k, m :: 0 <= k < m < |p| ==> p[k] < p[m]
    ensures forall j :: 0 <= j < |todos| && todos[j].createdDay == day ==> j in p
  {
    if todos == [] then []
    else
      var n := |todos| - 1;
      var rest := DayPositions(todos[..n], day);
      if todos[n].createdDay == day then rest + [n] else rest
  }

  /**
    A day's to-dos keep their input order: the k-th of them is the to-do at
    the k-th input position created on that day.
   */
  lemma {:induction false} OnDayKeepsInputOrder(todos: seq<Todo>, day: int)
    ensures |OnDay(todos, day)| == |DayPositions(todos, day)|
    ensures forall k :: 0 <= k < |OnDay(todos, day)| ==> OnDay(todos, day)[k] == todos[DayPositions(todos, day)[k]]
  {
    if todos != [] {
      OnDayKeepsInputOrder(todos[..|todos| - 1], day);
    }
  }

  /** Bucket lists that are both newest first and have the same days list those days identically. */
  lemma {:induction false} NewestFirstDetermined(a: seq<DayGroup>, b: seq<DayGroup>)
    requires NewestFirst(a) && NewestFirst(b) && GroupDays(a) == GroupDays(b)
    ensures |a| == |b| && forall i :: 0 <= i < |a| ==> a[i].day == b[i].day
  {
    assert a != [] ==> a[0].day in GroupDays(a);
    assert b != [] ==> b[0].day in GroupDays(b);
    if a != [] && b != [] {
      assert a[0].day == b[0].day by {
        assert b[0].day in GroupDays(a);
        assert a[0].day in GroupDays(b);
      }
      assert GroupDays(a[1..]) == GroupDays(a) - {a[0].day} by {
        assert a == [a[0]] + a[1..];
      }
      assert GroupDays(b[1..]) == GroupDays(b) - {b[0].day} by {
        assert b == [b[0]] + b[1..];
      }
      NewestFirstDetermined(a[1..], b[1..]);
    }
  }

  /** The grouped view of a to-do list is unique: the conditions of `IsDayGrouping` fix it completely. */
  lemma GroupingIsUnique(todos: seq<Todo>, g1: seq<DayGroup>, g2: seq<DayGroup>)
    requires IsDayGrouping(todos, g1) && IsDayGrouping(todos, g2)
    ensures g1 == g2
  {
    NewestFirstDetermined(g1, g2);
  }

  /** No two buckets of a grouping carry the same header, whatever the current day. */
  lemma HeadersDistinct(todos: seq<Todo>, groups: seq<DayGroup>, today: int)
    requires IsDayGrouping(todos, groups)
    ensures forall i, j :: 0 <= i < j < |groups| ==>
              FormatDate(groups[i].day, today) != FormatDate(groups[j].day, today)
  {
    forall i, j | 0 <= i < j < |groups|
      ensures FormatDate(groups[i].day, today) != FormatDate(groups[j].day, today)
    {
      if FormatDate(groups[i].day, today) == FormatDate(groups[j].day, today) {
        FormatDateInjective(today, groups[i].day, groups[j].day);
      }
    }
  }
}
