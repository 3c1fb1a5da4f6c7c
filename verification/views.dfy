/**
 The list view (src/components/todo_list.rs, and the same expression inline in
 src/main.rs): the list's entries paired with their positions, then narrowed
 to those the active filter shows. The view is a projection of the list: it keeps each shown entry's absolute index, which the
 entry later dispatches as `Toggle(idx)` or `Destroy(idx)`.
 */
module Views {
  import opened Todos
  import opened Filters

  /** An entry handed to the view: its absolute index and the todo. */
  type Entry = (nat, Todo)

  /** Whether a filter shows a todo: every todo, the unfinished ones or the
      finished ones. */
  predicate Shows(f: Filter, t: Todo)
  {
    match f
    case All => true
    case Active => !t.finished
    case Completed => t.finished
  }

  /** Pairs each todo with its position, counting from `base`. */
  function EnumerateFrom(l: TodoList, base: nat): (r: seq<Entry>)
    ensures |r| == |l|
    ensures forall k :: 0 <= k < |r| ==> r[k] == (base + k, l[k])
    decreases |l|
  {
    if l == [] then []
    else [(base, l[0])] + EnumerateFrom(l[1..], base + 1)
  }

  function Enumerate(l: TodoList): seq<Entry>
  {
    EnumerateFrom(l, 0)
  }

  /** Indices strictly increase along a sequence of entries. */
  ghost predicate Increasing(es: seq<Entry>)
  {
    forall i, j :: 0 <= i < j < |es| ==> es[i].0 < es[j].0
  }

  /** Filtering over entries: keeps, in order, the entries whose todo `f` shows. */
  function FilterEntries(es: seq<Entry>, f: Filter): (r: seq<Entry>)
    ensures |r| <= |es|
    ensures forall e :: e in r ==> e in es && Shows(f, e.1)
    ensures forall e :: e in es && Shows(f, e.1) ==> e in r
    decreases |es|
  {
    if es == [] then []
    else
      var rest := FilterEntries(es[1..], f);
      assert forall e :: e in es[1..] ==> e in es;
      if Shows(f, es[0].1) then [es[0]] + rest else rest
  }

  /** Filtering keeps the entries in their order: an increasing sequence of
      entries stays increasing. */
  lemma {:induction false} FilterEntriesKeepsOrder(es: seq<Entry>, f: Filter)
    requires Increasing(es)
    ensures Increasing(FilterEntries(es, f))
    decreases |es|
  {
    if es != [] {
      var rest := FilterEntries(es[1..], f);
      assert Increasing(es[1..]) by {
        forall i, j | 0 <= i < j < |es[1..]|
          ensures es[1..][i].0 < es[1..][j].0
        {
          assert es[1..][i] == es[i + 1] && es[1..][j] == es[j + 1];
        }
      }
      FilterEntriesKeepsOrder(es[1..], f);
      if Shows(f, es[0].1) {
        IncreasingHeadBelowTail(es, rest);
        IncreasingCons(es[0], rest);
      }
    }
  }

  /** An entry below every index of an increasing sequence can lead it. */
  lemma IncreasingCons(e: Entry, rest: seq<Entry>)
    requires Increasing(rest)
    requires forall k :: 0 <= k < |rest| ==> e.0 < rest[k].0
    ensures Increasing([e] + rest)
  {
    var r := [e] + rest;
    forall i, j | 0 <= i < j < |r|
      ensures r[i].0 < r[j].0
    {
      assert r[j] == rest[j - 1];
      if i > 0 {
        assert r[i] == rest[i - 1];
      }
    }
  }

  /** In an increasing sequence of entries, the head's index is below that of
      every entry drawn from the tail. */
  lemma IncreasingHeadBelowTail(es: seq<Entry>, rest: seq<Entry>)
    requires es != [] && Increasing(es)
    requires forall e :: e in rest ==> e in es[1..]
    ensures forall k :: 0 <= k < |rest| ==> es[0].0 < rest[k].0
  {
    forall k | 0 <= k < |rest|
      ensures es[0].0 < rest[k].0
    {
      assert rest[k] in es[1..];
      var j :| 0 <= j < |es[1..]| && es[1..][j] == rest[k];
      assert es[j + 1] == rest[k];
    }
  }

  /** The entries the list view renders for list `l` under filter `f`. Each
      carries its absolute position, so `l[idx]` is the rendered todo; the
      view keeps list order, and it shows a position exactly when `f` shows
      the todo there. */
  function Visible(l: TodoList, f: Filter): (r: seq<Entry>)
    ensures forall k :: 0 <= k < |r| ==> r[k].0 < |l| && l[r[k].0] == r[k].1 && Shows(f, r[k].1)
    ensures forall j :: 0 <= j < |l| ==> (Shows(f, l[j]) <==> (j, l[j]) in r)
    ensures forall k1, k2 :: 0 <= k1 < k2 < |r| ==> r[k1].0 < r[k2].0
  {
    var es := Enumerate(l);
    var r := FilterEntries(es, f);
    EnumerateMembers(l);
    FilterEntriesKeepsOrder(es, f);
    r
  }

  /** An entry is in the enumeration exactly when its index is a position of
      the list and its todo is the one there; the enumeration is increasing. */
  lemma EnumerateMembers(l: TodoList)
    ensures forall e: Entry :: e in Enumerate(l) <==> e.0 < |l| && l[e.0] == e.1
    ensures Increasing(Enumerate(l))
  {
    var es := Enumerate(l);
    forall e: Entry | e.0 < |l| && l[e.0] == e.1
      ensures e in es
    {
      assert es[e.0] == e;
    }
  }

  /** The todos of a sequence of entries, in order. */
  function Contents(es: seq<Entry>): (ts: TodoList)
    ensures |ts| == |es|
    ensures forall k :: 0 <= k < |es| ==> ts[k] == es[k].1
    decreases |es|
  {
    if es == [] then [] else [es[0].1] + Contents(es[1..])
  }

  /** The `All` filter lets every entry through. */
  lemma {:induction false} FilterAllKeepsEverything(es: seq<Entry>)
    ensures FilterEntries(es, All) == es
    decreases |es|
  {
    if es != [] {
      FilterAllKeepsEverything(es[1..]);
    }
  }

  /** Under `All` the view is the whole enumerated list, in order. */
  lemma VisibleAllIsEnumerate(l: TodoList)
    ensures Visible(l, All) == Enumerate(l)
    ensures |Visible(l, All)| == |l|
  {
    FilterAllKeepsEverything(Enumerate(l));
  }

  /** Every entry passes exactly one of `Active` and `Completed`. */
  lemma {:induction false} ActiveCompletedSizes(es: seq<Entry>)
    ensures |FilterEntries(es, Active)| + |FilterEntries(es, Completed)| == |es|
    decreases |es|
  {
    if es != [] {
      ActiveCompletedSizes(es[1..]);
    }
  }

  /** The `Active` and `Completed` views are disjoint and together hold
      exactly the entries of the `All` view. */
  lemma ActiveCompletedPartition(l: TodoList)
    ensures forall e :: e in Visible(l, Active) ==> e !in Visible(l, Completed)
    ensures forall e :: e in Visible(l, All) <==> e in Visible(l, Active) || e in Visible(l, Completed)
    ensures |Visible(l, Active)| + |Visible(l, Completed)| == |Visible(l, All)|
  {
    ActiveCompletedSizes(Enumerate(l));
    VisibleAllIsEnumerate(l);
  }

  /** The number of entries the `Active` filter lets through is the number of
      unfinished todos, wherever the enumeration starts. */
  lemma {:induction false} ActiveCountFrom(l: TodoList, base: nat)
    ensures |FilterEntries(EnumerateFrom(l, base), Active)| == ItemsLeft(l)
    decreases |l|
  {
    if l != [] {
      ActiveCountFrom(l[1..], base + 1);
    }
  }

  /** The `Active` view has exactly "items left" entries. */
  lemma ActiveViewSize(l: TodoList)
    ensures |Visible(l, Active)| == ItemsLeft(l)
  {
    ActiveCountFrom(l, 0);
  }
}
