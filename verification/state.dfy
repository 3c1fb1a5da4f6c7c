/**
 The state store (src/state.rs): the actions a view can dispatch, the state
 snapshot, and the reducer that maps a snapshot and an action to the next
 snapshot. Each arm of the reducer is built from one list operation, stated
 here on its own with what it does to the list.
 */
module StateStore {
  import opened Todos
  import opened Filters

  /** The actions. Indices are positions in the full, unfiltered list. */
  datatype Msg =
    | AddTodo(content: string)
    | Toggle(idx: nat)
    | ClearCompleted
    | SetFilter(filter: Filter)
    | Destroy(idx: nat)
    | ToggleAll

  /** A snapshot: the list and the active filter. */
  datatype State = State(todoList: TodoList, filter: Filter)

  /** An action can be reduced against a list only when its index, if it has
      one, is in range: `todo_list[idx]` and `Vec::remove` panic otherwise. */
  predicate Dispatchable(l: TodoList, m: Msg)
  {
    match m
    case Toggle(i) => i < |l|
    case Destroy(i) => i < |l|
    case _ => true
  }

  /** Appends a fresh, unfinished entry at the end. */
  function PushTodo(l: TodoList, content: string): (r: TodoList)
    ensures |r| == |l| + 1
    ensures r[..|l|] == l
    ensures r[|l|] == Todo(false, content)
  {
    l + [Todo(false, content)]
  }

  /** Negating the flag of the entry at `i` in place. */
  function FlipAt(l: TodoList, i: nat): (r: TodoList)
    requires i < |l|
    ensures |r| == |l|
    ensures r[i].finished != l[i].finished && r[i].content == l[i].content
    ensures forall j :: 0 <= j < |l| && j != i ==> r[j] == l[j]
  {
    l[i := l[i].(finished := !l[i].finished)]
  }

  /** Drops every finished entry and keeps the others in their order. */
  function RetainActive(l: TodoList): (r: TodoList)
    ensures |r| == ItemsLeft(l)
    ensures forall t :: t in r ==> t in l && !t.finished
    ensures forall t :: t in l && !t.finished ==> t in r
    decreases |l|
  {
    if l == [] then []
    else if l[0].finished then RetainActive(l[1..])
    else [l[0]] + RetainActive(l[1..])
  }

  /** Removes the entry at `i`; the entries after it shift down by one. */
  function RemoveAt(l: TodoList, i: nat): (r: TodoList)
    requires i < |l|
    ensures |r| == |l| - 1
    ensures forall j :: 0 <= j < i ==> r[j] == l[j]
    ensures forall j :: i <= j < |r| ==> r[j] == l[j + 1]
  {
    l[..i] + l[i + 1..]
  }

  /** A new list with every entry marked finished and its text kept. */
  function FinishAll(l: TodoList): (r: TodoList)
    ensures |r| == |l|
    ensures forall j :: 0 <= j < |l| ==> r[j].finished && r[j].content == l[j].content
    decreases |l|
  {
    if l == [] then []
    else [Todo(true, l[0].content)] + FinishAll(l[1..])
  }

  /** The reducer. Only `SetFilter` touches the filter (every other arm copies
      it over unchanged), and `SetFilter` leaves the list as it was. */
  function Reduce(s: State, m: Msg): (r: State)
    requires Dispatchable(s.todoList, m)
    ensures m.SetFilter? ==> r.filter == m.filter && r.todoList == s.todoList
    ensures !m.SetFilter? ==> r.filter == s.filter
    ensures m.AddTodo? ==> |r.todoList| == |s.todoList| + 1
    ensures m.Destroy? ==> |r.todoList| == |s.todoList| - 1
    ensures m.Toggle? || m.ToggleAll? ==> |r.todoList| == |s.todoList|
    ensures m.ClearCompleted? ==> |r.todoList| == ItemsLeft(s.todoList)
  {
    match m
    case AddTodo(c) => State(PushTodo(s.todoList, c), s.filter)
    case Toggle(i) => State(FlipAt(s.todoList, i), s.filter)
    case ClearCompleted => State(RetainActive(s.todoList), s.filter)
    case SetFilter(f) => State(s.todoList, f)
    case Destroy(i) => State(RemoveAt(s.todoList, i), s.filter)
    case ToggleAll => State(FinishAll(s.todoList), s.filter)
  }

  /** Destroying the entry just added restores the list. */
  lemma DestroyUndoesAddTodo(s: State, c: string)
    ensures Dispatchable(Reduce(s, AddTodo(c)).todoList, Destroy(|s.todoList|))
    ensures Reduce(Reduce(s, AddTodo(c)), Destroy(|s.todoList|)) == s
  {
    var l' := PushTodo(s.todoList, c);
    assert RemoveAt(l', |s.todoList|) == l'[..|s.todoList|];
  }

  /** Toggling the same entry twice is the identity. */
  lemma ToggleInvolution(s: State, i: nat)
    requires i < |s.todoList|
    ensures Reduce(Reduce(s, Toggle(i)), Toggle(i)) == s
  {
    var twice := Reduce(Reduce(s, Toggle(i)), Toggle(i)).todoList;
    assert forall j :: 0 <= j < |twice| ==> twice[j] == s.todoList[j];
  }

  /** Destroy removes exactly one occurrence of the entry at `i`. */
  lemma DestroyRemovesOneEntry(l: TodoList, i: nat)
    requires i < |l|
    ensures multiset(RemoveAt(l, i)) + multiset{l[i]} == multiset(l)
  {
    assert l == l[..i] + [l[i]] + l[i + 1..];
  }

  /** A list is left as it is by clearing completed entries exactly when it
      has no finished entry. */
  lemma RetainActiveFixedPoint(l: TodoList)
    ensures RetainActive(l) == l <==> forall j :: 0 <= j < |l| ==> !l[j].finished
  {
    if ItemsLeft(l) == |l| {
      RetainActiveKeepsAllActive(l);
    }
  }

  /** When no entry is finished, clearing completed entries removes nothing. */
  lemma {:induction false} RetainActiveKeepsAllActive(l: TodoList)
    requires ItemsLeft(l) == |l|
    ensures RetainActive(l) == l
    decreases |l|
  {
    if l != [] {
      var tail := l[1..];
      assert ItemsLeft(l) == (if l[0].finished then 0 else 1) + ItemsLeft(tail);
      assert ItemsLeft(tail) <= |tail|;
      assert !l[0].finished && ItemsLeft(tail) == |tail|;
      RetainActiveKeepsAllActive(tail);
      calc {
        RetainActive(l);
        [l[0]] + RetainActive(tail);
        [l[0]] + tail;
        l;
      }
    }
  }

  /** Clearing completed entries twice is clearing them once. */
  lemma ClearCompletedIdempotent(s: State)
    ensures Reduce(Reduce(s, ClearCompleted), ClearCompleted) == Reduce(s, ClearCompleted)
  {
    var r := RetainActive(s.todoList);
    assert forall j :: 0 <= j < |r| ==> r[j] in r;
    RetainActiveFixedPoint(r);
  }

  /** Finishing every entry twice is finishing them once. */
  lemma ToggleAllIdempotent(s: State)
    ensures Reduce(Reduce(s, ToggleAll), ToggleAll) == Reduce(s, ToggleAll)
  {
    var once := FinishAll(s.todoList);
    assert FinishAll(once) == once;
  }

  /** Adding a todo adds one unfinished entry. */
  lemma ItemsLeftAfterPush(l: TodoList, c: string)
    ensures ItemsLeft(PushTodo(l, c)) == ItemsLeft(l) + 1
  {
    ItemsLeftAppend(l, [Todo(false, c)]);
    assert ItemsLeft([Todo(false, c)]) == 1;
  }

  /** Toggling an entry moves the count by one, up or down by its old flag. */
  lemma ItemsLeftAfterFlip(l: TodoList, i: nat)
    requires i < |l|
    ensures ItemsLeft(FlipAt(l, i)) == if l[i].finished then ItemsLeft(l) + 1 else ItemsLeft(l) - 1
  {
    var r := FlipAt(l, i);
    ItemsLeftSplit(l, i);
    ItemsLeftSplit(r, i);
    assert r[..i] == l[..i];
    assert r[i + 1..] == l[i + 1..];
  }

  /** Clearing completed entries keeps every unfinished one. */
  lemma ItemsLeftAfterRetain(l: TodoList)
    ensures ItemsLeft(RetainActive(l)) == ItemsLeft(l)
  {
    var r := RetainActive(l);
    assert forall j :: 0 <= j < |r| ==> r[j] in r;
  }

  /** Destroying an entry lowers the count by one exactly when it was unfinished. */
  lemma ItemsLeftAfterRemove(l: TodoList, i: nat)
    requires i < |l|
    ensures ItemsLeft(RemoveAt(l, i)) == if l[i].finished then ItemsLeft(l) else ItemsLeft(l) - 1
  {
    ItemsLeftSplit(l, i);
    ItemsLeftAppend(l[..i], l[i + 1..]);
  }

  /** How each action changes the number of unfinished entries. */
  lemma ItemsLeftAfter(s: State, m: Msg)
    requires Dispatchable(s.todoList, m)
    ensures var n, n' := ItemsLeft(s.todoList), ItemsLeft(Reduce(s, m).todoList);
      match m
      case AddTodo(_) => n' == n + 1
      case Toggle(i) => n' == if s.todoList[i].finished then n + 1 else n - 1
      case ClearCompleted => n' == n
      case SetFilter(_) => n' == n
      case Destroy(i) => n' == if s.todoList[i].finished then n else n - 1
      case ToggleAll => n' == 0
  {
    match m
    case AddTodo(c) => ItemsLeftAfterPush(s.todoList, c);
    case Toggle(i) => ItemsLeftAfterFlip(s.todoList, i);
    case ClearCompleted => ItemsLeftAfterRetain(s.todoList);
    case SetFilter(_) =>
    case Destroy(i) => ItemsLeftAfterRemove(s.todoList, i);
    case ToggleAll =>
  }

  /** `ToggleAll` has no undoing action: once two entries were unfinished, no
      single action brings the list back. (With exactly one unfinished entry,
      toggling it would.) */
  lemma ToggleAllHasNoInverse(s: State, m: Msg)
    requires ItemsLeft(s.todoList) >= 2
    requires Dispatchable(Reduce(s, ToggleAll).todoList, m)
    ensures Reduce(Reduce(s, ToggleAll), m) != s
  {
    var t := Reduce(s, ToggleAll);
    ItemsLeftAfter(s, ToggleAll);
    ItemsLeftAfter(t, m);
    if m.ClearCompleted? {
      assert |Reduce(t, m).todoList| == 0 < |s.todoList|;
    }
  }
}
