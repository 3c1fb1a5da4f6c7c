/**
 The application component (src/main.rs): its own copy of the reducer, the
 initial state, the footer's "items left" count, and how the indices the list
 view renders feed back into the reducer.
 */
module App {
  import opened Todos
  import opened Filters
  import opened StateStore
  import opened Views

  /** The outcome of reading the stored list: `None` stands for any storage
      error (missing key, unreadable value). */
  datatype Option<T> = None | Some(value: T)

  /** The reducer as written in main.rs, arm by arm, with `ToggleAll` built
      index-wise. main.rs declares its own `Msg` and `State` with the same
      shape as those of the state store; the model shares them. */
  function Reduce(s: State, m: Msg): (r: State)
    requires Dispatchable(s.todoList, m)
    ensures r == StateStore.Reduce(s, m)
  {
    var l := s.todoList;
    match m
    case AddTodo(c) => State(l + [Todo(false, c)], s.filter)
    case Toggle(i) => State(l[i := Todo(!l[i].finished, l[i].content)], s.filter)
    case ClearCompleted => State(RetainActive(l), s.filter)
    case SetFilter(f) => State(l, f)
    case Destroy(i) => State(l[..i] + l[i + 1..], s.filter)
    case ToggleAll =>
      var finished := seq(|l|, j requires 0 <= j < |l| => Todo(true, l[j].content));
      assert finished == FinishAll(l);
      State(finished, s.filter)
  }

  /** The state the app starts from: the stored list, or an empty one when it
      cannot be read, and always the `All` filter. */
  function InitialState(stored: Option<TodoList>): (s: State)
    ensures s.filter == All
    ensures stored.Some? ==> s.todoList == stored.value
    ensures stored.None? ==> s.todoList == []
    ensures Visible(s.todoList, s.filter) == Enumerate(s.todoList)
  {
    var l := match stored case Some(v) => v case None => [];
    VisibleAllIsEnumerate(l);
    State(l, All)
  }

  /** The footer's count: computed over the full list, so it equals the size
      of the `Active` view whichever filter the state has. */
  function ItemsLeftShown(s: State): (n: nat)
    ensures n == |Visible(s.todoList, Active)|
    ensures n == |s.todoList| - |Visible(s.todoList, Completed)|
  {
    ActiveViewSize(s.todoList);
    ActiveCompletedPartition(s.todoList);
    VisibleAllIsEnumerate(s.todoList);
    ItemsLeft(s.todoList)
  }

  /** After `ToggleAll` the footer shows no items left. */
  lemma ItemsLeftAfterToggleAll(s: State)
    ensures ItemsLeftShown(Reduce(s, ToggleAll)) == 0
  {
    ItemsLeftAfter(s, ToggleAll);
  }

  /** Every index the list view renders for a state is a valid position of
      that state's list: dispatching `Toggle` or `Destroy` with it is allowed,
      toggles the rendered todo and removes the rendered todo. */
  lemma RenderedIndicesAreDispatchable(s: State, k: nat)
    requires k < |Visible(s.todoList, s.filter)|
    ensures var (idx, todo) := Visible(s.todoList, s.filter)[k];
      && Dispatchable(s.todoList, Toggle(idx))
      && Dispatchable(s.todoList, Destroy(idx))
      && Reduce(s, Toggle(idx)).todoList[idx] == Todo(!todo.finished, todo.content)
      && multiset(Reduce(s, Destroy(idx)).todoList) + multiset{todo} == multiset(s.todoList)
  {
    var (idx, todo) := Visible(s.todoList, s.filter)[k];
    DestroyRemovesOneEntry(s.todoList, idx);
  }

  /** `retain` keeps what the `Active` filter shows, from any starting index. */
  lemma {:induction false} RetainActiveIsActiveViewFrom(l: TodoList, base: nat)
    ensures RetainActive(l) == Contents(FilterEntries(EnumerateFrom(l, base), Active))
    decreases |l|
  {
    if l != [] {
      var es := EnumerateFrom(l, base);
      assert es[1..] == EnumerateFrom(l[1..], base + 1);
      RetainActiveIsActiveViewFrom(l[1..], base + 1);
    }
  }

  /** Clearing completed entries leaves exactly the todos of the `Active` view,
      in the same order. */
  lemma ClearCompletedKeepsActiveView(s: State)
    ensures Reduce(s, ClearCompleted).todoList == Contents(Visible(s.todoList, Active))
  {
    RetainActiveIsActiveViewFrom(s.todoList, 0);
  }

  /** A session: add "a" and "b", toggle the first, show completed, destroy the
      second, clear completed. */
  lemma Session()
    ensures var s0 := InitialState(Some([]));
      var s1 := Reduce(s0, AddTodo("a"));
      var s2 := Reduce(s1, AddTodo("b"));
      var s3 := Reduce(s2, Toggle(0));
      var s4 := Reduce(s3, SetFilter(Completed));
      var s5 := Reduce(s4, Destroy(1));
      var s6 := Reduce(s5, ClearCompleted);
      && s2.todoList == [Todo(false, "a"), Todo(false, "b")]
      && s3.todoList == [Todo(true, "a"), Todo(false, "b")]
      && ItemsLeftShown(s3) == 1
      && Visible(s4.todoList, s4.filter) == [(0, Todo(true, "a"))]
      && s5.todoList == [Todo(true, "a")]
      && s6 == State([], Completed)
  {
    var s0 := InitialState(Some([]));
    var s1 := Reduce(s0, AddTodo("a"));
    assert s1 == State([Todo(false, "a")], All);
    var s2 := Reduce(s1, AddTodo("b"));
    assert s2 == State([Todo(false, "a"), Todo(false, "b")], All);
    var s3 := Reduce(s2, Toggle(0));
    assert s3 == State([Todo(true, "a"), Todo(false, "b")], All);
    assert ItemsLeftShown(s3) == 1 by {
      assert ItemsLeft(s3.todoList[1..]) == 1;
    }
    var s4 := Reduce(s3, SetFilter(Completed));
    assert s4 == State(s3.todoList, Completed);
    CompletedViewOfSession(s4.todoList);
    var s5 := Reduce(s4, Destroy(1));
    assert s5 == State([Todo(true, "a")], Completed);
    assert RetainActive(s5.todoList) == [];
  }

  /** The `Completed` view of the session's fourth state. */
  lemma CompletedViewOfSession(l: TodoList)
    requires l == [Todo(true, "a"), Todo(false, "b")]
    ensures Visible(l, Completed) == [(0, Todo(true, "a"))]
  {
    var v := Visible(l, Completed);
    assert (0, l[0]) in v;
    ActiveCompletedPartition(l);
    VisibleAllIsEnumerate(l);
    assert (1, l[1]) in Visible(l, Active);
  }
}
