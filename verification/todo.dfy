/**
 A todo entry and the todo list (src/domains/todo.rs), together with the
 "items left" count the footer shows for a list.
 */
module Todos {

  /** A todo is exactly its flag and its text: there is no identifier, so an
      entry is addressed by its position in the list. */
  datatype Todo = Todo(finished: bool, content: string)

  /** Insertion order is display order. A `seq` is a value, so every reducer
      step builds a new list and earlier snapshots stay as they were. */
  type TodoList = seq<Todo>

  /** The number of unfinished entries of the whole list, whatever filter is
      active. */
  function ItemsLeft(l: TodoList): (n: nat)
    ensures n <= |l|
    ensures n == 0 <==> forall j :: 0 <= j < |l| ==> l[j].finished
    ensures n == |l| <==> forall j :: 0 <= j < |l| ==> !l[j].finished
    decreases |l|
  {
    if l == [] then 0
    else (if l[0].finished then 0 else 1) + ItemsLeft(l[1..])
  }

  /** The count over a concatenation is the sum of the counts. */
  lemma {:induction false} ItemsLeftAppend(a: TodoList, b: TodoList)
    ensures ItemsLeft(a + b) == ItemsLeft(a) + ItemsLeft(b)
    decreases |a|
  {
    if a == [] {
      assert a + b == b;
    } else {
      assert (a + b)[1..] == a[1..] + b;
      ItemsLeftAppend(a[1..], b);
    }
  }

  /** Counting over a list split around position i. */
  lemma {:induction false} ItemsLeftSplit(l: TodoList, i: nat)
    requires i < |l|
    ensures ItemsLeft(l) == ItemsLeft(l[..i]) + (if l[i].finished then 0 else 1) + ItemsLeft(l[i + 1..])
  {
    var rest := [l[i]] + l[i + 1..];
    assert l == l[..i] + rest;
    ItemsLeftAppend(l[..i], rest);
    assert rest[1..] == l[i + 1..];
    assert ItemsLeft(rest) == (if l[i].finished then 0 else 1) + ItemsLeft(l[i + 1..]);
  }
}
