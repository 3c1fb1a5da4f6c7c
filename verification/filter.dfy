/**
 The display filter of the todo list (src/domains/filter.rs): which entries
 the list shows, and the label of its footer link; also the footer's list of
 filter links (src/main.rs:162).
 */
module Filters {

  /** The three display filters; a `Copy` enum whose equality is variant equality. */
  datatype Filter = All | Active | Completed

  /** The label rendered in a filter's footer link. */
  function ToString(f: Filter): string
  {
    match f
    case All => "All"
    case Active => "Active"
    case Completed => "Completed"
  }

  /** Distinct filters get distinct labels, so a label names its filter. */
  lemma ToStringInjective(a: Filter, b: Filter)
    ensures ToString(a) == ToString(b) <==> a == b
  {
    if a != b {
      // The labels already differ in their first letter or in their length.
      assert ToString(a)[0] != ToString(b)[0] || |ToString(a)| != |ToString(b)|;
    }
  }

  /** The footer's filter links, in display order. */
  const Menu: seq<Filter> := [All, Active, Completed]

  /** The footer lists every filter exactly once. */
  lemma MenuListsEachFilterOnce(f: Filter)
    ensures f in Menu
    ensures forall i, j :: 0 <= i < j < |Menu| ==> Menu[i] != Menu[j]
  {
  }
}
