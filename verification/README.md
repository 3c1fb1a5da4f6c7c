# TodoMVC state store, in Dafny

A model of the core of a Yew "TodoMVC" application: the reducer that turns a
state snapshot (an ordered list of todos plus a display filter) and an action
into the next snapshot, and the two views derived from a snapshot. The first
view is the filtered list, whose entries keep their absolute indices. The
second is the footer's "items left" count.

Files and modules:

- `filter.dfy`, module `Filters`: the `Filter` enum and its label
  (src/domains/filter.rs), and the footer's list of filter links
  (src/main.rs:162).
- `todo.dfy`, module `Todos`: `Todo` as the pair (finished, content),
  `TodoList` as a `seq<Todo>`, and the unfinished-entry count (src/domains/todo.rs,
  src/main.rs:158).
- `state.dfy`, module `StateStore`: `Msg`, `State`, one function per list
  operation a reducer arm performs, the reducer `Reduce`, and lemmas about each
  action (src/state.rs).
- `views.dfy`, module `Views`: the `enumerate().filter(..)` projection used by
  the list component and by main.rs, with lemmas about the three filters
  (src/components/todo_list.rs).
- `app.dfy`, module `App`: main.rs's own copy of the reducer, proved equal to
  the state store's; the initial state; the footer count; and how rendered
  indices feed back into `Toggle` and `Destroy` (src/main.rs).

Values are immutable, so a reducer step always builds a new list and earlier
snapshots are never changed. Rust's `Clone` on the list and its value
semantics need no separate model.

An out-of-range index in `Toggle` or `Destroy` panics in the code:
`todo_list[idx]` panics, and so does `Vec::remove`. The model makes this a
precondition of the reducer, the predicate `StateStore.Dispatchable`. An
error value that leaves the state unchanged would be safer; the code returns
none, so the model follows the code.

## Model

| member | source | states |
|---|---|---|
| `Filters.ToStringInjective` | src/domains/filter.rs:9-16 | Two filters get the same label exactly when they are the same filter, so the three labels of `ToString` are pairwise distinct |
| `Filters.MenuListsEachFilterOnce` | src/main.rs:162 | The footer's list of filter links contains every variant of the three-variant enum exactly once |
| `Todos.ItemsLeft` | src/main.rs:158 | The unfinished count is at most the list length; it is 0 exactly when every entry is finished, and equals the length exactly when none is |
| `StateStore.PushTodo` | src/state.rs:29-35 | Adding a todo grows the list by one; the earlier entries are unchanged and the new last entry is unfinished and holds the given text |
| `StateStore.FlipAt` | src/state.rs:37-40 | Toggling index i negates only the flag at i; that entry's text, every other entry and the length are unchanged |
| `StateStore.RetainActive` | src/state.rs:42-45 | Clearing completed todos leaves only unfinished entries; every unfinished entry survives; the length becomes the unfinished count. These clauses speak of membership only: that the survivors keep their order and multiplicity is proved by `App.ClearCompletedKeepsActiveView` together with the contract of `Views.Visible` |
| `StateStore.RemoveAt` | src/state.rs:51-54 | Destroying index i shortens the list by one; entries before i keep their positions and entries after i move down by one |
| `StateStore.FinishAll` | src/state.rs:56-65 | Toggle-all keeps the length, keeps every entry's text in place, and marks every entry finished |
| `StateStore.Reduce` | src/state.rs:27-69 | Only SetFilter changes the filter, and it leaves the list alone. Every other action keeps the filter. The list length changes by +1 for AddTodo and -1 for Destroy, stays the same for Toggle and ToggleAll, and becomes the unfinished count for ClearCompleted |
| `StateStore.DestroyUndoesAddTodo` | src/state.rs:29-54 | Destroying the entry just added is allowed and restores the previous state |
| `StateStore.ToggleInvolution` | src/state.rs:37-40 | Toggling the same index twice restores the state |
| `StateStore.DestroyRemovesOneEntry` | src/state.rs:51-54 | Destroy removes exactly one occurrence of the entry at i, and no other entry, from the list's multiset |
| `StateStore.RetainActiveFixedPoint` | src/state.rs:42-45 | Clearing completed todos leaves a list as it is if and only if the list has no finished entry |
| `StateStore.ClearCompletedIdempotent` | src/state.rs:42-45 | ClearCompleted applied twice gives the same state as applied once |
| `StateStore.ToggleAllIdempotent` | src/state.rs:56-65 | ToggleAll applied twice gives the same state as applied once |
| `StateStore.ItemsLeftAfterPush` | src/state.rs:29-35 | Adding a todo raises the unfinished count by exactly one |
| `StateStore.ItemsLeftAfterFlip` | src/state.rs:37-40 | Toggling an entry raises the unfinished count by one when the entry was finished, and lowers it by one otherwise |
| `StateStore.ItemsLeftAfterRetain` | src/state.rs:42-45 | Clearing completed todos keeps the unfinished count |
| `StateStore.ItemsLeftAfterRemove` | src/state.rs:51-54 | Destroying an entry lowers the unfinished count by one exactly when that entry was unfinished |
| `StateStore.ItemsLeftAfter` | src/state.rs:27-69 | The effect of each action on the unfinished count: AddTodo adds 1; Toggle adds or removes 1 depending on the toggled flag; ClearCompleted and SetFilter keep the count; Destroy removes 1 when the entry was unfinished; ToggleAll gives 0 |
| `StateStore.ToggleAllHasNoInverse` | src/state.rs:56-65 | Once two entries were unfinished, no single action after ToggleAll restores the state |
| `Views.EnumerateFrom` | src/components/todo_list.rs:18 | The enumeration has one entry per todo, and entry k pairs the index base+k with the k-th todo |
| `Views.FilterEntries` | src/components/todo_list.rs:18-22 | Filtering keeps exactly the entries whose todo the filter shows: nothing else and nothing fewer |
| `Views.FilterEntriesKeepsOrder` | src/components/todo_list.rs:18-22 | Filtering an index-increasing sequence of entries gives an index-increasing sequence, so the view keeps list order |
| `Views.Visible` | src/components/todo_list.rs:18-23 | Each rendered index is an absolute position in the list, and the list holds the rendered todo there. A position is rendered exactly when the filter shows its todo. Rendered indices strictly increase. The same expression appears inline in src/main.rs:146-152 |
| `Views.VisibleAllIsEnumerate` | src/components/todo_list.rs:18-19 | Under All the view is every (index, todo) pair of the list, in order |
| `Views.ActiveCompletedPartition` | src/components/todo_list.rs:18-22 | The Active and Completed views are disjoint, together they hold exactly the All view, and their sizes sum to the list length |
| `Views.ActiveViewSize` | src/main.rs:146-158 | The Active view has as many entries as the footer's unfinished count |
| `App.Reduce` | src/main.rs:36-82 | The reducer duplicated in main.rs gives the same state as the state store's reducer for every state and every allowed action |
| `App.InitialState` | src/main.rs:87-91 | The app starts with the stored list, or an empty list when it cannot be read. The filter is always All, so the view starts as the whole list |
| `App.ItemsLeftShown` | src/main.rs:158 | The footer's count equals the size of the Active view and the list length minus the size of the Completed view, whatever the state's own filter is |
| `App.ItemsLeftAfterToggleAll` | src/main.rs:74-80 | After ToggleAll the footer count is 0 |
| `App.RenderedIndicesAreDispatchable` | src/main.rs:146-152 | Every index the list renders is valid for Toggle and Destroy on the state being rendered. Toggle with it flips the rendered todo, and Destroy with it removes that todo |
| `App.ClearCompletedKeepsActiveView` | src/main.rs:57-64 | After ClearCompleted the list is exactly the todos of the Active view, in the same order |
| `App.Session` | src/main.rs:36-91 | A concrete run from an empty stored list: add "a" and "b", toggle index 0 (one item left), filter Completed (only index 0 shown), destroy index 1, clear completed (empty list, filter Completed) |

## Left out

- Reading and writing the list in the browser's local storage, including the panic on a failed write: this is I/O. The stored list is an input of `App.InitialState`, and any read error is `None`.
- Serialisation of `Todo` with serde: a foreign library.
- HTML rendering, CSS classes, the callbacks and their `emit` wiring, and the keyboard and click handlers that build actions (src/components/todo_entry.rs, src/components/filter.rs, src/main.rs:100-133): presentation only. The indices these handlers dispatch are covered by `App.RenderedIndicesAreDispatchable`.
- `Rc<Self>`, `use_reducer`, `use_effect_with_deps` and `start_app`: framework plumbing.
- Panics on an out-of-range index: modelled as the precondition `Dispatchable`, not as an error value.
- `usize` width: indices and lengths are unbounded `nat`. Vector capacity overflow is not modelled.
- Separate `Msg` and `State` types in main.rs: they have the same shape as those of src/state.rs, so both reducers share one datatype.
- `Filters.ToString` has no contract of its own. The labels "All", "Active" and "Completed" are its body (src/domains/filter.rs:10-14); `Filters.ToStringInjective` states that they are distinct.
