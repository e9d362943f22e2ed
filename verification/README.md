# Kanban board logic, modelled and verified in Dafny

The kanban page (`src/app/page.tsx`) shows three columns of cards. A user can drag a card
to another place, click a button to add a card to the first column, and type a filter that
hides the columns whose title does not match. Each column also shows the sum of its card
values. This project lifts the page's board logic out of the React component and models it
in Dafny:

- `text.dfy`, module `Text`. This module covers the three JavaScript string operations the
  page relies on. `Number.prototype.toString` for whole numbers is `NatToString`, with the
  decimal parser `ParseDecimal` as its inverse. `toLowerCase` is `LowerChar` / `Lower`.
  `includes` is `Contains`, proved equal to "there is an occurrence".
- `kanban.dfy`, module `Kanban`. This module holds the `Item`/`Column` data and the seed
  board. It defines the drop handler's result as a function (`Moved`) and the add button's
  result (`Added`). It also defines the column total as the `reduce` it is (`Total`) and the
  column filter (`Filter` over the `filter` callback `KeepIf`). Beside them are the lemmas
  the page relies on: no-op drops, the exact effect of a drop on the same column or on
  another column, and conservation of cards under unique ids. The rest cover freshness of
  new ids, correctness of the total, and the filter selecting exactly the matching columns
  in order, ignoring case.
- `board.dfy`, module `KanbanBoard`. Class `Board` is the component's state: `columns`,
  the new-card `counter` and the `filter` text. Its methods are the handlers. `Move` is
  `onDragEnd`, `AddItem` is `handleAddItem` and `SetFilter` is `handleColumnFilterChange`.
  Each method is proved to produce exactly the board the corresponding function describes.
  Each also keeps the invariant `Valid()`: card ids are unique across the board, and the
  counter is above every numeric id.
- `scenarios.dfy`, module `KanbanScenarios`. This module works concrete boards through the
  model: a drop from an unknown column, a reorder inside a column, a move to another column,
  and two clicks on the add button, both on board values and on a freshly built `Board`.

The drag-and-drop library is outside the model. What it reports at the end of a drag is
the `DropResult` value: the dragged card's id, the source location, and a destination that
is `None` when the card is dropped outside every list.

Three details of the drop handler that the model follows exactly as the code has them:

- The drop handler removes every card with the dragged id (`filter`), not only the one it
  found. With unique ids the two are the same (`RemoveIdOnly`).
- The drop index goes to `splice`. A negative index therefore counts back from the end,
  and an index past the end appends (`SpliceStart`); it is not simply clamped to the list.
- `destination.index || 0` only rewrites a missing or zero index to 0. A drop with no
  destination never gets that far, because its undefined destination id matches no column.

## Model

| member | source | states |
|---|---|---|
| `Text.NatToString` | src/app/page.tsx:133 | the id of a new card is a non-empty string of decimal digits, with no leading zero |
| `Text.ParseNatToString` | src/app/page.tsx:133 | parsing the decimal text of `n` gives back `n` (the inverse of `toString`) |
| `Text.NatToStringInjective` | src/app/page.tsx:133 | different counter values give different card ids |
| `Text.LowerChar` | src/app/page.tsx:163 | `toLowerCase` on one character: capitals move up by 32, every other character is kept, and the result is never a capital |
| `Text.Lower` | src/app/page.tsx:163 | `toLowerCase` keeps the length and lower-cases each character in place |
| `Text.Contains` | src/app/page.tsx:163 | `includes` of the empty text is always true, and a text longer than the title is never included |
| `Text.ContainsIff` | src/app/page.tsx:163 | `includes` is true exactly when the needle occurs at some position of the text (both directions) |
| `Text.ContainsSound` | src/app/page.tsx:163 | when `includes` succeeds, it yields a position where the needle occurs |
| `Text.ContainsComplete` | src/app/page.tsx:163 | every occurrence of the needle makes `includes` true |
| `Kanban.FindColumn` | src/app/page.tsx:73-78 | `findIndex` gives the first column with the id, or `None` when no column has it |
| `Kanban.FindItem` | src/app/page.tsx:90-92 | `find` gives the first card in the source column with the dragged id, or `None` when the column has none |
| `Kanban.RemoveId` | src/app/page.tsx:105-107 | the filtered source list holds no card with the dragged id and is no longer than before |
| `Kanban.RemoveIdMembers` | src/app/page.tsx:116-118 | filtering keeps exactly the cards whose id differs from the dragged id |
| `Kanban.RemoveIdCount` | src/app/page.tsx:105-107 | the filter keeps every card whose id differs exactly as many times as it occurs, and no card with the dragged id |
| `Kanban.RemoveIdConcat` | src/app/page.tsx:116-118 | the filter keeps the order: filtering two lists one after the other is filtering each and joining the results |
| `Kanban.RemoveIdOnly` | src/app/page.tsx:105-107 | when only one card has the dragged id, the filter deletes exactly that card's position |
| `Kanban.SpliceStart` | src/app/page.tsx:108-112 | the `splice` insert position: an index in range is used as is, an index past the end appends, and a negative index counts back from the end but never before 0 |
| `Kanban.InsertAt` | src/app/page.tsx:120 | `splice(i, 0, x)` adds exactly one card, `x`, at the clamped position, and keeps all the others |
| `Kanban.InsertAtThenDelete` | src/app/page.tsx:120 | deleting the spliced-in card at its position gives the old list back |
| `Kanban.Moved` | src/app/page.tsx:99-127 | a drop never changes the number, order, ids, titles or colors of the columns |
| `Kanban.MoveToMissingColumnIsNoOp` | src/app/page.tsx:69-83 | a drop outside every list, or one whose source or destination id matches no column, leaves the board unchanged |
| `Kanban.MoveOfMissingItemIsNoOp` | src/app/page.tsx:89-97 | a dragged id that is not in the source column leaves the board unchanged |
| `Kanban.MoveWithinColumn` | src/app/page.tsx:103-113 | a drop on the card's own column: the column becomes its cards without the dragged card, with the dragged card spliced in at the drop index, and no other column changes |
| `Kanban.MoveAcrossColumns` | src/app/page.tsx:114-124 | a drop on another column: the source column loses the dragged card, the destination gets it spliced in at the drop index, and no other column changes |
| `Kanban.MoveConservesItems` | src/app/page.tsx:105-123 | with unique ids, a drop keeps the multiset of cards on the board and their number, and ids stay unique |
| `Kanban.MoveKeepsBoardTotal` | src/app/page.tsx:99-127 | with unique ids, a drop keeps the sum of all column totals |
| `Kanban.NewItem` | src/app/page.tsx:132-136 | the new card's id is the decimal text of the counter, and its value is 50 |
| `Kanban.Added` | src/app/page.tsx:141-148 | the board after adding: the counter's card is appended to the end of column 0, the number of columns and column 0's id, title and color are kept, and every other column is unchanged |
| `Kanban.AddedBag` | src/app/page.tsx:141-148 | adding puts exactly one card, the counter's card, on the board and takes none off |
| `Kanban.AddKeepsIdsUnique` | src/app/page.tsx:130-149 | when the counter is above every numeric id, adding keeps ids unique, and the bumped counter is still above every numeric id |
| `Kanban.AddRaisesBoardTotal` | src/app/page.tsx:135 | adding a card raises the sum of the column totals by exactly 50 |
| `Kanban.InitialBoardValid` | src/app/page.tsx:23-64 | the seed board has unique ids and the starting counter 4 is above every seed id |
| `Kanban.Reduce` | src/app/page.tsx:152 | the `reduce` adds the sum of the card values, as an independent recursive sum, to its starting value |
| `Kanban.Total` | src/app/page.tsx:151-153 | a column total is the sum of its card values, and 0 for an empty column |
| `Kanban.TotalAppend` | src/app/page.tsx:145 | appending a card adds its value to the column total |
| `Kanban.TotalInsertAt` | src/app/page.tsx:120 | splicing a card in adds its value to the column total |
| `Kanban.TotalDelete` | src/app/page.tsx:116-118 | taking a card out subtracts its value from the column total |
| `Kanban.Filter` | src/app/page.tsx:161-165 | an empty filter gives back the columns unchanged, and no filter gives more columns than are stored |
| `Kanban.MatchesIff` | src/app/page.tsx:162-163 | the filter callback accepts a column exactly when the lower-cased text occurs somewhere in its lower-cased title |
| `Kanban.KeepIf` | src/app/page.tsx:162-163 | `filter` never returns more columns than it is given |
| `Kanban.KeepIfSelects` | src/app/page.tsx:162-163 | `filter` keeps, in their order, exactly the columns its callback accepts |
| `Kanban.FilterSelects` | src/app/page.tsx:161-165 | the filtered list keeps, in their stored order, exactly the columns whose lower-cased title includes the lower-cased text |
| `Kanban.FilterIgnoresCase` | src/app/page.tsx:163 | a filter text in any case shows the same columns as the same text in lower case |
| `Kanban.FilterIdempotent` | src/app/page.tsx:161-165 | filtering the filtered list again with the same text changes nothing |
| `KanbanBoard.Board.constructor` | src/app/page.tsx:63-65 | the page starts with the seed board, counter 4 and an empty filter, with ids unique and the counter fresh |
| `KanbanBoard.Board.Move` | src/app/page.tsx:67-128 | the drop handler leaves exactly the board `Moved` describes and keeps the counter and the filter; on a board with unique ids it keeps the cards and the invariant |
| `KanbanBoard.Board.AddItem` | src/app/page.tsx:130-149 | the add handler leaves exactly the board `Added` describes, raises the counter by one, keeps the filter, and keeps the invariant |
| `KanbanBoard.Board.SetFilter` | src/app/page.tsx:155-159 | the filter text is replaced, and the columns and counter are unchanged |
| `KanbanBoard.Board.Visible` | src/app/page.tsx:161-165 | the columns on screen are all columns while the filter is empty, and never more than the stored columns; reading them changes nothing |
| `KanbanScenarios.UnknownSourceIsIgnored` | src/app/page.tsx:81-83 | a drop from a column id that does not exist leaves `A:[x,y]`, `B:[]` unchanged |
| `KanbanScenarios.ReorderWithinColumn` | src/app/page.tsx:103-113 | for any cards with `y`'s id only on `y`, dragging `y` to index 0 of its own column turns `[x,y,z]` into `[y,x,z]` |
| `KanbanScenarios.MoveToOtherColumn` | src/app/page.tsx:114-124 | dragging `x` from `A:[x,y]` to index 0 of the empty `B` gives `A:[y]`, `B:[x]` |
| `KanbanScenarios.AddTwice` | src/app/page.tsx:130-149 | two clicks from the starting page append cards `"4"` and `"5"`, in that order, to the first column only |
| `KanbanScenarios.AddTwiceOnBoard` | src/app/page.tsx:130-149 | a freshly built page after two clicks has counter 6, an empty filter, the same three columns, cards `"4"` and `"5"` at the end of the first column, and still satisfies its invariant |

## Left out

- Rendering, layout and styling (`src/app/page.tsx:167-239`) have no board logic.
- The drag-and-drop library's gesture handling is left out. Its only output here is the
  `DropResult` value. The source location's index is carried but, as in the source, never
  used.
- React's `useState` and re-rendering are left out. So is the aliasing that follows from
  them: `.items =` and `push` write into column objects shared with the previous state,
  and a `push` can write into the seed `items` array while no drop has replaced column 0's
  list. The model keeps the resulting board value, not which objects were shared.
- `Text.LowerChar` lower-cases only ASCII `A`-`Z` and the Latin-1 capitals U+00C0-U+00DE,
  except U+00D7. This covers the Portuguese titles of the page. Full Unicode case mapping,
  including mappings that change a string's length, is not modelled.
- Card values are whole numbers (`int`). JavaScript's floating-point `number` is not
  modelled. Every seed value and the added value 50 are whole units.
- `Text.NatToString` models the counter's decimal text as an unbounded natural number.
  Above 2^53 a JavaScript number loses precision, so `counter + 1` can equal `counter`.
  From 10^21 `toString` switches to exponent notation. Neither is modelled.
- A `NaN` drop index, which `|| 0` turns into 0, cannot occur with `int` indices.
- `KanbanBoard.Board.AddItem` requires at least one column. The source writes into
  `columns[0]` unconditionally and would throw on an empty board, which the page never
  has, since it always keeps its three columns.
- `Kanban.MoveConservesItems` and `Kanban.MoveKeepsBoardTotal` assume unique card ids. On a
  board with two cards sharing the dragged id, the source's filter drops both cards and only
  the found one is put back. The model computes that outcome (`Moved`), but no lemma
  describes it.
- Case-insensitive matching of the seed title "Em negociação" against "NEGOCI" is covered
  only by the general lemmas `Kanban.FilterSelects` and `Kanban.FilterIgnoresCase`, not
  worked out as a concrete scenario.
