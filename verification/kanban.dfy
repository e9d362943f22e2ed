/** The board logic of the kanban page (src/app/page.tsx): cards, columns, the drop
    handler's reordering, adding a card, column totals and the title filter, as pure
    functions on board values, with the properties the page relies on. */
module Kanban {
  import opened Text

  datatype Option<T> = None | Some(value: T)

  /** A card: the page's `Item`. Values are whole currency units. */
  datatype Item = Item(id: string, content: string, value: int)

  /** A column: the page's `Column`, holding its cards in display order. */
  datatype Column = Column(id: string, items: seq<Item>, title: string, color: string)

  /** A place in a droppable list, as the drag-and-drop library reports it. */
  datatype Location = Location(droppableId: string, index: int)

  /** What the drag-and-drop library hands to the drop handler: the dragged card's id,
      where it came from, and where it was dropped (`None` when dropped outside every list). */
  datatype DropResult = DropResult(draggableId: string, source: Location, destination: Option<Location>)

  // ---------------------------------------------------------------------------------
  // Seed data
  // ---------------------------------------------------------------------------------

  /** The three seed cards. */
  function SeedItems(): seq<Item> {
    [Item("1", "Item 1", 100), Item("2", "Item 2", 50), Item("3", "Item 3", 75)]
  }

  /** The board the page starts with: three columns, the seed cards in the first. */
  function InitialColumns(): seq<Column> {
    [ Column("Coluna_A", SeedItems(), "Em negociação", "#97e794"),
      Column("Coluna_B", [], "Pagamento efetuado", "#8fafec"),
      Column("Coluna_C", [], "Pedido finalizado", "#ad6ea8") ]
  }

  /** The first value of the new-card counter. */
  const InitialCounter: nat := 4

  // ---------------------------------------------------------------------------------
  // Lookups (`findIndex` / `find`) and the list edits (`filter` / `splice`)
  // ---------------------------------------------------------------------------------

  /** `cols[i]` is the first column whose id is `id`. */
  predicate IsFirstColumn(cols: seq<Column>, i: int, id: string) {
    0 <= i < |cols| && cols[i].id == id && forall j :: 0 <= j < i ==> cols[j].id != id
  }

  /** `columns.findIndex(column => column.id === id)`, with `None` for -1. */
  function FindColumn(cols: seq<Column>, id: string): (r: Option<nat>)
    ensures r.Some? ==> IsFirstColumn(cols, r.value, id)
    ensures r.None? ==> forall j :: 0 <= j < |cols| ==> cols[j].id != id
  {
    if cols == [] then None
    else if cols[0].id == id then Some(0)
    else match FindColumn(cols[1..], id)
      case None => None
      case Some(j) => Some(j + 1)
  }

  /** The position of `items.find(item => item.id === id)`: the first card with that id. */
  function FindItem(items: seq<Item>, id: string): (r: Option<nat>)
    ensures r.Some? ==> r.value < |items| && items[r.value].id == id
    ensures r.Some? ==> forall j :: 0 <= j < r.value ==> items[j].id != id
    ensures r.None? ==> forall j :: 0 <= j < |items| ==> items[j].id != id
  {
    if items == [] then None
    else if items[0].id == id then Some(0)
    else match FindItem(items[1..], id)
      case None => None
      case Some(j) => Some(j + 1)
  }

  /** `items.filter(item => item.id !== id)`: every card with that id dropped, order kept. */
  function RemoveId(items: seq<Item>, id: string): (r: seq<Item>)
    ensures |r| <= |items|
    ensures forall i :: 0 <= i < |r| ==> r[i].id != id
  {
    if items == [] then []
    else if items[0].id == id then RemoveId(items[1..], id)
      else [items[0]] + RemoveId(items[1..], id)
  }

  /** Filtering keeps every card whose id differs, as often as it occurs, and none with
      the id. */
  lemma {:induction false} RemoveIdCount(items: seq<Item>, id: string)
    ensures forall x :: multiset(RemoveId(items, id))[x] == if x.id == id then 0 else multiset(items)[x]
  {
    if items != [] {
      RemoveIdCount(items[1..], id);
      assert items == [items[0]] + items[1..];
    }
  }

  /** Filtering keeps the order: the filter of a list in two parts is the filter of the
      first part followed by the filter of the second. */
  lemma {:induction false} RemoveIdConcat(a: seq<Item>, b: seq<Item>, id: string)
    ensures RemoveId(a + b, id) == RemoveId(a, id) + RemoveId(b, id)
  {
    if a == [] {
      assert a + b == b;
    } else {
      assert (a + b)[0] == a[0];
      assert (a + b)[1..] == a[1..] + b;
      RemoveIdConcat(a[1..], b, id);
    }
  }

  /** Filtering keeps exactly the cards whose id differs. */
  lemma {:induction false} RemoveIdMembers(items: seq<Item>, id: string)
    ensures forall x :: x in RemoveId(items, id) <==> x in items && x.id != id
  {
    if items != [] {
      RemoveIdMembers(items[1..], id);
      assert items == [items[0]] + items[1..];
    }
  }

  /** Where `splice(start, 0, x)` inserts into a list of length `len`: a negative start
      counts back from the end (never before 0), a start past the end appends. */
  function SpliceStart(len: nat, start: int): (k: nat)
    ensures k <= len
    ensures 0 <= start <= len ==> k == start
    ensures start > len ==> k == len
    ensures start < 0 ==> k == if len + start < 0 then 0 else len + start
  {
    if start < 0 then (if len + start < 0 then 0 else len + start)
    else if start > len then len
    else start
  }

  /** The list after `splice(start, 0, x)`. */
  function InsertAt(s: seq<Item>, start: int, x: Item): (r: seq<Item>)
    ensures |r| == |s| + 1
    ensures multiset(r) == multiset(s) + multiset{x}
    ensures r[SpliceStart(|s|, start)] == x
  {
    var k := SpliceStart(|s|, start);
    assert s == s[..k] + s[k..];
    s[..k] + [x] + s[k..]
  }

  /** Inserting and then deleting at the same place gives the list back. */
  lemma InsertAtThenDelete(s: seq<Item>, start: int, x: Item)
    ensures var k := SpliceStart(|s|, start);
            var r := InsertAt(s, start, x);
            r[..k] + r[k + 1..] == s
  {
    var k := SpliceStart(|s|, start);
    var r := InsertAt(s, start, x);
    assert r[..k] == s[..k];
    assert r[k + 1..] == s[k..];
    assert s == s[..k] + s[k..];
  }

  /** The list without position `k`. */
  function Delete(s: seq<Item>, k: nat): (r: seq<Item>)
    requires k < |s|
    ensures |r| == |s| - 1
    ensures multiset(r) + multiset{s[k]} == multiset(s)
  {
    assert s == s[..k] + [s[k]] + s[k + 1..];
    s[..k] + s[k + 1..]
  }

  /** When only `items[k]` carries `id`, filtering the id out deletes exactly position `k`. */
  lemma {:induction false} RemoveIdOnly(items: seq<Item>, id: string, k: nat)
    requires k < |items| && items[k].id == id
    requires forall j :: 0 <= j < |items| && j != k ==> items[j].id != id
    ensures RemoveId(items, id) == Delete(items, k)
  {
    var tail := items[1..];
    if k == 0 {
      RemoveIdAbsent(tail, id);
      assert Delete(items, k) == tail;
    } else {
      RemoveIdOnly(tail, id, k - 1);
      assert RemoveId(items, id) == [items[0]] + Delete(tail, k - 1);
      DeleteCons(items, k);
    }
  }

  /** Deleting past the head keeps the head. */
  lemma DeleteCons(s: seq<Item>, k: nat)
    requires 0 < k < |s|
    ensures Delete(s, k) == [s[0]] + Delete(s[1..], k - 1)
  {
    assert s[1..][..k - 1] == s[1..k];
    assert s[1..][k..] == s[k + 1..];
    assert [s[0]] + s[1..k] == s[..k];
  }

  /** Filtering out an id nobody carries changes nothing. */
  lemma {:induction false} RemoveIdAbsent(items: seq<Item>, id: string)
    requires forall j :: 0 <= j < |items| ==> items[j].id != id
    ensures RemoveId(items, id) == items
  {
    if items != [] {
      RemoveIdAbsent(items[1..], id);
      assert items == [items[0]] + items[1..];
    }
  }

  // ---------------------------------------------------------------------------------
  // Drop handler (`onDragEnd`)
  // ---------------------------------------------------------------------------------

  /** The board after a drag ends with `d`. A drop outside every list, a source or
      destination id that names no column, or a card id absent from the source column
      leaves the board as it was. Otherwise every card with the dragged id leaves the
      source column and the dragged card is spliced in at the drop index: into the
      shortened source list when it is dropped on its own column, into the destination
      list otherwise. */
  function Moved(cols: seq<Column>, d: DropResult): (r: seq<Column>)
    ensures |r| == |cols|
    ensures forall j :: 0 <= j < |cols| ==>
              r[j].id == cols[j].id && r[j].title == cols[j].title && r[j].color == cols[j].color
  {
    match d.destination
    case None => cols
    case Some(dest) =>
      match (FindColumn(cols, d.source.droppableId), FindColumn(cols, dest.droppableId))
      case (Some(si), Some(di)) =>
        (match FindItem(cols[si].items, d.draggableId)
         case None => cols
         case Some(k) =>
           var dragged := cols[si].items[k];
           var filtered := RemoveId(cols[si].items, d.draggableId);
           if si == di then
             cols[si := cols[si].(items := InsertAt(filtered, dest.index, dragged))]
           else
             cols[si := cols[si].(items := filtered)]
                 [di := cols[di].(items := InsertAt(cols[di].items, dest.index, dragged))])
      case _ => cols
  }

  /** The drop names a column that does not exist: it was dropped outside every list, or
      its source or destination id matches no column. */
  predicate ColumnMissing(cols: seq<Column>, d: DropResult) {
    d.destination.None?
    || (forall j :: 0 <= j < |cols| ==> cols[j].id != d.source.droppableId)
    || (forall j :: 0 <= j < |cols| ==> cols[j].id != d.destination.value.droppableId)
  }

  /** A drop that names a missing column, or no column at all, changes nothing. */
  lemma MoveToMissingColumnIsNoOp(cols: seq<Column>, d: DropResult)
    requires ColumnMissing(cols, d)
    ensures Moved(cols, d) == cols
  {
    if d.destination.Some? {
      var s := FindColumn(cols, d.source.droppableId);
      var t := FindColumn(cols, d.destination.value.droppableId);
      assert s.None? || t.None?;
    }
  }

  /** A card id the source column does not hold changes nothing. */
  lemma MoveOfMissingItemIsNoOp(cols: seq<Column>, d: DropResult, si: nat)
    requires IsFirstColumn(cols, si, d.source.droppableId)
    requires forall j :: 0 <= j < |cols[si].items| ==> cols[si].items[j].id != d.draggableId
    ensures Moved(cols, d) == cols
  {
    FirstColumnUnique(cols, si, d.source.droppableId);
  }

  /** The first column with an id is the one `FindColumn` reports. */
  lemma FirstColumnUnique(cols: seq<Column>, i: nat, id: string)
    requires IsFirstColumn(cols, i, id)
    ensures FindColumn(cols, id) == Some(i)
  {
  }

  /** A drop on the card's own column: the column's cards become the old ones without the
      dragged card, with the dragged card spliced in at the drop index; no other column
      changes. */
  lemma MoveWithinColumn(cols: seq<Column>, d: DropResult, si: nat, k: nat)
    requires d.destination.Some?
    requires IsFirstColumn(cols, si, d.source.droppableId)
    requires IsFirstColumn(cols, si, d.destination.value.droppableId)
    requires k < |cols[si].items| && cols[si].items[k].id == d.draggableId
    requires forall j :: 0 <= j < |cols[si].items| && j != k ==> cols[si].items[j].id != d.draggableId
    ensures var items := cols[si].items;
            Moved(cols, d) == cols[si := cols[si].(items := InsertAt(Delete(items, k), d.destination.value.index, items[k]))]
    ensures forall j :: 0 <= j < |cols| && j != si ==> Moved(cols, d)[j] == cols[j]
  {
    FirstColumnUnique(cols, si, d.source.droppableId);
    FirstColumnUnique(cols, si, d.destination.value.droppableId);
    RemoveIdOnly(cols[si].items, d.draggableId, k);
  }

  /** A drop on another column: the source column loses the dragged card, the destination
      column gets it spliced in at the drop index; no other column changes. */
  lemma MoveAcrossColumns(cols: seq<Column>, d: DropResult, si: nat, di: nat, k: nat)
    requires d.destination.Some? && si != di
    requires IsFirstColumn(cols, si, d.source.droppableId)
    requires IsFirstColumn(cols, di, d.destination.value.droppableId)
    requires k < |cols[si].items| && cols[si].items[k].id == d.draggableId
    requires forall j :: 0 <= j < |cols[si].items| && j != k ==> cols[si].items[j].id != d.draggableId
    ensures var items := cols[si].items;
            Moved(cols, d)
              == cols[si := cols[si].(items := Delete(items, k))]
                     [di := cols[di].(items := InsertAt(cols[di].items, d.destination.value.index, items[k]))]
    ensures forall j :: 0 <= j < |cols| && j != si && j != di ==> Moved(cols, d)[j] == cols[j]
  {
    FirstColumnUnique(cols, si, d.source.droppableId);
    FirstColumnUnique(cols, di, d.destination.value.droppableId);
    RemoveIdOnly(cols[si].items, d.draggableId, k);
  }

  // ---------------------------------------------------------------------------------
  // Whole-board accounting: the cards on the board and card-id uniqueness
  // ---------------------------------------------------------------------------------

  /** Every card on the board, counted with multiplicity. */
  ghost function ItemBag(cols: seq<Column>): multiset<Item> {
    if cols == [] then multiset{} else multiset(cols[0].items) + ItemBag(cols[1..])
  }

  /** No card appears twice and no two different cards share an id. */
  ghost predicate IdsDistinct(b: multiset<Item>) {
    (forall x :: x in b ==> b[x] == 1)
    && (forall x, y :: x in b && y in b && x.id == y.id ==> x == y)
  }

  /** Card ids are unique across the whole board. */
  ghost predicate UniqueIds(cols: seq<Column>) {
    IdsDistinct(ItemBag(cols))
  }

  /** Replacing one column's cards changes the board's cards by exactly that difference. */
  lemma {:induction false} ItemBagUpdate(cols: seq<Column>, i: nat, c: Column)
    requires i < |cols|
    ensures ItemBag(cols[i := c]) + multiset(cols[i].items) == ItemBag(cols) + multiset(c.items)
  {
    var upd := cols[i := c];
    if i > 0 {
      assert upd[1..] == cols[1..][i - 1 := c];
      assert cols[1..][i - 1] == cols[i];
      ItemBagUpdate(cols[1..], i - 1, c);
      calc {
        ItemBag(upd) + multiset(cols[i].items);
        multiset(cols[0].items) + ItemBag(cols[1..][i - 1 := c]) + multiset(cols[1..][i - 1].items);
        multiset(cols[0].items) + (ItemBag(cols[1..][i - 1 := c]) + multiset(cols[1..][i - 1].items));
        multiset(cols[0].items) + (ItemBag(cols[1..]) + multiset(c.items));
        ItemBag(cols) + multiset(c.items);
      }
    } else {
      assert upd[1..] == cols[1..];
    }
  }

  /** A column's cards are among the board's cards. */
  lemma {:induction false} ColumnInBag(cols: seq<Column>, i: nat)
    requires i < |cols|
    ensures multiset(cols[i].items) <= ItemBag(cols)
  {
    if i > 0 {
      ColumnInBag(cols[1..], i - 1);
    }
  }

  /** A value at two positions of a list occurs at least twice in it. */
  lemma TwoPositions(s: seq<Item>, j: nat, k: nat)
    requires j < k < |s| && s[j] == s[k]
    ensures multiset(s)[s[k]] >= 2
  {
    assert s == s[..k] + s[k..];
    assert s[j] in s[..k];
    assert s[k] in s[k..];
  }

  /** With unique ids, the card at `k` is the only one in its column with its id. */
  lemma UniqueInColumn(cols: seq<Column>, si: nat, k: nat)
    requires UniqueIds(cols)
    requires si < |cols| && k < |cols[si].items|
    ensures forall j :: 0 <= j < |cols[si].items| && j != k ==> cols[si].items[j].id != cols[si].items[k].id
  {
    var items := cols[si].items;
    ColumnInBag(cols, si);
    forall j | 0 <= j < |items| && j != k
      ensures items[j].id != items[k].id
    {
      if items[j].id == items[k].id {
        assert items[j] in ItemBag(cols) && items[k] in ItemBag(cols);
        assert items[j] == items[k];
        if j < k { TwoPositions(items, j, k); } else { TwoPositions(items, k, j); }
      }
    }
  }

  /** On a board with unique ids, a drop either changes nothing or resolves to a source
      column `si`, a destination column `di` and the one position `k` of the dragged card
      in the source column. */
  lemma MoveResolved(cols: seq<Column>, d: DropResult) returns (found: bool, si: nat, di: nat, k: nat)
    requires UniqueIds(cols)
    ensures !found ==> Moved(cols, d) == cols
    ensures found ==> d.destination.Some?
                      && IsFirstColumn(cols, si, d.source.droppableId)
                      && IsFirstColumn(cols, di, d.destination.value.droppableId)
                      && k < |cols[si].items| && cols[si].items[k].id == d.draggableId
    ensures found ==> forall j :: 0 <= j < |cols[si].items| && j != k ==> cols[si].items[j].id != d.draggableId
  {
    found, si, di, k := false, 0, 0, 0;
    if d.destination.None? {
      return;
    }
    var s := FindColumn(cols, d.source.droppableId);
    var t := FindColumn(cols, d.destination.value.droppableId);
    if s.None? || t.None? {
      return;
    }
    var f := FindItem(cols[s.value].items, d.draggableId);
    if f.None? {
      return;
    }
    found, si, di, k := true, s.value, t.value, f.value;
    UniqueInColumn(cols, si, k);
  }

  /** Moving a card within one column keeps the board's cards. */
  lemma SameColumnKeepsBag(cols: seq<Column>, si: nat, k: nat, start: int)
    requires si < |cols| && k < |cols[si].items|
    ensures var items := cols[si].items;
            ItemBag(cols[si := cols[si].(items := InsertAt(Delete(items, k), start, items[k]))]) == ItemBag(cols)
  {
    var items := cols[si].items;
    var c := cols[si].(items := InsertAt(Delete(items, k), start, items[k]));
    assert multiset(c.items) == multiset(items);
    ItemBagUpdate(cols, si, c);
    var before, after := ItemBag(cols), ItemBag(cols[si := c]);
    forall x ensures after[x] == before[x] {
      assert (after + multiset(items))[x] == (before + multiset(c.items))[x];
    }
    assert after == before;
  }

  /** Moving a card from one column to another keeps the board's cards. */
  lemma AcrossColumnsKeepsBag(cols: seq<Column>, si: nat, di: nat, k: nat, start: int)
    requires si < |cols| && di < |cols| && si != di && k < |cols[si].items|
    ensures var items := cols[si].items;
            ItemBag(cols[si := cols[si].(items := Delete(items, k))]
                        [di := cols[di].(items := InsertAt(cols[di].items, start, items[k]))]) == ItemBag(cols)
  {
    var items := cols[si].items;
    var c1 := cols[si].(items := Delete(items, k));
    var c2 := cols[di].(items := InsertAt(cols[di].items, start, items[k]));
    var mid := cols[si := c1];
    ItemBagUpdate(cols, si, c1);
    ItemBagUpdate(mid, di, c2);
    assert mid[di] == cols[di];
    var before, middle, after := ItemBag(cols), ItemBag(mid), ItemBag(mid[di := c2]);
    var x := items[k];
    forall y ensures after[y] == before[y] {
      assert (middle + multiset(items))[y] == (before + multiset(c1.items))[y];
      assert (after + multiset(cols[di].items))[y] == (middle + multiset(c2.items))[y];
      assert (multiset(c1.items) + multiset{x})[y] == multiset(items)[y];
      assert multiset(c2.items)[y] == (multiset(cols[di].items) + multiset{x})[y];
    }
    assert after == before;
  }

  /** Conservation: on a board with unique card ids, a drop neither loses nor duplicates
      a card (so the card count stays the same) and the ids stay unique. */
  lemma MoveConservesItems(cols: seq<Column>, d: DropResult)
    requires UniqueIds(cols)
    ensures ItemBag(Moved(cols, d)) == ItemBag(cols)
    ensures |ItemBag(Moved(cols, d))| == |ItemBag(cols)|
    ensures UniqueIds(Moved(cols, d))
  {
    var found, si, di, k := MoveResolved(cols, d);
    if found {
      if si == di {
        MoveWithinColumn(cols, d, si, k);
        SameColumnKeepsBag(cols, si, k, d.destination.value.index);
      } else {
        MoveAcrossColumns(cols, d, si, di, k);
        AcrossColumnsKeepsBag(cols, si, di, k, d.destination.value.index);
      }
    }
  }

  // ---------------------------------------------------------------------------------
  // Adding a card (`handleAddItem`)
  // ---------------------------------------------------------------------------------

  /** The card the add button creates from counter value `n`. */
  function NewItem(n: nat): (x: Item)
    ensures IsDecimal(x.id) && ParseDecimal(x.id) == n
    ensures x.value == 50
  {
    ParseNatToString(n);
    Item(NatToString(n), "Novo Item " + NatToString(n), 50)
  }

  /** The board after the add button: the new card appended to the first column. */
  function Added(cols: seq<Column>, n: nat): (r: seq<Column>)
    requires |cols| > 0
    ensures |r| == |cols|
    ensures r[0].items == cols[0].items + [NewItem(n)]
    ensures r[0].id == cols[0].id && r[0].title == cols[0].title && r[0].color == cols[0].color
    ensures forall j :: 0 < j < |cols| ==> r[j] == cols[j]
  {
    cols[0 := cols[0].(items := cols[0].items + [NewItem(n)])]
  }

  /** Adding puts exactly one card, the counter's card, on the board. */
  lemma AddedBag(cols: seq<Column>, n: nat)
    requires |cols| > 0
    ensures ItemBag(Added(cols, n)) == ItemBag(cols) + multiset{NewItem(n)}
  {
    ItemBagUpdate(cols, 0, cols[0].(items := cols[0].items + [NewItem(n)]));
  }

  /** The counter is ahead of the board: every card id that is a decimal number is a
      number below `n`. */
  ghost predicate CounterFresh(cols: seq<Column>, n: nat) {
    forall x :: x in ItemBag(cols) && IsDecimal(x.id) ==> ParseDecimal(x.id) < n
  }

  /** With the counter ahead of every numeric id, the new card's id is fresh: ids stay
      unique, and the bumped counter is still ahead. */
  lemma AddKeepsIdsUnique(cols: seq<Column>, n: nat)
    requires |cols| > 0
    requires UniqueIds(cols) && CounterFresh(cols, n)
    ensures UniqueIds(Added(cols, n))
    ensures CounterFresh(Added(cols, n), n + 1)
  {
    AddedBag(cols, n);
    var x := NewItem(n);
    var b := ItemBag(cols);
    forall y | y in b
      ensures y.id != x.id
    {
    }
    assert x !in b;
  }

  /** The page's starting state satisfies both invariants. */
  lemma InitialBoardValid()
    ensures UniqueIds(InitialColumns())
    ensures CounterFresh(InitialColumns(), InitialCounter)
  {
    InitialItemBag();
    SeedIdsDistinct();
    SeedIdsBelowCounter();
  }

  /** The seed cards carry three different ids. */
  lemma SeedIdsDistinct()
    ensures IdsDistinct(multiset(SeedItems()))
  {
    var s := SeedItems();
    assert multiset(s) == multiset{s[0], s[1], s[2]};
    assert s[0].id != s[1].id && s[0].id != s[2].id && s[1].id != s[2].id;
  }

  /** The seed ids are the numbers 1, 2 and 3, all below the first counter value. */
  lemma SeedIdsBelowCounter()
    ensures forall x :: x in multiset(SeedItems()) && IsDecimal(x.id) ==> ParseDecimal(x.id) < InitialCounter
  {
    var s := SeedItems();
    assert multiset(s) == multiset{s[0], s[1], s[2]};
    ParseNatToString(1);
    ParseNatToString(2);
    ParseNatToString(3);
    assert NatToString(1) == s[0].id && NatToString(2) == s[1].id && NatToString(3) == s[2].id;
  }

  /** The cards on the starting board are the seed cards. */
  lemma InitialItemBag()
    ensures ItemBag(InitialColumns()) == multiset(SeedItems())
  {
    var cols := InitialColumns();
    assert cols[1..][1..][1..] == [];
  }

  // ---------------------------------------------------------------------------------
  // Column total (`calculateColumnTotal`)
  // ---------------------------------------------------------------------------------

  /** `items.reduce((total, item) => total + item.value, acc)`: card by card, first card
      first, each value added to the running total. */
  function Reduce(items: seq<Item>, acc: int): (r: int)
    ensures r == acc + SumValues(items)
  {
    if items == [] then acc else Reduce(items[1..], acc + items[0].value)
  }

  /** `calculateColumnTotal`: the reduction started from 0. */
  function Total(items: seq<Item>): (r: int)
    ensures r == SumValues(items)
    ensures items == [] ==> r == 0
  {
    Reduce(items, 0)
  }

  /** Reference sum of the card values. */
  function SumValues(items: seq<Item>): int {
    if items == [] then 0 else items[0].value + SumValues(items[1..])
  }

  /** The sum over two lists one after the other is the sum of their sums. */
  lemma {:induction false} SumConcat(a: seq<Item>, b: seq<Item>)
    ensures SumValues(a + b) == SumValues(a) + SumValues(b)
  {
    if a == [] {
      assert a + b == b;
    } else {
      assert (a + b)[1..] == a[1..] + b;
      SumConcat(a[1..], b);
    }
  }

  /** Splicing a card in adds its value to the total. */
  lemma TotalInsertAt(s: seq<Item>, start: int, x: Item)
    ensures Total(InsertAt(s, start, x)) == Total(s) + x.value
  {
    var k := SpliceStart(|s|, start);
    var a, b := s[..k], s[k..];
    assert InsertAt(s, start, x) == a + ([x] + b);
    assert s == a + b;
    SumConcat(a, [x] + b);
    SumConcat(a, b);
    assert ([x] + b)[1..] == b;
  }

  /** Appending a card adds its value to the total. */
  lemma TotalAppend(s: seq<Item>, x: Item)
    ensures Total(s + [x]) == Total(s) + x.value
  {
    SumConcat(s, [x]);
  }

  /** Taking a card out removes its value from the total. */
  lemma TotalDelete(s: seq<Item>, k: nat)
    requires k < |s|
    ensures Total(Delete(s, k)) == Total(s) - s[k].value
  {
    var a, b := s[..k], s[k + 1..];
    assert Delete(s, k) == a + b;
    assert s == a + ([s[k]] + b);
    SumConcat(a, [s[k]] + b);
    SumConcat(a, b);
    assert ([s[k]] + b)[1..] == b;
  }

  /** The sum of the column totals. */
  function BoardTotal(cols: seq<Column>): int {
    if cols == [] then 0 else Total(cols[0].items) + BoardTotal(cols[1..])
  }

  /** Replacing one column's cards changes the board total by the change in that column. */
  lemma {:induction false} BoardTotalUpdate(cols: seq<Column>, i: nat, c: Column)
    requires i < |cols|
    ensures BoardTotal(cols[i := c]) - Total(c.items) == BoardTotal(cols) - Total(cols[i].items)
  {
    if i > 0 {
      assert cols[i := c][1..] == cols[1..][i - 1 := c];
      BoardTotalUpdate(cols[1..], i - 1, c);
    } else {
      assert cols[i := c][1..] == cols[1..];
    }
  }

  /** Moving a card within one column keeps the sum of the column totals. */
  lemma SameColumnKeepsTotal(cols: seq<Column>, si: nat, k: nat, start: int)
    requires si < |cols| && k < |cols[si].items|
    ensures var items := cols[si].items;
            BoardTotal(cols[si := cols[si].(items := InsertAt(Delete(items, k), start, items[k]))]) == BoardTotal(cols)
  {
    var items := cols[si].items;
    TotalDelete(items, k);
    TotalInsertAt(Delete(items, k), start, items[k]);
    BoardTotalUpdate(cols, si, cols[si].(items := InsertAt(Delete(items, k), start, items[k])));
  }

  /** Moving a card from one column to another keeps the sum of the column totals. */
  lemma AcrossColumnsKeepsTotal(cols: seq<Column>, si: nat, di: nat, k: nat, start: int)
    requires si < |cols| && di < |cols| && si != di && k < |cols[si].items|
    ensures var items := cols[si].items;
            BoardTotal(cols[si := cols[si].(items := Delete(items, k))]
                           [di := cols[di].(items := InsertAt(cols[di].items, start, items[k]))]) == BoardTotal(cols)
  {
    var items := cols[si].items;
    var c1 := cols[si].(items := Delete(items, k));
    var c2 := cols[di].(items := InsertAt(cols[di].items, start, items[k]));
    TotalDelete(items, k);
    TotalInsertAt(cols[di].items, start, items[k]);
    BoardTotalUpdate(cols, si, c1);
    assert cols[si := c1][di] == cols[di];
    BoardTotalUpdate(cols[si := c1], di, c2);
  }

  /** On a board with unique ids a drop moves value between columns but never changes
      the sum of the column totals. */
  lemma MoveKeepsBoardTotal(cols: seq<Column>, d: DropResult)
    requires UniqueIds(cols)
    ensures BoardTotal(Moved(cols, d)) == BoardTotal(cols)
  {
    var found, si, di, k := MoveResolved(cols, d);
    if found {
      if si == di {
        MoveWithinColumn(cols, d, si, k);
        SameColumnKeepsTotal(cols, si, k, d.destination.value.index);
      } else {
        MoveAcrossColumns(cols, d, si, di, k);
        AcrossColumnsKeepsTotal(cols, si, di, k, d.destination.value.index);
      }
    }
  }

  /** Adding a card raises the sum of the column totals by exactly 50. */
  lemma AddRaisesBoardTotal(cols: seq<Column>, n: nat)
    requires |cols| > 0
    ensures BoardTotal(Added(cols, n)) == BoardTotal(cols) + 50
  {
    var c := cols[0].(items := cols[0].items + [NewItem(n)]);
    TotalAppend(cols[0].items, NewItem(n));
    BoardTotalUpdate(cols, 0, c);
  }

  // ---------------------------------------------------------------------------------
  // Title filter (`filteredColumns`)
  // ---------------------------------------------------------------------------------

  /** The filter callback: the column's lower-cased title includes the lower-cased text. */
  function Matches(text: string): Column -> bool {
    (c: Column) => Contains(Lower(c.title), Lower(text))
  }

  /** A column passes the filter exactly when the lower-cased text occurs somewhere in
      its lower-cased title. */
  lemma MatchesIff(text: string, c: Column)
    ensures Matches(text)(c) <==> exists i :: OccursAt(Lower(c.title), Lower(text), i)
  {
    assert Matches(text)(c) == Contains(Lower(c.title), Lower(text));
    ContainsIff(Lower(c.title), Lower(text));
  }

  /** The columns the page shows for filter `text`: all of them for an empty filter,
      otherwise those whose lower-cased title includes the lower-cased text, in order. */
  function Filter(cols: seq<Column>, text: string): (r: seq<Column>)
    ensures |r| <= |cols|
    ensures text == "" ==> r == cols
  {
    if text == "" then cols else KeepIf(cols, Matches(text))
  }

  /** `cols.filter(keep)`: the columns `keep` accepts, in their order. */
  function KeepIf(cols: seq<Column>, keep: Column -> bool): (r: seq<Column>)
    ensures |r| <= |cols|
  {
    if cols == [] then []
    else if keep(cols[0]) then [cols[0]] + KeepIf(cols[1..], keep)
    else KeepIf(cols[1..], keep)
  }

  /** `r` lists the columns of `cols` that `keep` accepts, in their original order:
      `idx` gives the positions they come from, increasing, and holds exactly the
      positions of the accepted columns. */
  ghost predicate IsSelection(cols: seq<Column>, r: seq<Column>, idx: seq<nat>, keep: Column -> bool) {
    |idx| == |r|
    && (forall m :: 0 <= m < |idx| ==> idx[m] < |cols| && r[m] == cols[idx[m]])
    && (forall m, n :: 0 <= m < n < |idx| ==> idx[m] < idx[n])
    && (forall j :: 0 <= j < |cols| ==> (j in idx <==> keep(cols[j])))
  }

  /** The filter keeps, in their original order, exactly the columns whose lower-cased
      title includes the lower-cased text; with an empty text that is every column. */
  lemma FilterSelects(cols: seq<Column>, text: string) returns (idx: seq<nat>)
    ensures IsSelection(cols, Filter(cols, text), idx, Matches(text))
  {
    if text == "" {
      idx := seq(|cols|, j requires 0 <= j => j as nat);
      assert forall j :: 0 <= j < |cols| ==> idx[j] == j;
      forall j | 0 <= j < |cols|
        ensures Matches(text)(cols[j])
      {
        assert |Lower(text)| == 0;
      }
    } else {
      idx := KeepIfSelects(cols, Matches(text));
    }
  }

  /** `KeepIf` keeps exactly the accepted columns, in order. */
  lemma {:induction false} KeepIfSelects(cols: seq<Column>, keep: Column -> bool) returns (idx: seq<nat>)
    ensures IsSelection(cols, KeepIf(cols, keep), idx, keep)
  {
    if cols == [] {
      idx := [];
    } else {
      var tail := KeepIfSelects(cols[1..], keep);
      var shifted := ShiftSelection(cols, keep, tail);
      if keep(cols[0]) {
        idx := [0] + shifted;
        KeepFirst(cols, keep, shifted);
      } else {
        idx := shifted;
        assert KeepIf(cols, keep) == KeepIf(cols[1..], keep);
      }
    }
  }

  /** The step of `KeepIfSelects` where the first column is kept. */
  lemma KeepFirst(cols: seq<Column>, keep: Column -> bool, shifted: seq<nat>)
    requires cols != [] && keep(cols[0])
    requires var rest := KeepIf(cols[1..], keep);
             |shifted| == |rest|
             && (forall m :: 0 <= m < |shifted| ==> shifted[m] < |cols| && rest[m] == cols[shifted[m]])
             && (forall m, n :: 0 <= m < n < |shifted| ==> 0 < shifted[m] < shifted[n])
    requires 0 !in shifted
    requires forall j :: 0 < j < |cols| ==> (j in shifted <==> keep(cols[j]))
    ensures IsSelection(cols, KeepIf(cols, keep), [0] + shifted, keep)
  {
    var rest := KeepIf(cols[1..], keep);
    var r := [cols[0]] + rest;
    var idx := [0] + shifted;
    assert KeepIf(cols, keep) == r;
    KeepFirstPositions(cols, keep, shifted);
    forall j | 0 <= j < |cols|
      ensures j in idx <==> keep(cols[j])
    {
      if j == 0 {
        assert idx[0] == 0;
      } else {
        assert j in idx <==> j in shifted;
      }
    }
  }

  /** The positions part of `KeepFirst`. */
  lemma KeepFirstPositions(cols: seq<Column>, keep: Column -> bool, shifted: seq<nat>)
    requires cols != [] && keep(cols[0])
    requires var rest := KeepIf(cols[1..], keep);
             |shifted| == |rest|
             && (forall m :: 0 <= m < |shifted| ==> shifted[m] < |cols| && rest[m] == cols[shifted[m]])
             && (forall m, n :: 0 <= m < n < |shifted| ==> 0 < shifted[m] < shifted[n])
    requires 0 !in shifted
    ensures var r := [cols[0]] + KeepIf(cols[1..], keep);
            var idx := [0] + shifted;
            |idx| == |r|
            && (forall m :: 0 <= m < |idx| ==> idx[m] < |cols| && r[m] == cols[idx[m]])
            && (forall m, n :: 0 <= m < n < |idx| ==> idx[m] < idx[n])
  {
    var rest := KeepIf(cols[1..], keep);
    var r := [cols[0]] + rest;
    var idx := [0] + shifted;
    forall m | 0 < m < |idx|
      ensures idx[m] < |cols| && r[m] == cols[idx[m]]
    {
      assert idx[m] == shifted[m - 1] && r[m] == rest[m - 1];
    }
    forall m, n | 0 <= m < n < |idx|
      ensures idx[m] < idx[n]
    {
      assert idx[n] == shifted[n - 1] && shifted[n - 1] in shifted;
      if m > 0 {
        assert idx[m] == shifted[m - 1];
      }
    }
  }

  /** A selection from `cols[1..]`, with every position moved up by one, selects the same
      columns from `cols`. */
  lemma ShiftSelection(cols: seq<Column>, keep: Column -> bool, tail: seq<nat>) returns (shifted: seq<nat>)
    requires cols != []
    requires IsSelection(cols[1..], KeepIf(cols[1..], keep), tail, keep)
    ensures var rest := KeepIf(cols[1..], keep);
            |shifted| == |rest|
            && (forall m :: 0 <= m < |shifted| ==> shifted[m] < |cols| && rest[m] == cols[shifted[m]])
            && (forall m, n :: 0 <= m < n < |shifted| ==> 0 < shifted[m] < shifted[n])
    ensures 0 !in shifted
    ensures forall j :: 0 < j < |cols| ==> (j in shifted <==> keep(cols[j]))
  {
    shifted := Shift(tail);
    ShiftMembers(tail);
    forall j | 0 < j < |cols|
      ensures j in shifted <==> keep(cols[j])
    {
      assert cols[1..][j - 1] == cols[j];
      assert j in shifted <==> (j - 1) as nat in tail;
    }
  }

  /** Every position one further on. */
  function Shift(s: seq<nat>): (r: seq<nat>)
    ensures |r| == |s|
    ensures forall m :: 0 <= m < |s| ==> r[m] == s[m] + 1
  {
    seq(|s|, m requires 0 <= m < |s| => s[m] + 1)
  }

  /** `Shift` moves every member up by one and never yields 0. */
  lemma ShiftMembers(s: seq<nat>)
    ensures forall j: nat :: j in s <==> j + 1 in Shift(s)
    ensures 0 !in Shift(s)
  {
    var r := Shift(s);
    forall j: nat
      ensures j in s <==> j + 1 in r
    {
      if j + 1 in r {
        var m :| 0 <= m < |r| && r[m] == j + 1;
        assert s[m] == j;
      }
      if j in s {
        var m :| 0 <= m < |s| && s[m] == j;
        assert r[m] == j + 1;
      }
    }
  }

  /** The filter ignores case: typing the text in any mix of upper and lower case shows
      the same columns as typing it in lower case. */
  lemma FilterIgnoresCase(cols: seq<Column>, text: string)
    ensures Filter(cols, text) == Filter(cols, Lower(text))
  {
    if text != "" {
      assert |Lower(text)| == |text|;
      LowerIdempotent(text);
      forall c ensures Matches(text)(c) == Matches(Lower(text))(c) {
      }
      KeepIfCongruent(cols, Matches(text), Matches(Lower(text)));
    }
  }

  /** Two callbacks that agree on every column keep the same columns. */
  lemma {:induction false} KeepIfCongruent(cols: seq<Column>, p: Column -> bool, q: Column -> bool)
    requires forall c :: p(c) == q(c)
    ensures KeepIf(cols, p) == KeepIf(cols, q)
  {
    if cols != [] {
      KeepIfCongruent(cols[1..], p, q);
    }
  }

  /** Filtering twice with the same text is filtering once. */
  lemma FilterIdempotent(cols: seq<Column>, text: string)
    ensures Filter(Filter(cols, text), text) == Filter(cols, text)
  {
    if text != "" {
      KeepIfIdempotent(cols, Matches(text));
    }
  }

  /** `KeepIf` applied to its own result changes nothing. */
  lemma {:induction false} KeepIfIdempotent(cols: seq<Column>, keep: Column -> bool)
    ensures KeepIf(KeepIf(cols, keep), keep) == KeepIf(cols, keep)
  {
    if cols != [] {
      KeepIfIdempotent(cols[1..], keep);
      var r := KeepIf(cols, keep);
      if keep(cols[0]) {
        assert r[0] == cols[0] && r[1..] == KeepIf(cols[1..], keep);
      }
    }
  }
}
