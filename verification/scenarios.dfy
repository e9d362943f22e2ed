/** Concrete boards worked through the model: the behaviours the page is expected to show
    for a few hand-picked drops, clicks and filter texts. */
module KanbanScenarios {
  import opened Text
  import opened Kanban
  import opened KanbanBoard

  const X := Item("x", "X", 10)
  const Y := Item("y", "Y", 20)
  const Z := Item("z", "Z", 30)

  /** A drop naming a source column that does not exist leaves `A:[x,y]`, `B:[]` alone. */
  lemma UnknownSourceIsIgnored()
    ensures var cols := [Column("A", [X, Y], "a", "#1"), Column("B", [], "b", "#2")];
            Moved(cols, DropResult("x", Location("Q", 0), Some(Location("B", 0)))) == cols
  {
    var cols := [Column("A", [X, Y], "a", "#1"), Column("B", [], "b", "#2")];
    var d := DropResult("x", Location("Q", 0), Some(Location("B", 0)));
    assert cols[0].id != "Q" && cols[1].id != "Q";
    MoveToMissingColumnIsNoOp(cols, d);
  }

  /** Dragging the middle card `y` to the front of its own column turns `[x,y,z]` into
      `[y,x,z]`, whatever the three cards are, as long as only `y` has the dragged id. */
  lemma ReorderWithinColumn(c: Column, x: Item, y: Item, z: Item)
    requires c.items == [x, y, z] && x.id != y.id && z.id != y.id
    ensures Moved([c], DropResult(y.id, Location(c.id, 1), Some(Location(c.id, 0))))[0].items == [y, x, z]
  {
    var d := DropResult(y.id, Location(c.id, 1), Some(Location(c.id, 0)));
    assert IsFirstColumn([c], 0, c.id);
    MoveWithinColumn([c], d, 0, 1);
    MiddleToFront(x, y, z);
  }

  /** Taking out the middle card and putting it back at the front. */
  lemma MiddleToFront(x: Item, y: Item, z: Item)
    ensures InsertAt(Delete([x, y, z], 1), 0, y) == [y, x, z]
  {
    DeleteMiddle(x, y, z);
    InsertFront([x, z], y);
  }

  /** Deleting position 1 of a three-card list leaves the outer two. */
  lemma DeleteMiddle(x: Item, y: Item, z: Item)
    ensures Delete([x, y, z], 1) == [x, z]
  {
    var s := [x, y, z];
    assert s[..1] == [x] && s[2..] == [z];
  }

  /** Splicing at index 0 puts the card in front. */
  lemma InsertFront(t: seq<Item>, y: Item)
    ensures InsertAt(t, 0, y) == [y] + t
  {
    assert t[..0] + [y] + t[0..] == [y] + t;
  }

  /** Dragging `x` from `A:[x,y]` to the front of the empty `B` gives `A:[y]`, `B:[x]`. */
  lemma MoveToOtherColumn()
    ensures var cols := [Column("A", [X, Y], "a", "#1"), Column("B", [], "b", "#2")];
            var r := Moved(cols, DropResult("x", Location("A", 0), Some(Location("B", 0))));
            r[0].items == [Y] && r[1].items == [X]
  {
    var cols := [Column("A", [X, Y], "a", "#1"), Column("B", [], "b", "#2")];
    var d := DropResult("x", Location("A", 0), Some(Location("B", 0)));
    assert Y.id != "x";
    MoveAcrossColumns(cols, d, 0, 1, 0);
    assert Delete([X, Y], 0) == [Y];
  }

  /** Two clicks on the starting page add cards "4" and "5", in that order, at the end of
      the first column only. */
  lemma AddTwice()
    ensures var r := Added(Added(InitialColumns(), 4), 5);
            r[0].items == SeedItems() + [NewItem(4), NewItem(5)]
            && r[1..] == InitialColumns()[1..]
            && NewItem(4).id == "4" && NewItem(5).id == "5"
  {
    assert NatToString(4) == "4" && NatToString(5) == "5";
  }

  /** The same two clicks on a freshly built page: the counter ends at 6, and the first
      column ends with cards "4" and "5". */
  method AddTwiceOnBoard() returns (b: Board)
    ensures b.counter == 6 && b.filter == "" && |b.columns| == 3
    ensures b.columns[0].items == SeedItems() + [NewItem(4), NewItem(5)]
    ensures b.columns[1..] == InitialColumns()[1..]
    ensures b.Valid()
  {
    b := new Board();
    b.AddItem();
    assert b.columns == Added(InitialColumns(), 4);
    b.AddItem();
    assert b.columns == Added(Added(InitialColumns(), 4), 5);
    AddTwice();
  }
}
