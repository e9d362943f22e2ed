/** The kanban page's state holder: the columns, the new-card counter and the filter text,
    and the three handlers that change them. Each handler is proved against the pure
    board functions of module Kanban and keeps the board's invariants. */
module KanbanBoard {
  import opened Kanban

  class Board {
    /** The columns in display order, each with its cards. */
    var columns: seq<Column>
    /** The number the next added card takes as its id. */
    var counter: nat
    /** The text typed into the column filter. */
    var filter: string

    /** Card ids are unique across the board and the counter is ahead of every numeric id. */
    ghost predicate Valid()
      reads this
    {
      UniqueIds(columns) && CounterFresh(columns, counter)
    }

    /** The page as it first renders: the seed board, counter 4, an empty filter. */
    constructor ()
      ensures columns == InitialColumns() && counter == InitialCounter && filter == ""
      ensures Valid()
    {
      columns := InitialColumns();
      counter := InitialCounter;
      filter := "";
      InitialBoardValid();
    }

    /** The drop handler: locate both columns and the dragged card, then rebuild the
        affected column lists from a copy of the columns. */
    method Move(d: DropResult)
      modifies this
      ensures columns == Moved(old(columns), d)
      ensures counter == old(counter) && filter == old(filter)
      ensures old(Valid()) ==> Valid() && ItemBag(columns) == old(ItemBag(columns))
    {
      ghost var before := columns;
      var sourceIndex := FindColumn(columns, d.source.droppableId);
      // A drop outside every list has no destination id, which no column matches.
      var destinationIndex: Option<nat> := None;
      if d.destination.Some? {
        destinationIndex := FindColumn(columns, d.destination.value.droppableId);
      }
      if sourceIndex.None? || destinationIndex.None? {
        return;
      }
      var si, di := sourceIndex.value, destinationIndex.value;
      var sourceColumn := columns[si];
      var destinationColumn := columns[di];
      var found := FindItem(sourceColumn.items, d.draggableId);
      if found.None? {
        return;
      }
      var dragged := sourceColumn.items[found.value];
      var at := d.destination.value.index;
      var updated := columns;
      var filtered := RemoveId(sourceColumn.items, d.draggableId);
      if si == di {
        filtered := InsertAt(filtered, at, dragged);
        updated := updated[si := updated[si].(items := filtered)];
      } else {
        var destinationItems := InsertAt(destinationColumn.items, at, dragged);
        updated := updated[si := updated[si].(items := filtered)];
        updated := updated[di := updated[di].(items := destinationItems)];
      }
      columns := updated;
      if UniqueIds(before) {
        MoveConservesItems(before, d);
      }
    }

    /** The add button: a card numbered by the counter goes to the end of the first
        column, and the counter moves on. */
    method AddItem()
      requires |columns| > 0
      modifies this
      ensures counter == old(counter) + 1 && filter == old(filter)
      ensures columns == Added(old(columns), old(counter))
      ensures old(Valid()) ==> Valid()
    {
      ghost var before := columns;
      var newItem := NewItem(counter);
      counter := counter + 1;
      var updated := columns;
      updated := updated[0 := updated[0].(items := updated[0].items + [newItem])];
      columns := updated;
      if UniqueIds(before) && CounterFresh(before, counter - 1) {
        AddKeepsIdsUnique(before, counter - 1);
      }
    }

    /** The filter box's change handler: the new text replaces the old. */
    method SetFilter(text: string)
      modifies this
      ensures filter == text
      ensures columns == old(columns) && counter == old(counter)
    {
      filter := text;
    }

    /** The columns on screen: all of them while the filter is empty, otherwise the
        passing ones in their stored order. Reading them never changes the board. */
    function Visible(): (r: seq<Column>)
      reads this
      ensures |r| <= |columns|
      ensures filter == "" ==> r == columns
    {
      Filter(columns, filter)
    }
  }
}
