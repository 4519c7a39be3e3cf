// The sortable columns of the result table: handleSortClick steps the
// clicked column through none -> desc -> asc -> none and resets the other,
// and sortTable reorders the rows by the count read back from the cell
// text, stably, or asks for a page reload when the direction is none.

module SortController {
  import opened JsStrings
  import opened ResultTable
  import opened StableSort

  /** The two sortable columns, in the order their headers appear. */
  datatype Column = Likes | Reposts

  /** `dataset.sortDirection`; an unset direction reads as none. */
  datatype Direction = NoSort | Desc | Asc

  /** The direction a click moves a column to. */
  function Next(d: Direction): Direction
  {
    match d
    case NoSort => Desc
    case Desc => Asc
    case Asc => NoSort
  }

  const DOWN_ARROW: JsString := [0x2193 as CodeUnit]
  const UP_ARROW: JsString := [0x2191 as CodeUnit]
  const BOTH_ARROWS: JsString := [0x21C5 as CodeUnit]

  /** The arrow a header shows for its direction. */
  function Arrow(d: Direction): JsString
  {
    match d
    case Desc => DOWN_ARROW
    case Asc => UP_ARROW
    case NoSort => BOTH_ARROWS
  }

  // ---------------------------------------------------------------------
  // The comparator

  /** The count a row's cell shows, read back from its text (third or fourth cell). */
  function CellKey(row: Row, column: Column): nat
  {
    ParseCount(if column == Likes then row.likesText else row.repostsText)
  }

  /** A column and whether the direction is `asc`; any other direction sorts descending. */
  datatype Order = Order(column: Column, ascending: bool)

  /** The position key the comparator orders by: the count, negated for descending order. */
  function Rank(row: Row, o: Order): int
  {
    var count: int := CellKey(row, o.column);
    if o.ascending then count else -count
  }

  /** `compareFn(a, b)`: `valA - valB` ascending, `valB - valA` otherwise. */
  function Compare(a: Row, b: Row, o: Order): (c: int)
    ensures c < 0 <==> Rank(a, o) < Rank(b, o)
    ensures c == 0 <==> Rank(a, o) == Rank(b, o)
    ensures c > 0 <==> Rank(b, o) < Rank(a, o)
  {
    var va := CellKey(a, o.column);
    var vb := CellKey(b, o.column);
    if o.ascending then va - vb else vb - va
  }

  /** The comparator's order as a key function: rows sort by ascending `Rank`. */
  function RankOf(o: Order): Row -> int
  {
    row => Rank(row, o)
  }

  /** Rows sorted by the comparator are in ascending count order for `asc` and descending count order otherwise. */
  lemma SortedByCount(t: seq<Row>, o: Order)
    requires Sorted(t, RankOf(o))
    ensures forall p, q :: 0 <= p < q < |t| ==>
              if o.ascending then CellKey(t[p], o.column) <= CellKey(t[q], o.column)
              else CellKey(t[p], o.column) >= CellKey(t[q], o.column)
  {
    forall p, q | 0 <= p < q < |t|
      ensures if o.ascending then CellKey(t[p], o.column) <= CellKey(t[q], o.column)
              else CellKey(t[p], o.column) >= CellKey(t[q], o.column)
    {
      assert RankOf(o)(t[p]) <= RankOf(o)(t[q]);
    }
  }

  /** Two rows compare as equal exactly when they show the same count; only then may the sort keep either order. */
  lemma CompareZeroIffSameCount(a: Row, b: Row, o: Order)
    ensures Compare(a, b, o) == 0 <==> CellKey(a, o.column) == CellKey(b, o.column)
  {
  }

  /** `rows.sort(compareFn)`. */
  method SortRows(a: array<Row>, o: Order)
    modifies a
    ensures IsStableSort(a[..], old(a[..]), RankOf(o))
  {
    InsertionSort(a, RankOf(o));
  }

  // ---------------------------------------------------------------------
  // The table and its headers

  class SortableTable {
    var likes: Direction
    var reposts: Direction
    var likesArrow: JsString
    var repostsArrow: JsString
    /** The `tr` elements of the body, in display order. */
    var rows: array<Row>
    /** Set once `location.reload()` has been called. */
    var reloadRequested: bool

    /** Each header shows the arrow of its direction, and at most one header is sorting. */
    predicate Valid()
      reads this
    {
      likesArrow == Arrow(likes) && repostsArrow == Arrow(reposts) &&
      (likes == NoSort || reposts == NoSort)
    }

    function DirectionOf(column: Column): Direction
      reads this
    {
      if column == Likes then likes else reposts
    }

    /** A freshly built table: both headers unsorted with the double arrow. */
    constructor (shown: seq<Row>)
      ensures Valid() && likes == NoSort && reposts == NoSort && !reloadRequested
      ensures fresh(rows) && rows[..] == shown
    {
      likes, reposts := NoSort, NoSort;
      likesArrow, repostsArrow := BOTH_ARROWS, BOTH_ARROWS;
      rows := new Row[|shown|](i requires 0 <= i < |shown| => shown[i]);
      reloadRequested := false;
    }

    /**
     * `handleSortClick(sortType)`: the headers are visited in order; the
     * clicked one moves to its next direction and sorts the table, the
     * other is reset to none.
     */
    method Click(column: Column)
      requires Valid()
      modifies this, rows
      ensures Valid() && rows == old(rows)
      ensures DirectionOf(column) == Next(old(DirectionOf(column)))
      ensures DirectionOf(if column == Likes then Reposts else Likes) == NoSort
      ensures DirectionOf(column) == NoSort ==> reloadRequested && rows[..] == old(rows[..])
      ensures DirectionOf(column) != NoSort ==>
                reloadRequested == old(reloadRequested) &&
                IsStableSort(rows[..], old(rows[..]), RankOf(Order(column, DirectionOf(column) == Asc)))
    {
      if column == Likes {
        likes := Next(likes);
        likesArrow := Arrow(likes);
        SortTable(Likes, likes);
      } else {
        likes := NoSort;
        likesArrow := Arrow(NoSort);
      }
      if column == Reposts {
        reposts := Next(reposts);
        repostsArrow := Arrow(reposts);
        SortTable(Reposts, reposts);
      } else {
        reposts := NoSort;
        repostsArrow := Arrow(NoSort);
      }
    }

    /** `sortTable(table, sortType, sortDirection)`. */
    method SortTable(column: Column, direction: Direction)
      modifies this, rows
      ensures rows == old(rows)
      ensures likes == old(likes) && reposts == old(reposts)
      ensures likesArrow == old(likesArrow) && repostsArrow == old(repostsArrow)
      ensures direction == NoSort ==> reloadRequested && rows[..] == old(rows[..])
      ensures direction != NoSort ==>
                reloadRequested == old(reloadRequested) &&
                IsStableSort(rows[..], old(rows[..]), RankOf(Order(column, direction == Asc)))
    {
      if direction == NoSort {
        reloadRequested := true;
        return;
      }
      SortRows(rows, Order(column, direction == Asc));
    }
  }

  /** The click handler: without a table on the page nothing happens. */
  method HandleSortClick(table: SortableTable?, column: Column)
    requires table != null ==> table.Valid()
    modifies if table != null then {table, table.rows} else {}
    ensures table != null ==> table.Valid() && table.rows == old(table.rows)
    ensures table != null ==> table.DirectionOf(column) == Next(old(table.DirectionOf(column)))
    ensures table != null ==> table.DirectionOf(if column == Likes then Reposts else Likes) == NoSort
    ensures table != null && table.DirectionOf(column) == NoSort ==>
              table.reloadRequested && table.rows[..] == old(table.rows[..])
    ensures table != null && table.DirectionOf(column) != NoSort ==>
              table.reloadRequested == old(table.reloadRequested) &&
              IsStableSort(table.rows[..], old(table.rows[..]),
                           RankOf(Order(column, table.DirectionOf(column) == Asc)))
  {
    if table == null {
      return;
    }
    table.Click(column);
  }
}
