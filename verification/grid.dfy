/**
  The grid clusterer of validateGridAlignment. Elements are grouped into rows
  by exact top coordinate in a sorted map from y to a counter (a
  ConcurrentSkipListMap in the source, modelled as a strictly ascending
  association sequence); then the row count and each row's size are checked.
 */
module Grid {
  import opened Wrappers
  import opened Layout

  /** One entry of the row map: a top coordinate and how many elements start there. */
  datatype Row = Row(y: int, count: nat)

  /** The map's keys ascend strictly and every counter is positive. */
  predicate WellFormed(rows: seq<Row>)
  {
    && (forall i, j :: 0 <= i < j < |rows| ==> rows[i].y < rows[j].y)
    && (forall i :: 0 <= i < |rows| ==> rows[i].count > 0)
  }

  /** The counter stored under key y, 0 when the key is absent. */
  function CountAt(rows: seq<Row>, y: int): nat
    decreases |rows|
  {
    if rows == [] then 0
    else if rows[0].y == y then rows[0].count
    else CountAt(rows[1..], y)
  }

  /** The keys of the map. */
  function Keys(rows: seq<Row>): set<int>
  {
    set i | 0 <= i < |rows| :: rows[i].y
  }

  /** `map.putIfAbsent(y, 0); map.get(y).incrementAndGet()` on the sorted map. */
  function Bump(rows: seq<Row>, y: int): (r: seq<Row>)
    // at most one new entry, and never an empty map
    ensures r != [] && |rows| <= |r| <= |rows| + 1
    decreases |rows|
  {
    if rows == [] then [Row(y, 1)]
    else if y < rows[0].y then [Row(y, 1)] + rows
    else if y == rows[0].y then [Row(y, rows[0].count + 1)] + rows[1..]
    else [rows[0]] + Bump(rows[1..], y)
  }

  /** Bump keeps the map sorted, adds y to the keys and raises only y's counter, by one. */
  lemma BumpSpec(rows: seq<Row>, y: int)
    requires WellFormed(rows)
    ensures WellFormed(Bump(rows, y))
    ensures Keys(Bump(rows, y)) == Keys(rows) + {y}
    ensures forall z :: CountAt(Bump(rows, y), z) == CountAt(rows, z) + (if z == y then 1 else 0)
  {
    BumpKeys(rows, y);
    BumpWellFormed(rows, y);
    BumpCounts(rows, y);
  }

  lemma {:induction false} BumpKeys(rows: seq<Row>, y: int)
    ensures Keys(Bump(rows, y)) == Keys(rows) + {y}
    decreases |rows|
  {
    if rows == [] {
    } else if y < rows[0].y {
      ConsKeys(Row(y, 1), rows);
    } else if y == rows[0].y {
      ConsKeys(rows[0], rows[1..]);
      ConsKeys(Row(y, rows[0].count + 1), rows[1..]);
      assert [rows[0]] + rows[1..] == rows;
    } else {
      BumpKeys(rows[1..], y);
      ConsKeys(rows[0], rows[1..]);
      ConsKeys(rows[0], Bump(rows[1..], y));
      assert [rows[0]] + rows[1..] == rows;
    }
  }

  /** The keys of a map with one entry put in front. */
  lemma ConsKeys(r: Row, rows: seq<Row>)
    ensures Keys([r] + rows) == {r.y} + Keys(rows)
  {
    var b := [r] + rows;
    forall z | z in Keys(b) ensures z == r.y || z in Keys(rows) {
      var i :| 0 <= i < |b| && b[i].y == z;
      if i > 0 { assert rows[i - 1].y == z; }
    }
    forall z | z in Keys(rows) ensures z in Keys(b) {
      var i :| 0 <= i < |rows| && rows[i].y == z;
      assert b[i + 1].y == z;
    }
    assert b[0].y == r.y;
  }

  lemma {:induction false} BumpWellFormed(rows: seq<Row>, y: int)
    requires WellFormed(rows)
    ensures WellFormed(Bump(rows, y))
    decreases |rows|
  {
    if rows != [] && y > rows[0].y {
      var tail := rows[1..];
      BumpWellFormed(tail, y);
      BumpAbove(tail, y, rows[0].y);
    }
  }

  /** Bumping a key above a lower bound of every key keeps every key above it. */
  lemma {:induction false} BumpAbove(rows: seq<Row>, y: int, lo: int)
    requires lo < y && forall i :: 0 <= i < |rows| ==> lo < rows[i].y
    ensures forall i :: 0 <= i < |Bump(rows, y)| ==> lo < Bump(rows, y)[i].y
    decreases |rows|
  {
    if rows != [] && y > rows[0].y {
      BumpAbove(rows[1..], y, lo);
    }
  }

  lemma {:induction false} BumpCounts(rows: seq<Row>, y: int)
    requires WellFormed(rows)
    ensures forall z :: CountAt(Bump(rows, y), z) == CountAt(rows, z) + (if z == y then 1 else 0)
    decreases |rows|
  {
    if rows == [] {
    } else if y < rows[0].y {
      forall z ensures CountAt(Bump(rows, y), z) == CountAt(rows, z) + (if z == y then 1 else 0) {
        if z == y {
          assert y !in Keys(rows) by {
            forall i | 0 <= i < |rows| ensures rows[i].y != y {
              if i > 0 { assert rows[0].y < rows[i].y; }
            }
          }
          NotAKeyCountsZero(rows, y);
        }
      }
    } else if y == rows[0].y {
      forall z ensures CountAt(Bump(rows, y), z) == CountAt(rows, z) + (if z == y then 1 else 0) {
      }
    } else {
      BumpCounts(rows[1..], y);
    }
  }

  lemma {:induction false} NotAKeyCountsZero(rows: seq<Row>, y: int)
    requires y !in Keys(rows)
    ensures CountAt(rows, y) == 0
    decreases |rows|
  {
    if rows != [] {
      assert rows[0].y in Keys(rows);
      assert Keys(rows[1..]) <= Keys(rows);
      NotAKeyCountsZero(rows[1..], y);
    }
  }

  /** The row map built from a list of elements, one Bump per element in list order. */
  function RowTable(elems: seq<Element>): seq<Row>
    decreases |elems|
  {
    if elems == [] then []
    else Bump(RowTable(elems[..|elems| - 1]), elems[|elems| - 1].rect.y)
  }

  /**
    The counting loop of validateGridAlignment: one putIfAbsent-and-increment
    per element. The map it builds has one entry per distinct top coordinate,
    in ascending order, holding the number of elements that start there.
   */
  method CountRows(elems: seq<Element>) returns (table: seq<Row>)
    ensures table == RowTable(elems)
    ensures WellFormed(table) && Keys(table) == TopCoordinates(elems)
    ensures forall y :: CountAt(table, y) == Occurrences(elems, y)
  {
    table := [];
    for i := 0 to |elems|
      invariant table == RowTable(elems[..i])
    {
      RowTableSnoc(elems[..i], elems[i]);
      assert elems[..i + 1] == elems[..i] + [elems[i]];
      table := Bump(table, elems[i].rect.y);
    }
    assert elems[..|elems|] == elems;
    RowTableSpec(elems);
  }

  /** How many elements of the list have top coordinate y. */
  function Occurrences(elems: seq<Element>, y: int): nat
    decreases |elems|
  {
    if elems == [] then 0
    else Occurrences(elems[..|elems| - 1], y) + (if elems[|elems| - 1].rect.y == y then 1 else 0)
  }

  /** The distinct top coordinates of the elements. */
  function TopCoordinates(elems: seq<Element>): set<int>
  {
    set i | 0 <= i < |elems| :: elems[i].rect.y
  }

  /**
    The row map has one key per distinct top coordinate, in ascending order,
    and counts under each key the elements that start there.
   */
  lemma {:induction false} RowTableSpec(elems: seq<Element>)
    ensures WellFormed(RowTable(elems))
    ensures Keys(RowTable(elems)) == TopCoordinates(elems)
    ensures forall y :: CountAt(RowTable(elems), y) == Occurrences(elems, y)
    decreases |elems|
  {
    if elems != [] {
      var init := elems[..|elems| - 1];
      RowTableSpec(init);
      BumpSpec(RowTable(init), elems[|elems| - 1].rect.y);
      assert forall i :: 0 <= i < |init| ==> init[i] == elems[i];
      assert TopCoordinates(elems) == TopCoordinates(init) + {elems[|elems| - 1].rect.y};
    }
  }

  /** A well-formed map has as many entries as keys. */
  lemma {:induction false} EntriesAreKeys(rows: seq<Row>)
    requires WellFormed(rows)
    ensures |Keys(rows)| == |rows|
    decreases |rows|
  {
    if rows != [] {
      var tail := rows[1..];
      EntriesAreKeys(tail);
      assert Keys(rows) == {rows[0].y} + Keys(tail);
      assert rows[0].y !in Keys(tail);
    }
  }

  /** The number of rows the clusterer finds is the number of distinct top coordinates. */
  lemma RowCountIsDistinctTops(elems: seq<Element>)
    ensures |RowTable(elems)| == |TopCoordinates(elems)|
  {
    RowTableSpec(elems);
    EntriesAreKeys(RowTable(elems));
  }

  /** The record of a row whose size is wrong. */
  function ColumnError(rowNo: int, columns: int, actual: int): Error
  {
    Error(WrongColumnCount(rowNo, columns, actual), None)
  }

  /**
    The column loop over the remaining rows: `mismatches` wrong rows seen so
    far, `rowNo` the 1-based number of the first remaining row. A wrong row
    is reported only once the mismatch counter exceeds 1.
   */
  function ColumnScan(rows: seq<Row>, columns: int, mismatches: nat, rowNo: int): (r: seq<Error>)
    // at most one wrong-column record per row, none of them on an element
    ensures |r| <= |rows|
    ensures forall k :: 0 <= k < |r| ==> r[k].kind.WrongColumnCount? && r[k].at == None
    decreases |rows|
  {
    if rows == [] then []
    else if rows[0].count != columns then
      (if mismatches + 1 > 1 then [ColumnError(rowNo, columns, rows[0].count)] else [])
      + ColumnScan(rows[1..], columns, mismatches + 1, rowNo + 1)
    else ColumnScan(rows[1..], columns, mismatches, rowNo + 1)
  }

  /** The number of rows whose size is not `columns`. */
  function Mismatches(rows: seq<Row>, columns: int): nat
    decreases |rows|
  {
    if rows == [] then 0
    else (if rows[0].count != columns then 1 else 0) + Mismatches(rows[1..], columns)
  }

  /**
    Once one wrong row has been seen, every later wrong row is reported,
    exactly once each, with its row number and its size.
   */
  lemma {:induction false} ColumnScanAfterFirst(rows: seq<Row>, columns: int, mismatches: nat, rowNo: int)
    requires mismatches >= 1
    ensures |ColumnScan(rows, columns, mismatches, rowNo)| == Mismatches(rows, columns)
    ensures forall err :: err in ColumnScan(rows, columns, mismatches, rowNo) <==>
              exists k :: 0 <= k < |rows| && rows[k].count != columns && err == ColumnError(rowNo + k, columns, rows[k].count)
  {
    ColumnScanLength(rows, columns, mismatches, rowNo);
    ColumnScanOnlyWrongRows(rows, columns, mismatches, rowNo);
    ColumnScanEveryWrongRow(rows, columns, mismatches, rowNo);
  }

  lemma {:induction false} ColumnScanLength(rows: seq<Row>, columns: int, mismatches: nat, rowNo: int)
    requires mismatches >= 1
    ensures |ColumnScan(rows, columns, mismatches, rowNo)| == Mismatches(rows, columns)
    decreases |rows|
  {
    if rows != [] {
      var m' := if rows[0].count != columns then mismatches + 1 else mismatches;
      ColumnScanLength(rows[1..], columns, m', rowNo + 1);
    }
  }

  lemma {:induction false} ColumnScanOnlyWrongRows(rows: seq<Row>, columns: int, mismatches: nat, rowNo: int)
    ensures forall err :: err in ColumnScan(rows, columns, mismatches, rowNo) ==>
              exists k :: 0 <= k < |rows| && rows[k].count != columns && err == ColumnError(rowNo + k, columns, rows[k].count)
    decreases |rows|
  {
    if rows != [] {
      var tail := rows[1..];
      var m' := if rows[0].count != columns then mismatches + 1 else mismatches;
      ColumnScanOnlyWrongRows(tail, columns, m', rowNo + 1);
      var rest := ColumnScan(tail, columns, m', rowNo + 1);
      forall err | err in ColumnScan(rows, columns, mismatches, rowNo)
        ensures exists k :: 0 <= k < |rows| && rows[k].count != columns && err == ColumnError(rowNo + k, columns, rows[k].count)
      {
        if err in rest {
          var k :| 0 <= k < |tail| && tail[k].count != columns && err == ColumnError(rowNo + 1 + k, columns, tail[k].count);
          assert rows[k + 1] == tail[k];
        } else {
          assert rows[0].count != columns && err == ColumnError(rowNo + 0, columns, rows[0].count);
        }
      }
    }
  }

  lemma {:induction false} ColumnScanEveryWrongRow(rows: seq<Row>, columns: int, mismatches: nat, rowNo: int)
    requires mismatches >= 1
    ensures forall k :: 0 <= k < |rows| && rows[k].count != columns ==>
              ColumnError(rowNo + k, columns, rows[k].count) in ColumnScan(rows, columns, mismatches, rowNo)
    decreases |rows|
  {
    if rows != [] {
      var tail := rows[1..];
      var m' := if rows[0].count != columns then mismatches + 1 else mismatches;
      ColumnScanEveryWrongRow(tail, columns, m', rowNo + 1);
      var rest := ColumnScan(tail, columns, m', rowNo + 1);
      var head := if rows[0].count != columns then [ColumnError(rowNo, columns, rows[0].count)] else [];
      assert ColumnScan(rows, columns, mismatches, rowNo) == head + rest;
      forall k | 0 < k < |rows| && rows[k].count != columns
        ensures ColumnError(rowNo + k, columns, rows[k].count) in head + rest
      {
        assert tail[k - 1] == rows[k];
        assert ColumnError(rowNo + 1 + (k - 1), columns, tail[k - 1].count) in rest;
      }
    }
  }

  /**
    The first wrong row is tolerated: rows before it are right and add
    nothing, it adds nothing itself, and the scan goes on from the next row
    with the tolerance used up.
   */
  lemma {:induction false} FirstMismatchTolerated(rows: seq<Row>, columns: int, rowNo: int, k: nat)
    requires k < |rows| && rows[k].count != columns
    requires forall j :: 0 <= j < k ==> rows[j].count == columns
    ensures ColumnScan(rows, columns, 0, rowNo) == ColumnScan(rows[k + 1..], columns, 1, rowNo + k + 1)
    decreases k
  {
    if k > 0 {
      FirstMismatchTolerated(rows[1..], columns, rowNo + 1, k - 1);
      assert rows[1..][k..] == rows[k + 1..];
    }
  }

  /** With the tolerance unused, the scan reports one wrong row fewer than there are. */
  lemma {:induction false} ColumnScanCount(rows: seq<Row>, columns: int, rowNo: int)
    ensures |ColumnScan(rows, columns, 0, rowNo)| == if Mismatches(rows, columns) == 0 then 0 else Mismatches(rows, columns) - 1
    decreases |rows|
  {
    if rows != [] {
      if rows[0].count != columns {
        ColumnScanAfterFirst(rows[1..], columns, 1, rowNo + 1);
      } else {
        ColumnScanCount(rows[1..], columns, rowNo + 1);
      }
    }
  }

  /**
    validateGridAlignment(columns, rows): nothing without a member list;
    otherwise a row-count error when rows > 0 and the number of rows differs,
    then the column scan in ascending y when columns > 0.
   */
  function GridErrors(rootElements: Option<seq<Element>>, columns: int, rows: int): (r: seq<Error>)
    // nothing is checked without a member list; every record is a row or column count, on no element
    ensures rootElements.None? ==> r == []
    ensures forall k :: 0 <= k < |r| ==> (r[k].kind.WrongRowCount? || r[k].kind.WrongColumnCount?) && r[k].at == None
  {
    match rootElements
    case None => []
    case Some(elems) => TableErrors(RowTable(elems), columns, rows)
  }

  /** The checks of the grid rule once the row map is built. */
  function TableErrors(table: seq<Row>, columns: int, rows: int): seq<Error>
  {
    (if rows > 0 && |table| != rows then [Error(WrongRowCount(rows, |table|), None)] else [])
    + (if columns > 0 then ColumnScan(table, columns, 0, 1) else [])
  }

  /**
    The grid rule appends one row-count error exactly when rows > 0 and the
    number of distinct top coordinates is not rows, first; then, when
    columns > 0, one error for every wrong row but the first.
   */
  lemma GridErrorsShape(elems: seq<Element>, columns: int, rows: int)
    ensures var errs := GridErrors(Some(elems), columns, rows);
            var rowError := rows > 0 && |TopCoordinates(elems)| != rows;
            var wrong := Mismatches(RowTable(elems), columns);
            && |errs| == (if rowError then 1 else 0) + (if columns > 0 && wrong > 0 then wrong - 1 else 0)
            && (rowError ==> errs[0] == Error(WrongRowCount(rows, |TopCoordinates(elems)|), None))
            && (forall k :: (if rowError then 1 else 0) <= k < |errs| ==> errs[k].kind.WrongColumnCount?)
  {
    RowCountIsDistinctTops(elems);
    var table := RowTable(elems);
    if columns > 0 {
      ColumnScanCount(table, columns, 1);
    }
  }

  /** Appending one element bumps its top coordinate in the map of the others. */
  lemma RowTableSnoc(elems: seq<Element>, e: Element)
    ensures RowTable(elems + [e]) == Bump(RowTable(elems), e.rect.y)
  {
    assert (elems + [e])[..|elems|] == elems;
  }

  /** A 10x10 element at (x, y), for the examples below. */
  function At(id: int, x: int, y: int): Element
  {
    Element(id, Rectangles.Rect(x, y, 10, 10))
  }

  /** Six elements in two rows of three, with rows = 2 and columns = 3, pass. */
  lemma RegularGridPasses()
    ensures GridErrors(Some([At(0, 0, 0), At(1, 20, 0), At(2, 40, 0), At(3, 0, 100), At(4, 20, 100), At(5, 40, 100)]), 3, 2) == []
  {
    RegularGridTable();
  }

  lemma RegularGridTable()
    ensures RowTable([At(0, 0, 0), At(1, 20, 0), At(2, 40, 0), At(3, 0, 100), At(4, 20, 100), At(5, 40, 100)]) == [Row(0, 3), Row(100, 3)]
  {
    var e := [At(0, 0, 0), At(1, 20, 0), At(2, 40, 0), At(3, 0, 100), At(4, 20, 100), At(5, 40, 100)];
    RowTableSnoc([], e[0]);
    assert RowTable(e[..1]) == [Row(0, 1)] by { assert e[..1] == [] + [e[0]]; }
    RowTableSnoc(e[..1], e[1]);
    assert RowTable(e[..2]) == [Row(0, 2)] by { assert e[..2] == e[..1] + [e[1]]; }
    RowTableSnoc(e[..2], e[2]);
    assert RowTable(e[..3]) == [Row(0, 3)] by { assert e[..3] == e[..2] + [e[2]]; }
    RowTableSnoc(e[..3], e[3]);
    assert RowTable(e[..4]) == [Row(0, 3), Row(100, 1)] by { assert e[..4] == e[..3] + [e[3]]; }
    RowTableSnoc(e[..4], e[4]);
    assert RowTable(e[..5]) == [Row(0, 3), Row(100, 2)] by { assert e[..5] == e[..4] + [e[4]]; }
    RowTableSnoc(e[..5], e[5]);
    assert e == e[..5] + [e[5]];
  }

  /** Tops 0, 0, 100, 100, 200 with columns = 2: the short last row is the only wrong row and is tolerated. */
  lemma ShortLastRowTolerated()
    ensures GridErrors(Some([At(0, 0, 0), At(1, 20, 0), At(2, 0, 100), At(3, 20, 100), At(4, 0, 200)]), 2, 0) == []
  {
    ShortLastRowTable();
    assert ColumnScan([Row(200, 1)], 2, 0, 3) == [];
  }

  lemma ShortLastRowTable()
    ensures RowTable([At(0, 0, 0), At(1, 20, 0), At(2, 0, 100), At(3, 20, 100), At(4, 0, 200)]) == [Row(0, 2), Row(100, 2), Row(200, 1)]
  {
    var e := [At(0, 0, 0), At(1, 20, 0), At(2, 0, 100), At(3, 20, 100), At(4, 0, 200)];
    RowTableSnoc([], e[0]);
    assert RowTable(e[..1]) == [Row(0, 1)] by { assert e[..1] == [] + [e[0]]; }
    RowTableSnoc(e[..1], e[1]);
    assert RowTable(e[..2]) == [Row(0, 2)] by { assert e[..2] == e[..1] + [e[1]]; }
    RowTableSnoc(e[..2], e[2]);
    assert RowTable(e[..3]) == [Row(0, 2), Row(100, 1)] by { assert e[..3] == e[..2] + [e[2]]; }
    RowTableSnoc(e[..3], e[3]);
    assert RowTable(e[..4]) == [Row(0, 2), Row(100, 2)] by { assert e[..4] == e[..3] + [e[3]]; }
    RowTableSnoc(e[..4], e[4]);
    assert e == e[..4] + [e[4]];
    assert Bump([Row(100, 2)], 200) == [Row(100, 2), Row(200, 1)];
  }

  /** Tops 0, 100, 100, 200 with columns = 2: rows 1 and 3 are wrong; only row 3 is reported. */
  lemma SecondWrongRowReported()
    ensures GridErrors(Some([At(0, 0, 0), At(1, 0, 100), At(2, 20, 100), At(3, 0, 200)]), 2, 0) == [ColumnError(3, 2, 1)]
  {
    SecondWrongRowTable();
    assert ColumnScan([Row(200, 1)], 2, 1, 3) == [ColumnError(3, 2, 1)];
    assert ColumnScan([Row(100, 2), Row(200, 1)], 2, 1, 2) == [ColumnError(3, 2, 1)];
  }

  lemma SecondWrongRowTable()
    ensures RowTable([At(0, 0, 0), At(1, 0, 100), At(2, 20, 100), At(3, 0, 200)]) == [Row(0, 1), Row(100, 2), Row(200, 1)]
  {
    var e := [At(0, 0, 0), At(1, 0, 100), At(2, 20, 100), At(3, 0, 200)];
    RowTableSnoc([], e[0]);
    assert RowTable(e[..1]) == [Row(0, 1)] by { assert e[..1] == [] + [e[0]]; }
    RowTableSnoc(e[..1], e[1]);
    assert RowTable(e[..2]) == [Row(0, 1), Row(100, 1)] by { assert e[..2] == e[..1] + [e[1]]; }
    RowTableSnoc(e[..2], e[2]);
    assert RowTable(e[..3]) == [Row(0, 1), Row(100, 2)] by { assert e[..3] == e[..2] + [e[2]]; }
    RowTableSnoc(e[..3], e[3]);
    assert e == e[..3] + [e[3]];
    assert Bump([Row(100, 2)], 200) == [Row(100, 2), Row(200, 1)];
  }
}
