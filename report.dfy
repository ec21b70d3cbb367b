/**
  operator<<(ostream&, TimeMatrix) of generate_csv.cpp: nothing for an empty
  matrix; otherwise a header line "Size" followed by ",structure/operation"
  for every cell of the first (smallest) bucket, then one line per bucket in
  ascending order with the bucket and ",nanoseconds" for every cell of that
  bucket. Both loops visit structures, and within a structure operations,
  in std::map order.
*/
module CsvReport {

  import opened Measurement
  import opened Options
  import Sorting
  import Lex
  import Decimal
  import Fields

  /** The buckets as the outer range-for visits them. */
  function BucketsInOrder(m: TimeMatrix): (r: seq<nat>)
    ensures |r| == |m|
    ensures forall b :: b in r <==> b in m
    ensures Sorting.StrictlyAscending(r, Sorting.NatLess)
  {
    Sorting.NatLessIsStrictTotal();
    Sorting.Ascending(m.Keys, Sorting.NatLess)
  }

  /** Structure or operation names as a std::map<std::string, _> visits them. */
  function Names(keys: set<string>): (r: seq<string>)
    ensures |r| == |keys|
    ensures forall k :: k in r <==> k in keys
    ensures Sorting.StrictlyAscending(r, Lex.Less)
  {
    Lex.StrictTotal();
    Sorting.Ascending(keys, Lex.Less)
  }

  /** The visiting order of (structure, operation) pairs: by structure, then by operation. */
  predicate PairLess(p: (string, string), q: (string, string)) {
    Lex.Less(p.0, q.0) || (p.0 == q.0 && Lex.Less(p.1, q.1))
  }

  /** The pairs of one structure, in operation order. */
  function Group(s: string, operations: seq<string>): seq<(string, string)> {
    seq(|operations|, i requires 0 <= i < |operations| => (s, operations[i]))
  }

  /** The nested loop over the given structures of a row and each one's operations. */
  function ColumnsOf(row: Row, structures: seq<string>): seq<(string, string)>
    requires forall s :: s in structures ==> s in row
  {
    if structures == [] then []
    else Group(structures[0], Names(row[structures[0]].Keys)) + ColumnsOf(row, structures[1..])
  }

  /** The (structure, operation) pairs of a bucket's row, in the order both loops visit them. */
  function Columns(row: Row): seq<(string, string)> {
    ColumnsOf(row, Names(row.Keys))
  }

  /** The accumulated times of the given structures' cells, in the same nested loop. */
  function ValuesOf(row: Row, structures: seq<string>): seq<nat>
    requires forall s :: s in structures ==> s in row
  {
    if structures == [] then []
    else
      var ops := row[structures[0]];
      GroupValues(ops, Names(ops.Keys)) + ValuesOf(row, structures[1..])
  }

  /** The times of one structure's operations, in operation order. */
  function GroupValues(ops: map<string, nat>, operations: seq<string>): seq<nat>
    requires forall o :: o in operations ==> o in ops
  {
    seq(|operations|, i requires 0 <= i < |operations| => ops[operations[i]])
  }

  /** The times printed on a bucket's line, in column order. */
  function Values(row: Row): seq<nat> {
    ValuesOf(row, Names(row.Keys))
  }

  /** ",structure/operation" per column. */
  function HeaderCells(columns: seq<(string, string)>): string {
    if columns == [] then ""
    else "," + columns[0].0 + "/" + columns[0].1 + HeaderCells(columns[1..])
  }

  /** ",n" per value. */
  function ValueCells(values: seq<nat>): string {
    if values == [] then ""
    else "," + Decimal.Text(values[0]) + ValueCells(values[1..])
  }

  /** The line of one bucket. */
  function RowLine(b: nat, row: Row): string {
    Decimal.Text(b) + ValueCells(Values(row)) + "\n"
  }

  /** The lines of the given buckets, one after another. */
  function RowLines(m: TimeMatrix, buckets: seq<nat>): string
    requires forall b :: b in buckets ==> b in m
  {
    if buckets == [] then ""
    else RowLine(buckets[0], m[buckets[0]]) + RowLines(m, buckets[1..])
  }

  /** The whole report; the text is empty exactly when the matrix is. */
  function Report(m: TimeMatrix): (text: string)
    ensures text == "" <==> |m| == 0
  {
    if |m| == 0 then ""
    else
      var buckets := BucketsInOrder(m);
      "Size" + HeaderCells(Columns(m[buckets[0]])) + "\n" + RowLines(m, buckets)
  }

  /**
    A non-empty report is the header taken from the smallest bucket, then
    the lines of all buckets, smallest first.
  */
  lemma HeaderFromSmallestBucket(m: TimeMatrix, smallest: nat)
    requires smallest in m
    requires forall b :: b in m ==> smallest <= b
    ensures BucketsInOrder(m)[0] == smallest
    ensures Report(m) == "Size" + HeaderCells(Columns(m[smallest])) + "\n" + RowLines(m, BucketsInOrder(m))
  {
  }

  lemma AscendingConcat<T>(a: seq<T>, b: seq<T>, less: (T, T) -> bool)
    requires Sorting.StrictlyAscending(a, less) && Sorting.StrictlyAscending(b, less)
    requires forall i, j :: 0 <= i < |a| && 0 <= j < |b| ==> less(a[i], b[j])
    ensures Sorting.StrictlyAscending(a + b, less)
  {
  }

  /** The pairs of one structure are that structure with each of the operations. */
  lemma GroupMembers(s: string, operations: seq<string>)
    ensures forall p: (string, string) :: p in Group(s, operations) <==> p.0 == s && p.1 in operations
  {
    assert forall i :: 0 <= i < |operations| ==> Group(s, operations)[i] == (s, operations[i]);
  }

  /** What the nested loop visits: exactly the cells of the given structures. */
  lemma {:induction false} ColumnsOfMembers(row: Row, structures: seq<string>)
    requires forall s :: s in structures ==> s in row
    ensures forall p :: p in ColumnsOf(row, structures) <==> p.0 in structures && p.1 in row[p.0]
    decreases |structures|
  {
    if structures != [] {
      var s := structures[0];
      ColumnsOfMembers(row, structures[1..]);
      GroupMembers(s, Names(row[s].Keys));
      assert forall x :: x in structures <==> x == s || x in structures[1..];
    }
  }

  /** ... and in pair order, when the structures are in name order. */
  lemma {:induction false} ColumnsOfAscending(row: Row, structures: seq<string>)
    requires forall s :: s in structures ==> s in row
    requires Sorting.StrictlyAscending(structures, Lex.Less)
    ensures Sorting.StrictlyAscending(ColumnsOf(row, structures), PairLess)
    decreases |structures|
  {
    if structures != [] {
      var s := structures[0];
      var rest := structures[1..];
      var group := Group(s, Names(row[s].Keys));
      var later := ColumnsOf(row, rest);
      ColumnsOfAscending(row, rest);
      ColumnsOfMembers(row, rest);
      forall i, j | 0 <= i < |group| && 0 <= j < |later| ensures PairLess(group[i], later[j]) {
        assert later[j] in later;
        var k :| 0 <= k < |rest| && rest[k] == later[j].0;
        assert structures[k + 1] == later[j].0;
      }
      assert Sorting.StrictlyAscending(group, PairLess);
      AscendingConcat(group, later, PairLess);
    }
  }

  /** The columns of a row are its cells, each once, in pair order. */
  lemma ColumnsAreCells(row: Row)
    ensures forall s, o :: (s, o) in Columns(row) <==> s in row && o in row[s]
    ensures Sorting.StrictlyAscending(Columns(row), PairLess)
  {
    ColumnsOfMembers(row, Names(row.Keys));
    ColumnsOfAscending(row, Names(row.Keys));
  }

  /** The i-th value printed for a row is the time in the row's own i-th column. */
  lemma {:induction false} ValuesOfMatchColumns(row: Row, structures: seq<string>)
    requires forall s :: s in structures ==> s in row
    ensures |ValuesOf(row, structures)| == |ColumnsOf(row, structures)|
    ensures forall i :: 0 <= i < |ValuesOf(row, structures)| ==>
              var p := ColumnsOf(row, structures)[i];
              p.0 in row && p.1 in row[p.0] && ValuesOf(row, structures)[i] == row[p.0][p.1]
    decreases |structures|
  {
    if structures != [] {
      ValuesOfMatchColumns(row, structures[1..]);
    }
  }

  lemma ValuesMatchColumns(row: Row)
    ensures |Values(row)| == |Columns(row)|
    ensures forall i :: 0 <= i < |Values(row)| ==>
              Columns(row)[i].0 in row && Columns(row)[i].1 in row[Columns(row)[i].0]
              && Values(row)[i] == row[Columns(row)[i].0][Columns(row)[i].1]
  {
    ValuesOfMatchColumns(row, Names(row.Keys));
  }

  /** Rows with the same cells as the header's bucket line up with it: value i is the time of header column i. */
  lemma RowsAlign(m: TimeMatrix, b: nat, first: nat)
    requires b in m && first in m
    requires m[b].Keys == m[first].Keys
    requires forall s :: s in m[b] ==> m[b][s].Keys == m[first][s].Keys
    ensures |Values(m[b])| == |Columns(m[first])|
    ensures forall i :: 0 <= i < |Values(m[b])| ==>
              Values(m[b])[i] == Cell(m, b, Columns(m[first])[i].0, Columns(m[first])[i].1)
  {
    ColumnsOfSameShape(m[b], m[first], Names(m[b].Keys));
    ValuesMatchColumns(m[b]);
  }

  /** The columns depend only on which cells exist, not on their times. */
  lemma {:induction false} ColumnsOfSameShape(r1: Row, r2: Row, structures: seq<string>)
    requires forall s :: s in structures ==> s in r1 && s in r2 && r1[s].Keys == r2[s].Keys
    ensures ColumnsOf(r1, structures) == ColumnsOf(r2, structures)
    decreases |structures|
  {
    if structures != [] {
      ColumnsOfSameShape(r1, r2, structures[1..]);
    }
  }

  // Reading a data line back

  /** The numbers of a run of fields that are all decimal text. */
  function Numbers(fields: seq<string>): Option<seq<nat>> {
    if fields == [] then Some([])
    else if fields[0] == [] || !Decimal.AllDigits(fields[0]) then None
    else
      match Numbers(fields[1..])
      case None => None
      case Some(rest) => Some([Decimal.Value(fields[0])] + rest)
  }

  /** A data line read back: its comma-separated numbers, before the final newline. */
  function ReadRow(line: string): Option<seq<nat>> {
    if line == [] || line[|line| - 1] != '\n' then None
    else Numbers(Fields.Split(line[..|line| - 1], ','))
  }

  /** The decimal texts of some numbers. */
  function Texts(values: seq<nat>): (r: seq<string>)
    ensures |r| == |values|
  {
    if values == [] then [] else [Decimal.Text(values[0])] + Texts(values[1..])
  }

  lemma {:induction false} NumbersOfTexts(values: seq<nat>)
    ensures Numbers(Texts(values)) == Some(values)
    decreases |values|
  {
    if values != [] {
      var fields := Texts(values);
      assert fields[0] == Decimal.Text(values[0]) && fields[1..] == Texts(values[1..]);
      assert fields[0] != [] && Decimal.AllDigits(fields[0]);
      NumbersOfTexts(values[1..]);
      Decimal.ValueOfText(values[0]);
      assert values == [values[0]] + values[1..];
    }
  }

  lemma {:induction false} SplitCells(first: nat, values: seq<nat>)
    ensures Fields.Split(Decimal.Text(first) + ValueCells(values), ',') == Texts([first] + values)
    decreases |values|
  {
    var head := Decimal.Text(first);
    assert ',' !in head by {
      assert forall i :: 0 <= i < |head| ==> Decimal.IsDigit(head[i]);
    }
    if values == [] {
      assert head + ValueCells(values) == head;
      Fields.SplitWithout(head, ',');
    } else {
      var rest := Decimal.Text(values[0]) + ValueCells(values[1..]);
      assert head + ValueCells(values) == head + [','] + rest;
      Fields.SplitFirstField(head, ',', rest);
      SplitCells(values[0], values[1..]);
      assert ([first] + values)[1..] == [values[0]] + values[1..];
    }
  }

  /** A bucket's line reads back as the bucket followed by the row's times in column order. */
  lemma RowReadsBack(b: nat, row: Row)
    ensures ReadRow(RowLine(b, row)) == Some([b] + Values(row))
  {
    var line := RowLine(b, row);
    assert line[..|line| - 1] == Decimal.Text(b) + ValueCells(Values(row));
    SplitCells(b, Values(row));
    NumbersOfTexts([b] + Values(row));
  }

  /**
    A 500-element sample measured growing and then shrinking: bucket 750 is
    reached only by the shrinking run, so its line lacks the growing
    operation's column that the header (from bucket 250) has, and its
    values no longer sit under their own headings.
  */
  lemma ShrinkOnlyBucketMisaligns(elapsed: seq<nat>)
    requires |elapsed| == 500
    ensures var grown := Tally(map[], "Vector", "Insert at the back", Grow, elapsed, 0, 500);
            var m := Tally(grown, "Vector", "Remove from the back", Shrink, elapsed, 0, 500);
            && 250 in m && 750 in m
            && ("Vector", "Insert at the back") in Columns(m[250])
            && ("Vector", "Insert at the back") !in Columns(m[750])
            && ("Vector", "Remove from the back") in Columns(m[750])
  {
    var s, grow, shrink := "Vector", "Insert at the back", "Remove from the back";
    var grown := Tally(map[], s, grow, Grow, elapsed, 0, 500);
    var m := Tally(grown, s, shrink, Shrink, elapsed, 0, 500);
    FiveHundredElements();
    GrowBuckets(500, 250);
    TallyBuckets(grown, s, shrink, Shrink, elapsed, 0, 500);
    TallyCells(map[], s, grow, Grow, elapsed, 0, 500, 250, s, grow);
    TallyCells(map[], s, grow, Grow, elapsed, 0, 500, 750, s, grow);
    TallyCells(grown, s, shrink, Shrink, elapsed, 0, 500, 250, s, grow);
    TallyCells(grown, s, shrink, Shrink, elapsed, 0, 500, 750, s, grow);
    TallyCells(grown, s, shrink, Shrink, elapsed, 0, 500, 750, s, shrink);
    assert grow != shrink by {
      assert grow[0] != shrink[0];
    }
    ColumnsAreCells(m[250]);
    ColumnsAreCells(m[750]);
  }

  /** An empty matrix prints nothing. */
  lemma EmptyMatrixPrintsNothing()
    ensures Report(map[]) == ""
  {
  }
}
