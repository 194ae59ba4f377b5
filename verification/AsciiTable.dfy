/** Tables in plain text: column sizes set in place in the header, then the lines. */
module AsciiTable {
  import opened ColumnWidths
  import opened Outcomes
  import opened TableText

  /** Failed and Rejected: an error for the caller. Panicked and Panic: a run-time error of the program. */
  datatype Status = Fine | Failed | Panicked
  datatype Outcome = Table(text: string) | Rejected | Panic

  predicate AlignmentsOk(heads: seq<Header>) {
    forall k :: 0 <= k < |heads| ==> Supported(heads[k].alignment)
  }

  predicate SomeNegative(sizes: seq<int>) {
    exists k :: 0 <= k < |sizes| && sizes[k] < 0
  }

  /** What a table has to be, by its natural column sizes. */
  function Render(escape: bool, heads: seq<Header>, rows: seq<Row>): Outcome {
    if !RowsOk(heads, rows) then Rejected
    else
      match FinalSizes(NaturalSizes(escape, rows, heads))
      case None => Panic
      case Some(sizes) =>
        if SomeNegative(sizes) || |sizes| != |heads| then Panic
        else if rows != [] && !AlignmentsOk(heads) then Rejected
        else Table(TableString(escape, WithSizes(heads, sizes), rows))
  }

  // ---------------------------------------------------------------------------------------------
  // Column sizes.

  twostate predicate OnlySizesChange(header: array<Header>)
    reads header
  {
    forall k :: 0 <= k < header.Length ==> header[k] == old(header[k]).(size := header[k].size)
  }

  method NameSizes(header: array<Header>)
    modifies header
    ensures OnlySizesChange(header)
    ensures Sizes(header[..]) == NaturalSizes(false, [], old(header[..]))
  {
    for i := 0 to header.Length
      invariant OnlySizesChange(header)
      invariant forall k :: 0 <= k < i ==> header[k].size == |header[k].name|
    {
      header[i] := header[i].(size := |header[i].name|);
    }
  }

  /** One row widens the columns; an attribute that is not a string is an error. */
  method WidenByRow(header: array<Header>, row: Row, escape: bool) returns (ok: bool)
    modifies header
    ensures OnlySizesChange(header)
    ensures ok <==> RowOk(old(header[..]), row)
    ensures ok ==> forall k :: 0 <= k < header.Length ==>
      header[k].size == Max(old(header[k].size), |Cell(escape, row, header[k].field)|)
  {
    if !row.Struct? {
      return false;
    }
    for i := 0 to header.Length
      invariant OnlySizesChange(header)
      invariant forall k :: 0 <= k < i ==> RowValue(false, row, header[k].field).Some?
      invariant forall k :: 0 <= k < i ==>
        header[k].size == Max(old(header[k].size), |Cell(escape, row, header[k].field)|)
      invariant forall k :: i <= k < header.Length ==> header[k] == old(header[k])
    {
      var value := RowValue(escape, row, header[i].field);
      if value.None? {
        assert RowValue(false, row, old(header[..])[i].field).None?;
        return false;
      }
      if |value.value| > header[i].size {
        header[i] := header[i].(size := |value.value|);
      }
    }
    ok := true;
  }

  method NaturalHeader(header: array<Header>, rows: seq<Row>, escape: bool) returns (ok: bool)
    modifies header
    ensures OnlySizesChange(header)
    ensures ok <==> RowsOk(old(header[..]), rows)
    ensures ok ==> Sizes(header[..]) == NaturalSizes(escape, rows, old(header[..]))
  {
    NameSizes(header);
    ghost var heads := old(header[..]);
    assert forall k :: 0 <= k < header.Length ==> header[k].size == Sizes(header[..])[k];
    for i := 0 to |rows|
      invariant OnlySizesChange(header)
      invariant RowsOk(heads, rows[..i])
      invariant forall k :: 0 <= k < header.Length ==> header[k].size == NaturalSize(escape, rows[..i], heads[k])
    {
      RowOkBySizes(heads, header[..], rows[i]);
      ok := WidenByRow(header, rows[i], escape);
      assert rows[..i + 1][..i] == rows[..i];
      if !ok {
        assert !RowOk(heads, rows[i]);
        return;
      }
      RowsOkStep(heads, rows, i);
    }
    assert rows[..|rows|] == rows;
    ok := true;
  }

  lemma RowsOkStep(heads: seq<Header>, rows: seq<Row>, i: nat)
    requires i < |rows|
    ensures RowsOk(heads, rows[..i + 1]) <==> RowsOk(heads, rows[..i]) && RowOk(heads, rows[i])
  {
    var more := rows[..i + 1];
    assert more[i] == rows[i] && more[..i] == rows[..i];
    assert forall j :: 0 <= j < i ==> rows[..i][j] == more[j];
  }

  lemma RowOkBySizes(heads: seq<Header>, sized: seq<Header>, row: Row)
    requires |heads| == |sized|
    requires forall k :: 0 <= k < |heads| ==> sized[k] == heads[k].(size := sized[k].size)
    ensures RowOk(sized, row) <==> RowOk(heads, row)
  {
    assert forall k :: 0 <= k < |heads| ==> sized[k].field == heads[k].field;
  }

  method TotalSize(header: array<Header>) returns (total: int)
    ensures total == Total(Sizes(header[..]))
  {
    ghost var sizes := Sizes(header[..]);
    total := 0;
    for i := 0 to header.Length
      invariant total == Total(sizes[..i])
    {
      total := total + (header[i].size + 3);
      assert sizes[..i + 1][..i] == sizes[..i];
    }
    assert sizes[..header.Length] == sizes;
  }

  method WideColumns(header: array<Header>, avg: int) returns (wide: seq<int>, sum: int)
    ensures |wide| == CountWide(Sizes(header[..]), avg) && sum == SumWide(Sizes(header[..]), avg)
    ensures forall k :: k in wide <==> 0 <= k < header.Length && header[k].size > avg
  {
    ghost var sizes := Sizes(header[..]);
    wide, sum := [], 0;
    for i := 0 to header.Length
      invariant |wide| == CountWide(sizes[..i], avg) && sum == SumWide(sizes[..i], avg)
      invariant forall k :: k in wide <==> 0 <= k < i && header[k].size > avg
    {
      assert sizes[..i + 1][..i] == sizes[..i];
      if header[i].size > avg {
        wide, sum := wide + [i], sum + header[i].size;
      }
    }
    assert sizes[..header.Length] == sizes;
  }

  method ShrinkColumns(header: array<Header>, wide: seq<int>, large: int)
    requires forall k :: k in wide ==> 0 <= k < header.Length
    modifies header
    ensures OnlySizesChange(header)
    ensures forall k :: 0 <= k < header.Length ==>
      header[k].size == if k in wide then large else old(header[k].size)
  {
    for j := 0 to |wide|
      invariant OnlySizesChange(header)
      invariant forall k :: 0 <= k < header.Length ==>
        header[k].size == if k in wide[..j] then large else old(header[k].size)
    {
      var i := wide[j];
      assert i in wide;
      assert wide[..j + 1] == wide[..j] + [i];
      header[i] := header[i].(size := large);
    }
    assert wide[..|wide|] == wide;
  }

  /** Columns get their natural sizes, or those sizes with the wide ones shrunk into the line. */
  method CalculateHeaderSize(header: array<Header>, rows: seq<Row>, escape: bool) returns (status: Status)
    modifies header
    ensures OnlySizesChange(header)
    ensures status == Failed <==> !RowsOk(old(header[..]), rows)
    ensures status == Panicked <==>
      RowsOk(old(header[..]), rows) && FinalSizes(NaturalSizes(escape, rows, old(header[..]))).None?
    ensures status == Fine ==> FinalSizes(NaturalSizes(escape, rows, old(header[..]))) == Some(Sizes(header[..]))
  {
    var ok := NaturalHeader(header, rows, escape);
    if !ok {
      return Failed;
    }
    ghost var sizes := Sizes(header[..]);
    var total := TotalSize(header);
    if total < MAX_LINE_LENGTH {
      return Fine;
    }
    var avg := MAX_LINE_LENGTH / header.Length;
    var wide, sum := WideColumns(header, avg);
    if |wide| == 0 {
      return Panicked;
    }
    var large := Quot(MAX_LINE_LENGTH - (total - sum), |wide|);
    ShrinkColumns(header, wide, large);
    assert Sizes(header[..]) == Resized(sizes, avg, large);
    status := Fine;
  }

  // ---------------------------------------------------------------------------------------------
  // Lines.

  method HeaderLine(header: array<Header>) returns (line: string)
    requires NonNegative(header[..])
    ensures line == HeaderText(header[..])
  {
    line := "";
    for i := 0 to header.Length
      invariant line == HeaderText(header[..i])
    {
      line := line + "| " + PadRight(header[i].name, header[i].size) + " ";
      assert header[..i + 1][..i] == header[..i];
    }
    assert header[..header.Length] == header[..];
  }

  method SeparatorLine(header: array<Header>) returns (line: string)
    requires NonNegative(header[..])
    ensures line == SeparatorText(header[..])
  {
    line := "";
    for i := 0 to header.Length
      invariant line == SeparatorText(header[..i])
    {
      var edge := Edge(header[i].alignment);
      line := line + "|" + edge + Dashes(header[i].size) + edge;
      assert header[..i + 1][..i] == header[..i];
    }
    assert header[..header.Length] == header[..];
  }

  method RowLine(header: array<Header>, row: Row, escape: bool) returns (ok: bool, line: string)
    requires NonNegative(header[..])
    ensures ok <==> AlignmentsOk(header[..])
    ensures ok ==> line == RowText(escape, header[..], row)
  {
    line := "";
    for i := 0 to header.Length
      invariant line == RowText(escape, header[..i], row)
      invariant AlignmentsOk(header[..i])
    {
      var head := header[i];
      if !Supported(head.alignment) {
        assert header[..][i] == head;
        return false, line;
      }
      line := line + Aligned(head.alignment, head.size, Cell(escape, row, head.field));
      assert header[..i + 1][..i] == header[..i];
    }
    assert header[..header.Length] == header[..];
    ok := true;
  }

  method DataLines(header: array<Header>, rows: seq<Row>, escape: bool) returns (ok: bool, text: string)
    requires NonNegative(header[..])
    ensures ok <==> rows == [] || AlignmentsOk(header[..])
    ensures ok ==> text == RowsText(escape, header[..], rows)
  {
    text := "";
    for i := 0 to |rows|
      invariant text == RowsText(escape, header[..], rows[..i])
      invariant i > 0 ==> AlignmentsOk(header[..])
    {
      var fine, line := RowLine(header, rows[i], escape);
      if !fine {
        return false, text;
      }
      text := text + line + "|\n";
      assert rows[..i + 1][..i] == rows[..i];
    }
    assert rows[..|rows|] == rows;
    ok := true;
  }

  method AnyNegative(header: array<Header>) returns (found: bool)
    ensures found <==> SomeNegative(Sizes(header[..]))
    ensures !found ==> NonNegative(header[..])
  {
    ghost var sizes := Sizes(header[..]);
    for i := 0 to header.Length
      invariant forall k :: 0 <= k < i ==> header[k].size >= 0
    {
      if header[i].size < 0 {
        assert sizes[i] < 0;
        return true;
      }
    }
    found := false;
  }

  method ASCIITable(header: array<Header>, rows: seq<Row>, escape: bool) returns (out: Outcome)
    modifies header
    ensures OnlySizesChange(header)
    ensures out == Render(escape, old(header[..]), rows)
    ensures out.Table? ==> FinalSizes(NaturalSizes(escape, rows, old(header[..]))) == Some(Sizes(header[..]))
  {
    hide FinalSizes, NaturalSizes, HeaderText, SeparatorText, RowsText;
    ghost var heads := header[..];
    var status := CalculateHeaderSize(header, rows, escape);
    if status == Failed {
      return Rejected;
    }
    if status == Panicked {
      return Panic;
    }
    assert header[..] == WithSizes(heads, Sizes(header[..]));
    AlignmentsBySizes(heads, header[..]);
    var negative := AnyNegative(header);
    if negative {
      return Panic;
    }
    var first := HeaderLine(header);
    var second := SeparatorLine(header);
    var ok, data := DataLines(header, rows, escape);
    if !ok {
      return Rejected;
    }
    out := Table(first + "|\n" + second + "|\n" + data);
  }

  lemma AlignmentsBySizes(heads: seq<Header>, sized: seq<Header>)
    requires |heads| == |sized|
    requires forall k :: 0 <= k < |heads| ==> sized[k] == heads[k].(size := sized[k].size)
    ensures AlignmentsOk(sized) <==> AlignmentsOk(heads)
  {
    assert forall k :: 0 <= k < |heads| ==> sized[k].alignment == heads[k].alignment;
  }
}
