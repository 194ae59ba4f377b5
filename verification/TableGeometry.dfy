/** The shape of a rendered table. */
module TableGeometry {
  import opened ColumnWidths
  import opened Outcomes
  import opened TableText
  import opened AsciiTable
  import T = Text

  predicate OneLineNames(heads: seq<Header>) {
    forall k :: 0 <= k < |heads| ==> T.OneLine(heads[k].name)
  }

  function RowLines(heads: seq<Header>, rows: seq<Row>): seq<string>
    requires NonNegative(heads)
  {
    seq(|rows|, i requires 0 <= i < |rows| => RowText(true, heads, rows[i]) + "|")
  }

  function TableLines(heads: seq<Header>, rows: seq<Row>): seq<string>
    requires NonNegative(heads)
  {
    [HeaderText(heads) + "|", SeparatorText(heads) + "|"] + RowLines(heads, rows)
  }

  lemma {:induction false} RowsAreLines(heads: seq<Header>, rows: seq<Row>)
    requires NonNegative(heads)
    ensures RowsText(true, heads, rows) == T.Unlines(RowLines(heads, rows))
  {
    if rows == [] {
      assert RowLines(heads, rows) == [];
    } else {
      hide RowText, RowLines, T.Unlines;
      var n := |rows| - 1;
      RowsAreLines(heads, rows[..n]);
      var line := RowText(true, heads, rows[n]) + "|";
      RowLinesStep(heads, rows);
      T.UnlinesAppend(RowLines(heads, rows[..n]), [line]);
      T.OneUnline(line);
      Ends(RowsText(true, heads, rows[..n]), RowText(true, heads, rows[n]));
    }
  }

  lemma RowLinesStep(heads: seq<Header>, rows: seq<Row>)
    requires NonNegative(heads) && rows != []
    ensures var n := |rows| - 1;
      RowLines(heads, rows) == RowLines(heads, rows[..n]) + [RowText(true, heads, rows[n]) + "|"]
  {
    hide RowText;
  }

  lemma Ends(a: string, b: string)
    ensures a + b + "|\n" == a + ((b + "|") + "\n")
  {
  }

  lemma TableIsUnlines(heads: seq<Header>, rows: seq<Row>)
    requires NonNegative(heads)
    ensures TableString(true, heads, rows) == T.Unlines(TableLines(heads, rows))
  {
    RowsAreLines(heads, rows);
    var first, second := HeaderText(heads) + "|", SeparatorText(heads) + "|";
    T.OneUnline(first);
    T.OneUnline(second);
    T.UnlinesAppend([first], [second]);
    T.UnlinesAppend([first, second], RowLines(heads, rows));
    assert [first] + [second] == [first, second];
    Chop(HeaderText(heads));
    Chop(SeparatorText(heads));
  }

  lemma Chop(s: string)
    ensures s + "|\n" == (s + "|") + "\n"
  {
  }

  lemma {:induction false} HeaderIsOneLine(heads: seq<Header>)
    requires NonNegative(heads) && OneLineNames(heads)
    ensures T.OneLine(HeaderText(heads)) && T.OneLine(SeparatorText(heads))
  {
    if heads != [] {
      var n := |heads| - 1;
      HeaderIsOneLine(heads[..n]);
      BlanksAreFree(false, heads[n].size - |heads[n].name|);
      assert T.OneLine(heads[n].name);
    }
  }

  /** Whatever the cells hold, an escaped table has a line for the header, one for the separator and one for each row. */
  lemma OneLinePerRow(heads: seq<Header>, rows: seq<Row>)
    requires NonNegative(heads) && OneLineNames(heads)
    ensures T.Lines(TableString(true, heads, rows)) == TableLines(heads, rows) + [""]
  {
    hide HeaderText, SeparatorText, RowText, TableString, TableLines, T.Lines, T.Unlines, OneLineNames;
    var lines := TableLines(heads, rows);
    TableIsUnlines(heads, rows);
    TableLinesAreLines(heads, rows);
    T.LinesOfUnlines(lines, "");
    assert T.Unlines(lines) + "" == T.Unlines(lines);
    T.LinesOfOneLine("");
  }

  lemma TableLinesAreLines(heads: seq<Header>, rows: seq<Row>)
    requires NonNegative(heads) && OneLineNames(heads)
    ensures forall i :: 0 <= i < |TableLines(heads, rows)| ==> T.OneLine(TableLines(heads, rows)[i])
  {
    hide HeaderText, SeparatorText, RowText, OneLineNames, Free;
    HeaderIsOneLine(heads);
    var lines := TableLines(heads, rows);
    forall i | 0 <= i < |lines| ensures T.OneLine(lines[i]) {
      if i >= 2 {
        EscapedRowBars(heads, rows[i - 2]);
        assert lines[i] == RowText(true, heads, rows[i - 2]) + "|";
      }
    }
  }

  /** All lines have the width of the separator exactly when every name and every cell fits its column. */
  lemma RectangleIff(heads: seq<Header>, rows: seq<Row>)
    requires NonNegative(heads)
    ensures |TableLines(heads, rows)[1]| == Total(Sizes(heads)) + 1
    ensures (forall i :: 0 <= i < |TableLines(heads, rows)| ==> |TableLines(heads, rows)[i]| == Total(Sizes(heads)) + 1)
      <==> AllFit(heads, rows)
  {
    hide HeaderText, SeparatorText, RowText, NamesFit, CellsFit, Total, Sizes;
    var lines, width := TableLines(heads, rows), Total(Sizes(heads)) + 1;
    HeaderGeometry(heads);
    forall i | 0 <= i < |rows| ensures |lines[i + 2]| == width <==> CellsFit(true, heads, rows[i]) {
      RowGeometry(true, heads, rows[i]);
    }
    assert |lines[0]| == width <==> NamesFit(heads);
    if NamesFit(heads) && forall i :: 0 <= i < |rows| ==> CellsFit(true, heads, rows[i]) {
      forall i | 0 <= i < |lines| ensures |lines[i]| == width {
        if i >= 2 {
          assert CellsFit(true, heads, rows[i - 2]);
          assert |lines[i - 2 + 2]| == width;
        }
      }
    }
    if forall i :: 0 <= i < |lines| ==> |lines[i]| == width {
      assert NamesFit(heads);
      forall i | 0 <= i < |rows| ensures CellsFit(true, heads, rows[i]) {
        assert |lines[i + 2]| == width;
      }
    }
  }

  predicate ColumnFits(heads: seq<Header>, rows: seq<Row>, k: int)
    requires 0 <= k < |heads|
  {
    && |heads[k].name| <= heads[k].size
    && forall i :: 0 <= i < |rows| ==> |Cell(true, rows[i], heads[k].field)| <= heads[k].size
  }

  predicate AllFit(heads: seq<Header>, rows: seq<Row>) {
    NamesFit(heads) && forall i :: 0 <= i < |rows| ==> CellsFit(true, heads, rows[i])
  }

  lemma Transpose(heads: seq<Header>, rows: seq<Row>)
    ensures AllFit(heads, rows) <==> forall k :: 0 <= k < |heads| ==> ColumnFits(heads, rows, k)
  {
    if forall k :: 0 <= k < |heads| ==> ColumnFits(heads, rows, k) {
      forall k | 0 <= k < |heads| ensures |heads[k].name| <= heads[k].size {
        assert ColumnFits(heads, rows, k);
      }
      forall i, k | 0 <= i < |rows| && 0 <= k < |heads|
        ensures |Cell(true, rows[i], heads[k].field)| <= heads[k].size
      {
        assert ColumnFits(heads, rows, k);
      }
    }
  }

  /** Everything fits exactly when no column is below its natural size. */
  lemma FitsIffNatural(heads: seq<Header>, sizes: seq<int>, rows: seq<Row>)
    requires |heads| == |sizes|
    ensures AllFit(WithSizes(heads, sizes), rows) <==>
      forall k :: 0 <= k < |heads| ==> NaturalSize(true, rows, heads[k]) <= sizes[k]
  {
    var final := WithSizes(heads, sizes);
    forall k | 0 <= k < |heads|
      ensures NaturalSize(true, rows, heads[k]) <= sizes[k] <==> ColumnFits(final, rows, k)
    {
      NaturalIsLeast(true, rows, heads[k], sizes[k]);
    }
    Transpose(final, rows);
    if forall k :: 0 <= k < |heads| ==> NaturalSize(true, rows, heads[k]) <= sizes[k] {
      forall k | 0 <= k < |final| ensures ColumnFits(final, rows, k) {
        assert NaturalSize(true, rows, heads[k]) <= sizes[k];
      }
    }
    if AllFit(final, rows) {
      forall k | 0 <= k < |heads| ensures NaturalSize(true, rows, heads[k]) <= sizes[k] {
        assert ColumnFits(final, rows, k);
      }
    }
  }

  lemma NaturalIsNonNegative(escape: bool, heads: seq<Header>, rows: seq<Row>)
    ensures var sizes := NaturalSizes(escape, rows, heads);
      forall k :: 0 <= k < |sizes| ==> sizes[k] >= 0
  {
  }

  /** Narrow enough, or with a column above the average and the room that is left
      for such columns not further below zero than their number. */
  predicate CanBeSized(natural: seq<int>) {
    Total(natural) < MAX_LINE_LENGTH ||
    (natural != [] && CountWide(natural, Average(natural)) > 0
      && Room(natural) + CountWide(natural, Average(natural)) > 0)
  }

  /** No struct, or an attribute of one of the columns that is no string. */
  predicate BadRow(heads: seq<Header>, row: Row) {
    row.NotStruct? ||
    exists k :: 0 <= k < |heads| && heads[k].field in row.fields && row.fields[heads[k].field].Other?
  }

  /** For all headers and rows: an error exactly for a bad row, or for an alignment other than the four if the
      table has rows and its sizes can be found; a panic exactly if they cannot, and else a table. */
  lemma TableIff(escape: bool, heads: seq<Header>, rows: seq<Row>)
    ensures var out := Render(escape, heads, rows);
      var sized := CanBeSized(NaturalSizes(escape, rows, heads));
      var badRows := exists i :: 0 <= i < |rows| && BadRow(heads, rows[i]);
      var odd := exists k :: 0 <= k < |heads| && heads[k].alignment !in {"", "left", "right", "centered"};
      && (out.Rejected? <==> badRows || (sized && rows != [] && odd))
      && (out.Panic? <==> !badRows && !sized)
      && (out.Table? <==> !badRows && sized && (rows == [] || !odd))
  {
    hide TableString, Room;
    var natural := NaturalSizes(escape, rows, heads);
    NaturalIsNonNegative(escape, heads, rows);
    BadRowsIff(heads, rows);
    OddIff(heads);
    if Total(natural) >= MAX_LINE_LENGTH && natural != [] && CountWide(natural, Average(natural)) > 0 {
      ShrinkExact(natural);
    }
  }

  lemma BadRowsIff(heads: seq<Header>, rows: seq<Row>)
    ensures RowsOk(heads, rows) <==> !exists i :: 0 <= i < |rows| && BadRow(heads, rows[i])
  {
    forall i | 0 <= i < |rows| ensures RowOk(heads, rows[i]) <==> !BadRow(heads, rows[i]) {
      RowOkIff(heads, rows[i]);
    }
  }

  lemma RowOkIff(heads: seq<Header>, row: Row)
    ensures RowOk(heads, row) <==> !BadRow(heads, row)
  {
    if row.Struct? {
      assert forall k :: 0 <= k < |heads| ==>
        (RowValue(false, row, heads[k].field).Some? <==>
          !(heads[k].field in row.fields && row.fields[heads[k].field].Other?));
    }
  }

  lemma OddIff(heads: seq<Header>)
    ensures AlignmentsOk(heads) <==>
      !exists k :: 0 <= k < |heads| && heads[k].alignment !in {"", "left", "right", "centered"}
  {
  }

  /** A table that is not shrunk is a rectangle, whatever its alignments. */
  lemma UnshrunkRectangle(heads: seq<Header>, rows: seq<Row>)
    requires RowsOk(heads, rows) && AlignmentsOk(heads) && OneLineNames(heads)
    requires Total(NaturalSizes(true, rows, heads)) < MAX_LINE_LENGTH
    ensures Render(true, heads, rows).Table?
    ensures var lines := T.Lines(Render(true, heads, rows).text);
      && |lines| == |rows| + 3 && lines[|rows| + 2] == ""
      && forall i :: 0 <= i < |rows| + 2 ==> |lines[i]| == Total(NaturalSizes(true, rows, heads)) + 1
  {
    hide HeaderText, SeparatorText, RowText, Total, NaturalSize, TableString, T.Lines;
    var natural := NaturalSizes(true, rows, heads);
    NaturalIsNonNegative(true, heads, rows);
    var final := WithSizes(heads, natural);
    FitsIffNatural(heads, natural, rows);
    assert Sizes(final) == natural;
    assert forall k :: 0 <= k < |heads| ==> final[k].name == heads[k].name;
    RectangleIff(final, rows);
    OneLinePerRow(final, rows);
  }
}
