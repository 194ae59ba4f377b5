/** The table of gearman_top: four columns, never wider than a line, under a border of its own width. */
module GearmanTop {
  import opened ColumnWidths
  import opened Outcomes
  import opened TableText
  import opened AsciiTable
  import opened TableCells
  import opened TableGeometry
  import opened Decimal
  import T = Text

  newtype Int64 = n: int | -0x8000_0000_0000_0000 <= n < 0x8000_0000_0000_0000

  datatype Queue = Queue(name: string, availWorker: Int64, waiting: Int64, running: Int64)

  function Heads(): seq<Header> {
    [
      Header("Queue Name", "queueName", "", 0),
      Header("Worker Available", "workerAvailable", "right", 0),
      Header("Jobs Waiting", "jobsWaiting", "right", 0),
      Header("Jobs running", "jobsRunning", "right", 0)
    ]
  }

  function DataRow(queue: Queue): Row {
    Struct(map[
      "queueName" := Str(queue.name),
      "workerAvailable" := Str(Itoa(queue.availWorker as int)),
      "jobsWaiting" := Str(Itoa(queue.waiting as int)),
      "jobsRunning" := Str(Itoa(queue.running as int))
    ])
  }

  function DataRows(queues: seq<Queue>): seq<Row> {
    seq(|queues|, i requires 0 <= i < |queues| => DataRow(queues[i]))
  }

  function Natural(queues: seq<Queue>): seq<int> {
    NaturalSizes(true, DataRows(queues), Heads())
  }

  // ---------------------------------------------------------------------------------------------
  // Numbers are not changed by escaping, so the three number columns stay narrow.

  lemma {:induction false} PlainEscape(s: string)
    requires forall i :: 0 <= i < |s| ==> s[i] !in "\n|$*"
    ensures EscapeEach(s) == s
  {
    if s != "" {
      PlainEscape(s[1..]);
      assert s[0] !in "\n|$*";
      assert [s[0]] + s[1..] == s;
    }
  }

  lemma NumberEscape(n: Int64)
    ensures Escape(Itoa(n as int)) == Itoa(n as int)
    ensures |Itoa(n as int)| <= 20
  {
    EscapeIsOnePass(Itoa(n as int));
    PlainEscape(Itoa(n as int));
    Int64Width(n as int);
  }

  lemma RowCells(queue: Queue)
    ensures Cell(true, DataRow(queue), "queueName") == Escape(queue.name)
    ensures Cell(true, DataRow(queue), "workerAvailable") == Itoa(queue.availWorker as int)
    ensures Cell(true, DataRow(queue), "jobsWaiting") == Itoa(queue.waiting as int)
    ensures Cell(true, DataRow(queue), "jobsRunning") == Itoa(queue.running as int)
  {
    NumberEscape(queue.availWorker);
    NumberEscape(queue.waiting);
    NumberEscape(queue.running);
  }

  lemma NumberCells(queues: seq<Queue>, i: nat, k: nat)
    requires i < |queues| && 1 <= k < 4
    ensures |Cell(true, DataRows(queues)[i], Heads()[k].field)| <= 20
  {
    var queue := queues[i];
    RowCells(queue);
    NumberEscape(queue.availWorker);
    NumberEscape(queue.waiting);
    NumberEscape(queue.running);
    assert k == 1 || k == 2 || k == 3;
  }

  lemma NumberColumns(queues: seq<Queue>)
    ensures var sizes := Natural(queues);
      |sizes| == 4 && sizes[0] >= 10 && forall k :: 1 <= k < 4 ==> 12 <= sizes[k] <= 20
  {
    var rows := DataRows(queues);
    var sizes := Natural(queues);
    assert |sizes| == 4;
    forall k: nat | 1 <= k < 4 ensures 12 <= sizes[k] <= 20 {
      var head := Heads()[k];
      assert 12 <= |head.name| <= 16;
      forall i | 0 <= i < |rows| ensures |Cell(true, rows[i], head.field)| <= 20 {
        NumberCells(queues, i, k);
      }
      NaturalIsLeast(true, rows, head, 20);
      NaturalIsLeast(true, rows, head, sizes[k]);
    }
    NaturalIsLeast(true, rows, Heads()[0], sizes[0]);
  }

  lemma FourSums(sizes: seq<int>, avg: int)
    requires |sizes| == 4
    ensures Total(sizes) == sizes[0] + sizes[1] + sizes[2] + sizes[3] + 12
    ensures sizes[1] <= avg && sizes[2] <= avg && sizes[3] <= avg ==>
      CountWide(sizes, avg) == if sizes[0] > avg then 1 else 0
  {
    var s3, s2, s1 := sizes[..3], sizes[..2], sizes[..1];
    assert s3[..2] == s2 && s2[..1] == s1 && s1[..0] == [];
    assert Total(s1) == sizes[0] + 3;
    assert Total(s2) == Total(s1) + sizes[1] + 3;
    assert CountWide(s1, avg) == if sizes[0] > avg then 1 else 0;
    assert sizes[1] <= avg ==> CountWide(s2, avg) == CountWide(s1, avg);
  }

  /** For every list of queues: the sizes are defined; a table too wide shrinks its name column alone, to 120 exactly. */
  lemma TopSizes(queues: seq<Queue>)
    ensures var natural := Natural(queues);
      && FinalSizes(natural).Some?
      && var final := FinalSizes(natural).value;
      && |final| == 4 && final[1..] == natural[1..]
      && (forall k :: 0 <= k < 4 ==> final[k] >= 10)
      && Total(final) >= 0
      && Total(final) == if Total(natural) < MAX_LINE_LENGTH then Total(natural) else MAX_LINE_LENGTH
  {
    var natural := Natural(queues);
    NumberColumns(queues);
    FourSums(natural, 30);
    if Total(natural) >= MAX_LINE_LENGTH {
      assert natural[0] > 30 && Average(natural) == 30;
      ShrinkFits(natural);
      var final := FinalSizes(natural).value;
      FourSums(final, 30);
      forall k | 1 <= k < 4 ensures final[k] == natural[k] {
        assert natural[k] <= 30;
      }
      assert final[1..] == natural[1..];
    }
  }

  // ---------------------------------------------------------------------------------------------
  // The operations.

  method CreateTableHeaders() returns (header: array<Header>)
    ensures fresh(header) && header[..] == Heads()
  {
    header := new Header[4][
      Header("Queue Name", "queueName", "", 0),
      Header("Worker Available", "workerAvailable", "right", 0),
      Header("Jobs Waiting", "jobsWaiting", "right", 0),
      Header("Jobs running", "jobsRunning", "right", 0)
    ];
  }

  method CreateTableRows(queues: seq<Queue>) returns (rows: seq<Row>)
    ensures rows == DataRows(queues)
  {
    rows := [];
    for i := 0 to |queues|
      invariant rows == DataRows(queues)[..i]
    {
      rows := rows + [DataRow(queues[i])];
    }
  }

  method CalcTableSize(header: array<Header>) returns (size: int)
    ensures size == Total(Sizes(header[..]))
  {
    ghost var sizes := Sizes(header[..]);
    size := 0;
    for i := 0 to header.Length
      invariant size == Total(sizes[..i])
    {
      size := size + header[i].size;
      size := size + 3;
      assert sizes[..i + 1][..i] == sizes[..i];
    }
    assert sizes[..header.Length] == sizes;
  }

  function FinalWidths(queues: seq<Queue>): (sizes: seq<int>)
    ensures |sizes| == 4 && Total(sizes) >= 0 && forall k :: 0 <= k < 4 ==> sizes[k] >= 0
  {
    TopSizes(queues);
    FinalSizes(Natural(queues)).value
  }

  function SizedHeads(queues: seq<Queue>): (heads: seq<Header>)
    ensures NonNegative(heads) && Sizes(heads) == FinalWidths(queues)
  {
    var heads := WithSizes(Heads(), FinalWidths(queues));
    assert Sizes(heads) == FinalWidths(queues);
    heads
  }

  function Border(queues: seq<Queue>): string {
    Dashes(Total(FinalWidths(queues)) + 1)
  }

  /** The whole display, from the final sizes. */
  function Display(queues: seq<Queue>): string {
    Border(queues) + "\n" + TableString(true, SizedHeads(queues), DataRows(queues)) + Border(queues) + "\n\n"
  }

  lemma RowsAreOk(queues: seq<Queue>)
    ensures RowsOk(Heads(), DataRows(queues)) && AlignmentsOk(Heads())
  {
    forall i | 0 <= i < |queues| ensures RowOk(Heads(), DataRows(queues)[i]) {
      assert DataRows(queues)[i] == DataRow(queues[i]);
      forall k | 0 <= k < 4 ensures RowValue(false, DataRow(queues[i]), Heads()[k].field).Some? {
        assert k == 0 || k == 1 || k == 2 || k == 3;
      }
    }
  }

  /** The table of queues is never an error and never panics. */
  lemma TopAlwaysRenders(queues: seq<Queue>)
    ensures Render(true, Heads(), DataRows(queues)) ==
      Table(TableString(true, SizedHeads(queues), DataRows(queues)))
  {
    hide TableString, NaturalSizes, FinalSizes, Total;
    RowsAreOk(queues);
    TopSizes(queues);
  }

  method CreateTable(queues: seq<Queue>) returns (out: Outcome)
    ensures out == Table(Display(queues))
  {
    hide TableString, NaturalSizes, FinalSizes, Total, Render;
    var header := CreateTableHeaders();
    var rows := CreateTableRows(queues);
    out := ASCIITable(header, rows, true);
    TopAlwaysRenders(queues);
    TopSizes(queues);
    var size := CalcTableSize(header);
    assert size == Total(FinalWidths(queues));
    var border := Dashes(size + 1);
    out := Table(border + "\n" + out.text + border + "\n\n");
  }

  // ---------------------------------------------------------------------------------------------
  // What is on the screen.

  function ScreenLines(queues: seq<Queue>): seq<string> {
    [Border(queues)] + TableLines(SizedHeads(queues), DataRows(queues)) + [Border(queues)]
  }

  /** The display is the border, the table's lines and the border again, for every list of queues. */
  lemma DisplayIsLines(queues: seq<Queue>)
    ensures T.Lines(Display(queues)) == ScreenLines(queues) + ["", ""]
  {
    hide ScreenLines, Display, T.Lines, T.Unlines, T.OneLine;
    var lines := ScreenLines(queues) + [""];
    ScreenOneLine(queues);
    DisplayText(queues);
    T.LinesOfUnlines(lines, "");
    EmptyLine();
    assert T.Unlines(lines) + "" == T.Unlines(lines);
    assert lines + [""] == ScreenLines(queues) + ["", ""];
  }

  lemma DisplayText(queues: seq<Queue>)
    ensures T.Unlines(ScreenLines(queues) + [""]) == Display(queues)
  {
    hide TableString, TableLines, T.Unlines, Border, SizedHeads;
    TableIsUnlines(SizedHeads(queues), DataRows(queues));
    Framed(Border(queues), TableLines(SizedHeads(queues), DataRows(queues)));
  }

  lemma ScreenOneLine(queues: seq<Queue>)
    ensures forall i :: 0 <= i < |ScreenLines(queues) + [""]| ==> T.OneLine((ScreenLines(queues) + [""])[i])
  {
    hide TableLines, Border, SizedHeads, T.OneLine;
    TopNames(queues);
    TableLinesAreLines(SizedHeads(queues), DataRows(queues));
    BorderIsOneLine(queues);
    EmptyLine();
  }

  lemma TopNames(queues: seq<Queue>)
    ensures OneLineNames(SizedHeads(queues))
  {
    hide Heads, FinalWidths;
    NamesAreLines();
    SizesKeepNames(Heads(), FinalWidths(queues));
  }

  lemma NamesAreLines()
    ensures OneLineNames(Heads()) && |Heads()| == 4
  {
  }

  lemma SizesKeepNames(heads: seq<Header>, sizes: seq<int>)
    requires OneLineNames(heads) && |heads| == |sizes|
    ensures OneLineNames(WithSizes(heads, sizes))
  {
  }

  lemma Framed(border: string, table: seq<string>)
    ensures T.Unlines([border] + table + [border] + [""]) == border + "\n" + T.Unlines(table) + border + "\n\n"
  {
    hide T.Unlines;
    T.UnlinesAppend([border] + table + [border], [""]);
    T.UnlinesAppend([border] + table, [border]);
    T.UnlinesAppend([border], table);
    T.OneUnline(border);
    T.OneUnline("");
    var text := border + "\n" + T.Unlines(table);
    assert text + (border + "\n") + ("" + "\n") == text + border + "\n\n";
  }

  lemma EmptyLine()
    ensures T.Lines("") == [""] && T.OneLine("")
  {
  }

  lemma BorderIsOneLine(queues: seq<Queue>)
    ensures T.OneLine(Border(queues))
  {
    var border := Border(queues);
    assert forall i :: 0 <= i < |border| ==> border[i] == '-';
  }

  /** Never wider than a line allows; all lines as wide as the borders exactly when nothing had to shrink. */
  lemma ScreenGeometry(queues: seq<Queue>)
    ensures |Border(queues)| <= MAX_LINE_LENGTH + 1
    ensures (forall i :: 0 <= i < |ScreenLines(queues)| ==> |ScreenLines(queues)[i]| == |Border(queues)|) <==>
      Total(Natural(queues)) <= MAX_LINE_LENGTH
  {
    hide TableLines, AllFit, Total, Natural;
    var table := TableLines(SizedHeads(queues), DataRows(queues));
    TopSizes(queues);
    RectangleIff(SizedHeads(queues), DataRows(queues));
    AllFitIff(queues);
    FramedWidths(Border(queues), table);
    assert |Border(queues)| == Total(Sizes(SizedHeads(queues))) + 1;
    assert (forall i :: 0 <= i < |table| ==> |table[i]| == |Border(queues)|) <==> AllFit(SizedHeads(queues), DataRows(queues));
    assert ScreenLines(queues) == [Border(queues)] + table + [Border(queues)];
  }

  lemma AllFitIff(queues: seq<Queue>)
    ensures AllFit(SizedHeads(queues), DataRows(queues)) <==> Total(Natural(queues)) <= MAX_LINE_LENGTH
  {
    hide AllFit, Total, Natural, NaturalSize, FinalWidths;
    FitsIffNatural(Heads(), FinalWidths(queues), DataRows(queues));
    NothingShrunkIff(queues);
  }

  lemma FramedWidths(border: string, table: seq<string>)
    ensures var lines := [border] + table + [border];
      (forall i :: 0 <= i < |lines| ==> |lines[i]| == |border|) <==>
        (forall i :: 0 <= i < |table| ==> |table[i]| == |border|)
  {
    var lines := [border] + table + [border];
    if forall i :: 0 <= i < |lines| ==> |lines[i]| == |border| {
      forall i | 0 <= i < |table| ensures |table[i]| == |border| {
        assert table[i] == lines[i + 1];
      }
    }
  }

  lemma NothingShrunkIff(queues: seq<Queue>)
    ensures (forall k :: 0 <= k < 4 ==> NaturalSize(true, DataRows(queues), Heads()[k]) <= FinalWidths(queues)[k]) <==>
      Total(Natural(queues)) <= MAX_LINE_LENGTH
  {
    hide NaturalSize;
    var natural, final := Natural(queues), FinalWidths(queues);
    TopSizes(queues);
    FourSums(natural, 30);
    FourSums(final, 30);
    assert natural[0] == NaturalSize(true, DataRows(queues), Heads()[0]);
    forall k | 1 <= k < 4 ensures final[k] == natural[k] == NaturalSize(true, DataRows(queues), Heads()[k]) {
      assert final[1..][k - 1] == natural[1..][k - 1];
    }
    if Total(natural) < MAX_LINE_LENGTH {
      assert final == natural;
    }
  }

  // ---------------------------------------------------------------------------------------------
  // Which number stands under which name.

  /** In the k-th column the heading is `name`, and in the line of the i-th queue stands `value` under it. */
  predicate StandsUnder(queues: seq<Queue>, i: nat, k: nat, name: string, alignment: string, value: string)
    requires i < |queues| && k < 4
  {
    var heads, lines := SizedHeads(queues), ScreenLines(queues);
    var from, to := Offset(heads, k), Offset(heads, k) + heads[k].size + 3;
    && |lines| == |queues| + 4
    && 0 <= from <= to <= |lines[1]| && to <= |lines[3 + i]|
    && LeftCell(lines[1][from..to], name)
    && Shows(alignment, lines[3 + i][from..to], value)
  }

  /** On every screen, shrunk or not, the name and the numbers of each queue whose name fits stand under their own headings. */
  lemma ScreenShows(queues: seq<Queue>, i: nat)
    requires i < |queues| && |Escape(queues[i].name)| <= FinalWidths(queues)[0]
    ensures StandsUnder(queues, i, 0, "Queue Name", "", Escape(queues[i].name))
    ensures StandsUnder(queues, i, 1, "Worker Available", "right", Itoa(queues[i].availWorker as int))
    ensures StandsUnder(queues, i, 2, "Jobs Waiting", "right", Itoa(queues[i].waiting as int))
    ensures StandsUnder(queues, i, 3, "Jobs running", "right", Itoa(queues[i].running as int))
  {
    hide StandsUnder, Escape, Itoa, FinalWidths;
    RowCells(queues[i]);
    ColumnStands(queues, i, 0);
    ColumnStands(queues, i, 1);
    ColumnStands(queues, i, 2);
    ColumnStands(queues, i, 3);
  }

  lemma ColumnStands(queues: seq<Queue>, i: nat, k: nat)
    requires i < |queues| && k < 4 && |Escape(queues[i].name)| <= FinalWidths(queues)[0]
    ensures StandsUnder(queues, i, k, Heads()[k].name, Heads()[k].alignment,
                        Cell(true, DataRow(queues[i]), Heads()[k].field))
  {
    hide LeftCell, Shows, Cell, Total, Natural, CellsFit, NamesFit, ScreenLines, HeaderText, RowText, SizedHeads, FinalWidths;
    var heads, rows := SizedHeads(queues), DataRows(queues);
    FitsHere(queues, i);
    SizedAreHeads(queues, k);
    ColumnShows(true, heads, rows[i], k);
    var from, to := Offset(heads, k), Offset(heads, k) + heads[k].size + 3;
    ScreenLine(queues, i);
    assert (HeaderText(heads) + "|")[from..to] == HeaderText(heads)[from..to];
    assert (RowText(true, heads, rows[i]) + "|")[from..to] == RowText(true, heads, rows[i])[from..to];
  }

  lemma FitsHere(queues: seq<Queue>, i: nat)
    requires i < |queues| && |Escape(queues[i].name)| <= FinalWidths(queues)[0]
    ensures NamesFit(SizedHeads(queues)) && CellsFit(true, SizedHeads(queues), DataRows(queues)[i])
  {
    hide Cell, NaturalSize, FinalWidths;
    var heads, row := SizedHeads(queues), DataRows(queues)[i];
    RowCells(queues[i]);
    forall k: nat | k < 4 ensures |heads[k].name| <= heads[k].size && |Cell(true, row, heads[k].field)| <= heads[k].size {
      SizedAreHeads(queues, k);
      ColumnHasRoom(queues, i, k);
    }
  }

  /** The number columns keep the sizes that fit; the name column keeps room for its heading. */
  lemma ColumnHasRoom(queues: seq<Queue>, i: nat, k: nat)
    requires i < |queues| && k < 4
    ensures |Heads()[k].name| <= FinalWidths(queues)[k]
    ensures k > 0 ==> |Cell(true, DataRows(queues)[i], Heads()[k].field)| <= FinalWidths(queues)[k]
  {
    hide Cell, NaturalSize;
    var final, natural := FinalWidths(queues), Natural(queues);
    TopSizes(queues);
    if k > 0 {
      assert final[1..][k - 1] == natural[1..][k - 1];
      NaturalIsLeast(true, DataRows(queues), Heads()[k], natural[k]);
    }
  }

  lemma SizedAreHeads(queues: seq<Queue>, k: nat)
    requires k < 4
    ensures var head := SizedHeads(queues)[k];
      head.name == Heads()[k].name && head.field == Heads()[k].field && head.alignment == Heads()[k].alignment
  {
  }

  lemma ScreenLine(queues: seq<Queue>, i: nat)
    requires i < |queues|
    ensures var heads, lines := SizedHeads(queues), ScreenLines(queues);
      && |lines| == |queues| + 4
      && lines[1] == HeaderText(heads) + "|" && lines[3 + i] == RowText(true, heads, DataRow(queues[i])) + "|"
  {
    hide HeaderText, SeparatorText, RowText, SizedHeads, Border;
  }
}
