/** Where in the lines of a table each name and each cell stands. */
module TableCells {
  import opened ColumnWidths
  import opened Outcomes
  import opened TableText

  predicate BlankFrom(s: string, from: int, to: int)
    requires 0 <= from <= to <= |s|
  {
    forall i :: from <= i < to ==> s[i] == ' '
  }

  /** "| ", the text, and only blanks behind it. */
  predicate LeftCell(cell: string, value: string) {
    "| " + value <= cell && BlankFrom(cell, |value| + 2, |cell|)
  }

  /** "| ", only blanks, and the text with one blank at the very end. */
  predicate RightCell(cell: string, value: string) {
    && |cell| >= |value| + 3 && "| " <= cell
    && cell[|cell| - |value| - 1..] == value + " "
    && BlankFrom(cell, 2, |cell| - |value| - 1)
  }

  /** "| ", the text between blanks, as many before it as behind it or one fewer, and one blank at the very end. */
  predicate CenteredCell(cell: string, value: string) {
    && |cell| >= |value| + 3 && "| " <= cell
    && var left := (|cell| - 3 - |value|) / 2;
       var right := |cell| - 3 - |value| - left;
       && left <= right <= left + 1
       && cell[2 + left..2 + left + |value|] == value
       && BlankFrom(cell, 2, 2 + left) && BlankFrom(cell, 2 + left + |value|, |cell|)
  }

  /** A cell as its column's alignment promises it. */
  predicate Shows(alignment: string, cell: string, value: string) {
    match alignment
    case "right" => RightCell(cell, value)
    case "centered" => CenteredCell(cell, value)
    case _ => LeftCell(cell, value)
  }

  /** A text that fits stands in its cell where the alignment puts it. */
  lemma AlignedShows(alignment: string, size: nat, value: string)
    requires |value| <= size
    ensures Shows(alignment, Aligned(alignment, size, value), value)
  {
    if alignment == "right" {
      RightShows(size, value);
    } else if alignment == "centered" {
      CenteredShows(size, value);
    } else {
      LeftShows(size, value);
    }
  }

  lemma LeftShows(size: nat, value: string)
    requires |value| <= size
    ensures LeftCell("| " + PadRight(value, size) + " ", value)
  {
    var cell := "| " + PadRight(value, size) + " ";
    assert cell[..|value| + 2] == "| " + value;
  }

  lemma RightShows(size: nat, value: string)
    requires |value| <= size
    ensures RightCell("| " + PadLeft(value, size) + " ", value)
  {
    var cell := "| " + PadLeft(value, size) + " ";
    assert cell[|cell| - |value| - 1..] == value + " ";
    assert cell[..2] == "| ";
  }

  lemma CenteredShows(size: nat, value: string)
    requires |value| <= size
    ensures CenteredCell(Aligned("centered", size, value), value)
  {
    hide CenteredCell, Aligned, Spaces;
    var left := (size - |value|) / 2;
    var right := size - left - |value|;
    CenteredText(size, value);
    BetweenBlanks(left, value, right);
  }

  lemma CenteredText(size: nat, value: string)
    requires |value| <= size
    ensures var left := (size - |value|) / 2;
      Aligned("centered", size, value) == "| " + Spaces(left) + (value + Spaces(size - left - |value|)) + " "
  {
  }

  lemma BetweenBlanks(left: nat, value: string, right: nat)
    requires left <= right <= left + 1
    ensures CenteredCell("| " + Spaces(left) + (value + Spaces(right)) + " ", value)
  {
    var cell := "| " + Spaces(left) + (value + Spaces(right)) + " ";
    assert |cell| - 3 - |value| == left + right && (left + right) / 2 == left;
    assert cell[2 + left..2 + left + |value|] == value;
    assert cell[..2] == "| ";
  }

  /** Where column `k` begins. */
  function Offset(heads: seq<Header>, k: nat): int
    requires k <= |heads|
  {
    Total(Sizes(heads[..k]))
  }

  lemma {:induction false} OffsetIsNatural(heads: seq<Header>)
    requires NonNegative(heads)
    ensures Total(Sizes(heads)) >= 0
  {
    if heads == [] {
      assert Sizes(heads) == [];
    } else {
      OffsetIsNatural(heads[..|heads| - 1]);
      TotalStep(heads);
    }
  }

  /** The part of a line that belongs to column `k`. */
  predicate PartIs(line: string, heads: seq<Header>, k: nat, part: string)
    requires k < |heads|
  {
    var from := Offset(heads, k);
    0 <= from && from + |part| <= |line| && |part| == heads[k].size + 3 && line[from..from + |part|] == part
  }

  lemma PartStays(line: string, more: string, heads: seq<Header>, k: nat, part: string)
    requires k < |heads| - 1 && PartIs(line, heads[..|heads| - 1], k, part)
    ensures PartIs(line + more, heads, k, part)
  {
    assert heads[..|heads| - 1][..k] == heads[..k];
  }

  lemma PartAtEnd(line: string, heads: seq<Header>, part: string)
    requires heads != [] && |part| == heads[|heads| - 1].size + 3
    requires |line| == Total(Sizes(heads[..|heads| - 1]))
    ensures PartIs(line + part, heads, |heads| - 1, part)
  {
  }

  /** Every cell of a row that fits stands in its own column, aligned as its header says. */
  lemma {:induction false} RowParts(escape: bool, heads: seq<Header>, row: Row, k: nat)
    requires NonNegative(heads) && CellsFit(escape, heads, row) && k < |heads|
    ensures PartIs(RowText(escape, heads, row), heads, k,
                   Aligned(heads[k].alignment, heads[k].size, Cell(escape, row, heads[k].field)))
  {
    hide Aligned, Cell, Total, Sizes;
    var n := |heads| - 1;
    var front := heads[..n];
    assert forall i :: 0 <= i < n ==> front[i] == heads[i];
    var last := Aligned(heads[n].alignment, heads[n].size, Cell(escape, row, heads[n].field));
    RowGeometry(escape, front, row);
    AlignedWidth(heads[n].alignment, heads[n].size, Cell(escape, row, heads[n].field));
    if k == n {
      PartAtEnd(RowText(escape, front, row), heads, last);
    } else {
      RowParts(escape, front, row, k);
      PartStays(RowText(escape, front, row), last, heads, k,
                Aligned(heads[k].alignment, heads[k].size, Cell(escape, row, heads[k].field)));
    }
  }

  function NamePart(head: Header): string
    requires head.size >= 0
  {
    "| " + PadRight(head.name, head.size) + " "
  }

  function SeparatorPart(head: Header): string
    requires head.size >= 0
  {
    var mark := if head.alignment == "centered" then ":" else " ";
    "|" + mark + Dashes(head.size) + mark
  }

  lemma LastName(heads: seq<Header>)
    requires NonNegative(heads) && heads != []
    ensures var n := |heads| - 1;
      && HeaderText(heads) == HeaderText(heads[..n]) + NamePart(heads[n])
      && (|heads[n].name| <= heads[n].size ==> |NamePart(heads[n])| == heads[n].size + 3)
  {
    var n := |heads| - 1;
    NameWidth(heads[n].name, heads[n].size);
    hide PadRight;
    Join3(HeaderText(heads[..n]), "| ", PadRight(heads[n].name, heads[n].size), " ");
  }

  lemma LastRule(heads: seq<Header>)
    requires NonNegative(heads) && heads != []
    ensures var n := |heads| - 1;
      && SeparatorText(heads) == SeparatorText(heads[..n]) + SeparatorPart(heads[n])
      && |SeparatorPart(heads[n])| == heads[n].size + 3
  {
    var n := |heads| - 1;
    var mark := Edge(heads[n].alignment);
    assert SeparatorText(heads) == SeparatorText(heads[..n]) + "|" + mark + Dashes(heads[n].size) + mark;
    hide SeparatorText;
    Join4(SeparatorText(heads[..n]), "|", mark, Dashes(heads[n].size), mark);
  }

  lemma Join3(front: string, a: string, b: string, c: string)
    ensures front + a + b + c == front + (a + b + c)
  {
  }

  lemma Join4(front: string, a: string, b: string, c: string, d: string)
    ensures front + a + b + c + d == front + (a + b + c + d)
  {
  }

  /** Every name that fits stands at the left of its own column. */
  lemma {:induction false} HeaderParts(heads: seq<Header>, k: nat)
    requires NonNegative(heads) && NamesFit(heads) && k < |heads|
    ensures PartIs(HeaderText(heads), heads, k, NamePart(heads[k]))
  {
    hide Total, Sizes, NamePart, HeaderText, SeparatorText, SeparatorPart;
    var n := |heads| - 1;
    var front := heads[..n];
    assert forall i :: 0 <= i < n ==> front[i] == heads[i];
    HeaderGeometry(front);
    LastName(heads);
    if k == n {
      PartAtEnd(HeaderText(front), heads, NamePart(heads[n]));
    } else {
      HeaderParts(front, k);
      PartStays(HeaderText(front), NamePart(heads[n]), heads, k, NamePart(heads[k]));
    }
  }

  /** Under every name a rule of its column's width, with colons at the ends of a centred one. */
  lemma {:induction false} SeparatorParts(heads: seq<Header>, k: nat)
    requires NonNegative(heads) && k < |heads|
    ensures PartIs(SeparatorText(heads), heads, k, SeparatorPart(heads[k]))
  {
    hide Total, Sizes, NamePart, HeaderText, SeparatorText, SeparatorPart;
    var n := |heads| - 1;
    var front := heads[..n];
    assert forall i :: 0 <= i < n ==> front[i] == heads[i];
    HeaderGeometry(front);
    LastRule(heads);
    if k == n {
      PartAtEnd(SeparatorText(front), heads, SeparatorPart(heads[n]));
    } else {
      SeparatorParts(front, k);
      PartStays(SeparatorText(front), SeparatorPart(heads[n]), heads, k, SeparatorPart(heads[k]));
    }
  }

  /** In the column of a header stand its name, and under it the row's own attribute, aligned. */
  lemma ColumnShows(escape: bool, heads: seq<Header>, row: Row, k: nat)
    requires NonNegative(heads) && NamesFit(heads) && CellsFit(escape, heads, row) && k < |heads|
    ensures var from, to := Offset(heads, k), Offset(heads, k) + heads[k].size + 3;
      && 0 <= from && to <= |HeaderText(heads)| && to <= |RowText(escape, heads, row)|
      && LeftCell(HeaderText(heads)[from..to], heads[k].name)
      && Shows(heads[k].alignment, RowText(escape, heads, row)[from..to], Cell(escape, row, heads[k].field))
  {
    hide LeftCell, Shows, HeaderText, RowText, Aligned, Cell;
    HeaderParts(heads, k);
    LeftShows(heads[k].size, heads[k].name);
    RowParts(escape, heads, row, k);
    AlignedShows(heads[k].alignment, heads[k].size, Cell(escape, row, heads[k].field));
  }
}
