/** What a table is made of: the cells of the rows, escaped and padded. */
module TableText {
  import opened ColumnWidths
  import opened Outcomes
  import Text

  datatype Header = Header(name: string, field: string, alignment: string, size: int)

  /** A struct attribute: a string, or something of another type. */
  datatype Attribute = Str(text: string) | Other
  datatype Row = Struct(fields: map<string, Attribute>) | NotStruct

  /** strings.ReplaceAll for a one-character pattern. */
  function ReplaceAll(s: string, pattern: char, replacement: string): string {
    if s == "" then "" else (if s[0] == pattern then replacement else [s[0]]) + ReplaceAll(s[1..], pattern, replacement)
  }

  function Escape(s: string): string {
    ReplaceAll(ReplaceAll(ReplaceAll(ReplaceAll(s, '\n', "\\n"), '|', "\\|"), '$', "\\$"), '*', "\\*")
  }

  /** The text of a cell; None for an attribute that is not a string. A missing attribute is empty. */
  function RowValue(escape: bool, row: Row, field: string): Option<string>
    requires row.Struct?
  {
    if field in row.fields && row.fields[field].Other? then None
    else
      var value := if field in row.fields then row.fields[field].text else "";
      Some(if escape then Escape(value) else value)
  }

  predicate RowOk(heads: seq<Header>, row: Row) {
    && row.Struct?
    && forall k :: 0 <= k < |heads| ==> RowValue(false, row, heads[k].field).Some?
  }

  predicate RowsOk(heads: seq<Header>, rows: seq<Row>) {
    forall i :: 0 <= i < |rows| ==> RowOk(heads, rows[i])
  }

  function Cell(escape: bool, row: Row, field: string): string {
    if row.Struct? && RowValue(escape, row, field).Some? then RowValue(escape, row, field).value else ""
  }

  function Max(a: int, b: int): int {
    if a < b then b else a
  }

  function NaturalSize(escape: bool, rows: seq<Row>, head: Header): nat {
    if rows == [] then |head.name|
    else Max(NaturalSize(escape, rows[..|rows| - 1], head), |Cell(escape, rows[|rows| - 1], head.field)|)
  }

  function NaturalSizes(escape: bool, rows: seq<Row>, heads: seq<Header>): seq<int> {
    seq(|heads|, k requires 0 <= k < |heads| => NaturalSize(escape, rows, heads[k]))
  }

  function Sizes(heads: seq<Header>): seq<int> {
    seq(|heads|, k requires 0 <= k < |heads| => heads[k].size)
  }

  function WithSizes(heads: seq<Header>, sizes: seq<int>): seq<Header>
    requires |heads| == |sizes|
  {
    seq(|heads|, k requires 0 <= k < |heads| => heads[k].(size := sizes[k]))
  }

  /** The natural size is the least width into which the name and every cell fit. */
  lemma {:induction false} NaturalIsLeast(escape: bool, rows: seq<Row>, head: Header, width: int)
    ensures NaturalSize(escape, rows, head) <= width <==>
      |head.name| <= width && forall i :: 0 <= i < |rows| ==> |Cell(escape, rows[i], head.field)| <= width
  {
    if rows != [] {
      var n := |rows| - 1;
      NaturalIsLeast(escape, rows[..n], head, width);
      assert forall i :: 0 <= i < n ==> rows[..n][i] == rows[i];
      assert NaturalSize(escape, rows, head) <= width <==>
        NaturalSize(escape, rows[..n], head) <= width && |Cell(escape, rows[n], head.field)| <= width;
    }
  }

  function Spaces(n: int): string {
    if n <= 0 then "" else seq(n, _ => ' ')
  }

  /** %-*s: blanks are added on the right. */
  function PadRight(value: string, width: nat): string {
    value + Spaces(width - |value|)
  }

  /** %*s: blanks are added on the left, for a negative width on the right. */
  function PadLeft(value: string, width: int): string {
    if width < 0 then PadRight(value, -width) else Spaces(width - |value|) + value
  }

  predicate Supported(alignment: string) {
    alignment == "right" || alignment == "left" || alignment == "" || alignment == "centered"
  }

  function Aligned(alignment: string, size: nat, value: string): string {
    if alignment == "right" then "| " + PadLeft(value, size) + " "
    else if alignment == "centered" then
      var padding := Quot(size - |value|, 2);
      "| " + PadLeft("", padding) + PadRight(value, size - padding) + " "
    else "| " + PadRight(value, size) + " "
  }

  predicate NonNegative(heads: seq<Header>) {
    forall k :: 0 <= k < |heads| ==> heads[k].size >= 0
  }

  function HeaderText(heads: seq<Header>): string
    requires NonNegative(heads)
  {
    if heads == [] then ""
    else
      var n := |heads| - 1;
      HeaderText(heads[..n]) + "| " + PadRight(heads[n].name, heads[n].size) + " "
  }

  function Edge(alignment: string): string {
    if alignment == "centered" then ":" else " "
  }

  function Dashes(n: nat): string {
    seq(n, _ => '-')
  }

  function SeparatorText(heads: seq<Header>): string
    requires NonNegative(heads)
  {
    if heads == [] then ""
    else
      var n := |heads| - 1;
      SeparatorText(heads[..n]) + "|" + Edge(heads[n].alignment) + Dashes(heads[n].size) + Edge(heads[n].alignment)
  }

  function RowText(escape: bool, heads: seq<Header>, row: Row): string
    requires NonNegative(heads)
  {
    if heads == [] then ""
    else
      var n := |heads| - 1;
      RowText(escape, heads[..n], row) + Aligned(heads[n].alignment, heads[n].size, Cell(escape, row, heads[n].field))
  }

  function RowsText(escape: bool, heads: seq<Header>, rows: seq<Row>): string
    requires NonNegative(heads)
  {
    if rows == [] then ""
    else RowsText(escape, heads, rows[..|rows| - 1]) + RowText(escape, heads, rows[|rows| - 1]) + "|\n"
  }

  function TableString(escape: bool, heads: seq<Header>, rows: seq<Row>): string
    requires NonNegative(heads)
  {
    HeaderText(heads) + "|\n" + SeparatorText(heads) + "|\n" + RowsText(escape, heads, rows)
  }

  /** A cell is as wide as its column exactly when its text fits, and never narrower. */
  lemma AlignedWidth(alignment: string, size: nat, value: string)
    ensures |Aligned(alignment, size, value)| >= size + 3
    ensures |Aligned(alignment, size, value)| == size + 3 <==> |value| <= size
  {
    if alignment == "centered" {
      var padding := Quot(size - |value|, 2);
      if |value| > size {
        var over: nat := |value| - size;
        assert padding == -(over / 2);
        HalfOf(over);
        assert |PadLeft("", padding)| == over / 2;
        assert |PadRight(value, size - padding)| == |value|;
      } else {
        HalfOf(size - |value|);
        assert |PadLeft("", padding)| == padding;
        assert |PadRight(value, size - padding)| == size - padding;
      }
    }
  }

  lemma HalfOf(n: nat)
    ensures 0 <= n / 2 <= n
  {
  }

  predicate NamesFit(heads: seq<Header>) {
    forall k :: 0 <= k < |heads| ==> |heads[k].name| <= heads[k].size
  }

  predicate CellsFit(escape: bool, heads: seq<Header>, row: Row) {
    forall k :: 0 <= k < |heads| ==> |Cell(escape, row, heads[k].field)| <= heads[k].size
  }

  /** A data row lines up with the separator exactly when each of its cells fits, whatever the alignments. */
  lemma {:induction false} RowGeometry(escape: bool, heads: seq<Header>, row: Row)
    requires NonNegative(heads)
    ensures |RowText(escape, heads, row)| >= Total(Sizes(heads))
    ensures |RowText(escape, heads, row)| == Total(Sizes(heads)) <==> CellsFit(escape, heads, row)
  {
    if heads == [] {
      assert Sizes(heads) == [];
    } else {
      hide Aligned, Cell, CellsFit, Total, Sizes;
      var n := |heads| - 1;
      RowGeometry(escape, heads[..n], row);
      AlignedWidth(heads[n].alignment, heads[n].size, Cell(escape, row, heads[n].field));
      TotalStep(heads);
      SplitCells(escape, heads, row);
    }
  }

  lemma TotalStep(heads: seq<Header>)
    requires heads != []
    ensures var n := |heads| - 1;
      Total(Sizes(heads)) == Total(Sizes(heads[..n])) + heads[n].size + 3
  {
    var n := |heads| - 1;
    assert Sizes(heads)[..n] == Sizes(heads[..n]);
  }

  lemma SplitNames(heads: seq<Header>)
    requires heads != []
    ensures var n := |heads| - 1;
      NamesFit(heads) <==> NamesFit(heads[..n]) && |heads[n].name| <= heads[n].size
  {
    var n := |heads| - 1;
    assert forall k :: 0 <= k < n ==> heads[..n][k] == heads[k];
  }

  lemma NameWidth(name: string, size: nat)
    ensures |PadRight(name, size)| == Max(|name|, size)
  {
  }

  lemma SplitCells(escape: bool, heads: seq<Header>, row: Row)
    requires heads != []
    ensures var n := |heads| - 1;
      CellsFit(escape, heads, row) <==>
        CellsFit(escape, heads[..n], row) && |Cell(escape, row, heads[n].field)| <= heads[n].size
  {
    var n := |heads| - 1;
    assert forall k :: 0 <= k < n ==> heads[..n][k] == heads[k];
  }

  /** The separator is always exactly as wide as the columns, the header line when the names fit. */
  lemma {:induction false} HeaderGeometry(heads: seq<Header>)
    requires NonNegative(heads)
    ensures |SeparatorText(heads)| == Total(Sizes(heads))
    ensures |HeaderText(heads)| >= Total(Sizes(heads))
    ensures |HeaderText(heads)| == Total(Sizes(heads)) <==> NamesFit(heads)
  {
    if heads == [] {
      assert Sizes(heads) == [];
    } else {
      hide PadRight, NamesFit, Total, Sizes;
      var n := |heads| - 1;
      HeaderGeometry(heads[..n]);
      TotalStep(heads);
      SplitNames(heads);
      NameWidth(heads[n].name, heads[n].size);
    }
  }

  // ---------------------------------------------------------------------------------------------
  // Reading an escaped text back.

  /** Takes a backslash and what is behind it for the escaped character. */
  function ReadEscaped(s: string): string
    decreases |s|
  {
    if s == "" then ""
    else if s[0] == '\\' && |s| > 1 && s[1] == 'n' then "\n" + ReadEscaped(s[2..])
    else if s[0] == '\\' && |s| > 1 && (s[1] == '|' || s[1] == '$' || s[1] == '*') then [s[1]] + ReadEscaped(s[2..])
    else [s[0]] + ReadEscaped(s[1..])
  }

  lemma {:induction false} EachReadsBack(s: string)
    requires '\\' !in s
    ensures ReadEscaped(EscapeEach(s)) == s
  {
    if s != "" {
      EachReadsBack(s[1..]);
      var c, rest := s[0], EscapeEach(s[1..]);
      assert s == [c] + s[1..];
      if c == '\n' || c in "|$*" {
        var d := if c == '\n' then 'n' else c;
        assert (['\\', d] + rest)[2..] == rest;
      } else {
        assert ([c] + rest)[1..] == rest;
      }
    }
  }

  /** A text without backslashes can be read back from its escaped form. */
  lemma EscapeReadsBack(s: string)
    requires '\\' !in s
    ensures ReadEscaped(Escape(s)) == s
  {
    EscapeIsOnePass(s);
    EachReadsBack(s);
  }

  /** No bar, dollar or asterisk of an escaped text is without a backslash in front of it. */
  lemma {:induction false} EachIsMarked(s: string)
    ensures forall i :: 0 <= i < |EscapeEach(s)| && EscapeEach(s)[i] in {'|', '$', '*'} ==> i > 0 && EscapeEach(s)[i - 1] == '\\'
  {
    if s != "" {
      EachIsMarked(s[1..]);
      var head, rest := EscapeChar(s[0]), EscapeEach(s[1..]);
      forall i | 0 <= i < |head + rest| && (head + rest)[i] in {'|', '$', '*'}
        ensures i > 0 && (head + rest)[i - 1] == '\\'
      {
        if i >= |head| {
          assert rest[i - |head|] == (head + rest)[i];
        }
      }
    }
  }

  lemma EscapeMarks(s: string)
    ensures forall i :: 0 <= i < |Escape(s)| && Escape(s)[i] in {'|', '$', '*'} ==> i > 0 && Escape(s)[i - 1] == '\\'
  {
    EscapeIsOnePass(s);
    EachIsMarked(s);
  }

  // ---------------------------------------------------------------------------------------------
  // What escaping keeps apart, and what it does not.

  /** Whether a backslash that itself is not escaped stands before what follows. */
  function Pending(before: bool, s: string): bool
    decreases |s|
  {
    if s == "" then before else Pending(!before && s[0] == '\\', s[1..])
  }

  /** Number of bars in `s` that open a column for a reader who takes a backslash
      and the character behind it as a pair. */
  function Free(before: bool, s: string): nat
    decreases |s|
  {
    if s == "" then 0
    else (if s[0] == '|' && !before then 1 else 0) + Free(!before && s[0] == '\\', s[1..])
  }

  function EscapeChar(c: char): string {
    if c == '\n' then "\\n" else if c in "|$*" then ['\\', c] else [c]
  }

  function EscapeEach(s: string): string {
    if s == "" then "" else EscapeChar(s[0]) + EscapeEach(s[1..])
  }

  lemma {:induction false} ReplaceAppend(a: string, b: string, pattern: char, replacement: string)
    ensures ReplaceAll(a + b, pattern, replacement) == ReplaceAll(a, pattern, replacement) + ReplaceAll(b, pattern, replacement)
  {
    if a == "" {
      assert a + b == b;
    } else {
      hide ReplaceAll;
      ReplaceAppend(a[1..], b, pattern, replacement);
      ReplaceStep(a[0], a[1..], pattern, replacement);
      ReplaceStep(a[0], a[1..] + b, pattern, replacement);
      assert a == [a[0]] + a[1..];
      assert a + b == [a[0]] + (a[1..] + b);
      Text.Associate(if a[0] == pattern then replacement else [a[0]], ReplaceAll(a[1..], pattern, replacement), ReplaceAll(b, pattern, replacement));
    }
  }

  lemma ReplaceStep(c: char, rest: string, pattern: char, replacement: string)
    ensures ReplaceAll([c] + rest, pattern, replacement) == (if c == pattern then replacement else [c]) + ReplaceAll(rest, pattern, replacement)
  {
    assert ([c] + rest)[1..] == rest;
  }

  /** Replacing a newline leaves nothing that a later pass replaces: the four passes are one. */
  lemma {:induction false} EscapeIsOnePass(s: string)
    ensures Escape(s) == EscapeEach(s)
  {
    if s != "" {
      EscapeIsOnePass(s[1..]);
      EscapeHead([s[0]], s[1..]);
      EscapeOne(s[0]);
      assert [s[0]] + s[1..] == s;
    }
  }

  lemma EscapeHead(a: string, b: string)
    ensures Escape(a + b) == Escape(a) + Escape(b)
  {
    var a1, b1 := ReplaceAll(a, '\n', "\\n"), ReplaceAll(b, '\n', "\\n");
    var a2, b2 := ReplaceAll(a1, '|', "\\|"), ReplaceAll(b1, '|', "\\|");
    var a3, b3 := ReplaceAll(a2, '$', "\\$"), ReplaceAll(b2, '$', "\\$");
    ReplaceAppend(a, b, '\n', "\\n");
    ReplaceAppend(a1, b1, '|', "\\|");
    ReplaceAppend(a2, b2, '$', "\\$");
    ReplaceAppend(a3, b3, '*', "\\*");
  }

  lemma ReplaceOne(c: char, pattern: char, replacement: string)
    ensures ReplaceAll([c], pattern, replacement) == if c == pattern then replacement else [c]
  {
    assert ReplaceAll([c][1..], pattern, replacement) == "";
  }

  lemma ReplaceTwo(c: char, d: char, pattern: char, replacement: string)
    requires c != pattern && d != pattern
    ensures ReplaceAll([c, d], pattern, replacement) == [c, d]
  {
    ReplaceOne(d, pattern, replacement);
    assert [c, d][1..] == [d];
  }

  lemma EscapeOne(c: char)
    ensures Escape([c]) == EscapeChar(c)
  {
    ReplaceOne(c, '\n', "\\n");
    ReplaceOne(c, '|', "\\|");
    ReplaceOne(c, '$', "\\$");
    ReplaceOne(c, '*', "\\*");
    if c == '\n' || c in "|$*" {
      var d := if c == '\n' then 'n' else c;
      if c == '\n' {
        ReplaceTwo('\\', d, '|', "\\|");
      }
      if c == '\n' || c == '|' {
        ReplaceTwo('\\', d, '$', "\\$");
      }
      if c != '*' {
        ReplaceTwo('\\', d, '*', "\\*");
      }
    }
  }

  lemma {:induction false} EscapedIsOneLine(s: string)
    ensures '\n' !in EscapeEach(s)
  {
    if s != "" {
      EscapedIsOneLine(s[1..]);
    }
  }

  /** Length of the run of backslashes that ends in front of position `i`. */
  function Run(s: string, i: nat): nat
    requires i <= |s|
  {
    if i == 0 || s[i - 1] != '\\' then 0 else 1 + Run(s, i - 1)
  }

  /** A bar behind an odd run of backslashes. */
  predicate Exposed(s: string, i: nat)
    requires i < |s|
  {
    s[i] == '|' && Run(s, i) % 2 == 1
  }

  function CountExposed(s: string, n: nat): nat
    requires n <= |s|
  {
    if n == 0 then 0 else CountExposed(s, n - 1) + (if Exposed(s, n - 1) then 1 else 0)
  }

  predicate Safe(s: string) {
    forall i: nat :: i < |s| ==> !Exposed(s, i)
  }

  lemma {:induction false} SafeIff(s: string, n: nat)
    requires n <= |s|
    ensures CountExposed(s, n) == 0 <==> forall i: nat :: i < n ==> !Exposed(s, i)
  {
    if n > 0 {
      SafeIff(s, n - 1);
    }
  }

  lemma {:induction false} FreeAppend(before: bool, a: string, b: string)
    ensures Free(before, a + b) == Free(before, a) + Free(Pending(before, a), b)
    ensures Pending(before, a + b) == Pending(Pending(before, a), b)
    decreases |a|
  {
    if a == "" {
      assert a + b == b;
    } else {
      FreeAppend(!before && a[0] == '\\', a[1..], b);
      assert (a + b)[1..] == a[1..] + b && (a + b)[0] == a[0];
    }
  }

  lemma {:induction false} EachAppend(a: string, c: char)
    ensures EscapeEach(a + [c]) == EscapeEach(a) + EscapeChar(c)
  {
    if a == "" {
      assert (a + [c])[1..] == "";
    } else {
      EachAppend(a[1..], c);
      assert (a + [c])[1..] == a[1..] + [c];
    }
  }

  lemma FreeOne(before: bool, c: char)
    ensures Free(before, [c]) == if c == '|' && !before then 1 else 0
    ensures Pending(before, [c]) == (!before && c == '\\')
  {
    assert [c][1..] == "";
  }

  /** What an escaped character does, by whether a backslash is pending in front of it. */
  lemma FreeChar(before: bool, c: char)
    ensures Free(before, EscapeChar(c)) == if c == '|' && before then 1 else 0
    ensures Pending(before, EscapeChar(c)) == (!before && c == '\\')
  {
    FreeOne(before, c);
    if c == '\n' || c in "|$*" {
      var d := if c == '\n' then 'n' else c;
      FreeOne(before, '\\');
      FreeOne(!before, d);
      FreeAppend(before, ['\\'], [d]);
      assert ['\\'] + [d] == ['\\', d];
    }
  }

  lemma NothingExposed(s: string)
    ensures Free(false, EscapeEach("")) == CountExposed(s, 0) == 0
    ensures !Pending(false, EscapeEach("")) && Run(s, 0) == 0
  {
  }

  lemma RunStep(s: string, n: nat)
    requires 0 < n <= |s|
    ensures Run(s, n) == if s[n - 1] == '\\' then 1 + Run(s, n - 1) else 0
    ensures CountExposed(s, n) ==
      CountExposed(s, n - 1) + if s[n - 1] == '|' && Run(s, n - 1) % 2 == 1 then 1 else 0
  {
  }

  /** The bars of an escaped text that open a column are those behind an odd run of backslashes in the text itself. */
  lemma {:induction false} EscapedBars(s: string, n: nat)
    requires n <= |s|
    ensures Free(false, EscapeEach(s[..n])) == CountExposed(s, n)
    ensures Pending(false, EscapeEach(s[..n])) == (Run(s, n) % 2 == 1)
  {
    hide Free, Pending, EscapeEach, EscapeChar, CountExposed, Run, Exposed;
    if n == 0 {
      assert s[..0] == "";
      NothingExposed(s);
    } else {
      var front, c := s[..n - 1], s[n - 1];
      EscapedBars(s, n - 1);
      assert s[..n] == front + [c];
      EachAppend(front, c);
      RunStep(s, n);
      FreeAppend(false, EscapeEach(front), EscapeChar(c));
      FreeChar(Pending(false, EscapeEach(front)), c);
    }
  }

  lemma {:induction false} BlanksAreFree(before: bool, n: int)
    ensures Free(before, Spaces(n)) == 0
    ensures n > 0 ==> !Pending(before, Spaces(n))
    ensures '\n' !in Spaces(n)
    decreases n
  {
    if n > 0 {
      BlanksAreFree(false, n - 1);
      assert Spaces(n)[1..] == Spaces(n - 1);
      if n == 1 {
        assert Spaces(0) == "";
      }
    }
  }

  /** Blanks around a text: the bar at the front, and those of the text. No backslash is pending behind it. */
  lemma CellBars(left: int, value: string, right: int)
    ensures var text := "| " + Spaces(left) + value + Spaces(right) + " ";
      Free(false, text) == 1 + Free(false, value) && !Pending(false, text)
  {
    hide Free, Pending;
    var bar := "| ";
    var a := bar + Spaces(left);
    var b := a + value;
    var c := b + Spaces(right);
    FreeOne(false, '|');
    FreeOne(false, ' ');
    FreeAppend(false, "|", " ");
    assert "|" + " " == bar;
    FreeAppend(false, bar, Spaces(left));
    BlanksAreFree(false, left);
    NoSpaces(left);
    FreeAppend(false, bar, "");
    assert bar + "" == bar;
    FreeAppend(false, a, value);
    FreeAppend(false, b, Spaces(right));
    BlanksAreFree(Pending(false, b), right);
    FreeAppend(false, c, " ");
    FreeOne(Pending(false, c), ' ');
  }

  /** An aligned cell is its text between blanks. */
  lemma Around(alignment: string, size: nat, value: string) returns (left: int, right: int)
    ensures Aligned(alignment, size, value) == "| " + Spaces(left) + value + Spaces(right) + " "
  {
    hide Spaces, Quot;
    if alignment == "right" {
      left, right := size - |value|, 0;
      NoSpaces(right);
      Regroup("| ", Spaces(left), value, Spaces(right), " ");
      assert PadLeft(value, size) == Spaces(left) + (value + Spaces(right));
    } else if alignment == "centered" {
      var padding := Quot(size - |value|, 2);
      HalfOfDifference(size, |value|);
      left, right := if padding < 0 then -padding else padding, size - padding - |value|;
      NoSpaces(0);
      Regroup("| ", Spaces(left), value, Spaces(right), " ");
      assert PadLeft("", padding) == Spaces(left);
    } else {
      left, right := 0, size - |value|;
      NoSpaces(left);
      Regroup("| ", Spaces(left), value, Spaces(right), " ");
      assert PadRight(value, size) == Spaces(left) + (value + Spaces(right));
    }
  }

  lemma HalfOfDifference(size: nat, length: nat)
    ensures Quot(size - length, 2) <= size
  {
  }

  lemma NoSpaces(n: int)
    ensures n <= 0 ==> Spaces(n) == ""
  {
  }

  lemma Regroup(a: string, b: string, c: string, d: string, e: string)
    ensures a + (b + (c + d)) + e == a + b + c + d + e
    ensures a + b + (c + d) + e == a + b + c + d + e
  {
  }

  lemma AlignedBars(alignment: string, size: nat, value: string)
    requires '\n' !in value
    ensures Free(false, Aligned(alignment, size, value)) == 1 + Free(false, value)
    ensures !Pending(false, Aligned(alignment, size, value))
    ensures '\n' !in Aligned(alignment, size, value)
  {
    hide Free, Pending;
    var left, right := Around(alignment, size, value);
    CellBars(left, value, right);
    BlanksAreFree(false, left);
    BlanksAreFree(false, right);
  }

  /** The text of a cell before escaping. */
  function Raw(row: Row, field: string): string {
    Cell(false, row, field)
  }

  /** The cell of an attribute is its text, escaped character by character; without the attribute it is empty. */
  lemma CellIsEscaped(row: Row, field: string)
    ensures Cell(true, row, field) == EscapeEach(Raw(row, field))
    ensures row.Struct? && field in row.fields && row.fields[field].Str? ==> Raw(row, field) == row.fields[field].text
    ensures row.Struct? && field !in row.fields ==> Raw(row, field) == Cell(true, row, field) == ""
  {
    if row.Struct? && RowValue(true, row, field).Some? {
      EscapeIsOnePass(Raw(row, field));
    } else {
      assert EscapeEach("") == "";
    }
  }

  lemma FreeOfCell(row: Row, field: string)
    ensures var raw := Raw(row, field);
      && Free(false, Cell(true, row, field)) == CountExposed(raw, |raw|)
      && (CountExposed(raw, |raw|) == 0 <==> Safe(raw))
      && '\n' !in Cell(true, row, field)
  {
    hide Free, Cell;
    var raw := Raw(row, field);
    CellIsEscaped(row, field);
    EscapedBars(raw, |raw|);
    assert raw[..|raw|] == raw;
    SafeIff(raw, |raw|);
    EscapedIsOneLine(raw);
  }

  /** Bars behind odd runs of backslashes in all cells of a row. */
  function ExposedIn(heads: seq<Header>, row: Row): nat {
    if heads == [] then 0
    else
      var n := |heads| - 1;
      var raw := Raw(row, heads[n].field);
      ExposedIn(heads[..n], row) + CountExposed(raw, |raw|)
  }

  predicate AllSafe(heads: seq<Header>, row: Row) {
    forall k :: 0 <= k < |heads| ==> Safe(Raw(row, heads[k].field))
  }

  lemma {:induction false} BarsOfRow(heads: seq<Header>, row: Row)
    requires NonNegative(heads)
    ensures Free(false, RowText(true, heads, row)) == |heads| + ExposedIn(heads, row)
    ensures !Pending(false, RowText(true, heads, row))
    ensures '\n' !in RowText(true, heads, row)
    ensures ExposedIn(heads, row) == 0 <==> AllSafe(heads, row)
  {
    if heads == [] {
      assert RowText(true, heads, row) == "";
    } else {
      hide Free, Pending, Aligned, Cell, Raw, Safe, CountExposed, AllSafe, RowText;
      var n := |heads| - 1;
      BarsOfRow(heads[..n], row);
      var front, value := RowText(true, heads[..n], row), Cell(true, row, heads[n].field);
      FreeOfCell(row, heads[n].field);
      AlignedBars(heads[n].alignment, heads[n].size, value);
      FreeAppend(false, front, Aligned(heads[n].alignment, heads[n].size, value));
      LastCell(heads, row);
      SplitSafe(heads, row);
    }
  }

  lemma LastCell(heads: seq<Header>, row: Row)
    requires NonNegative(heads) && heads != []
    ensures var n := |heads| - 1;
      RowText(true, heads, row) == RowText(true, heads[..n], row)
        + Aligned(heads[n].alignment, heads[n].size, Cell(true, row, heads[n].field))
  {
  }

  lemma SplitSafe(heads: seq<Header>, row: Row)
    requires heads != []
    ensures var n := |heads| - 1;
      AllSafe(heads, row) <==> AllSafe(heads[..n], row) && Safe(Raw(row, heads[n].field))
  {
    hide Safe, Raw;
    var n := |heads| - 1;
    assert forall k :: 0 <= k < n ==> heads[..n][k] == heads[k];
  }

  /** An escaped row is one line. For a reader who pairs backslashes it has one
      bar for each column, the closing one, and one for each bar that a cell has
      behind an odd run of backslashes; so its columns come apart as they should
      exactly when no cell has such a bar. */
  lemma EscapedRowBars(heads: seq<Header>, row: Row)
    requires NonNegative(heads)
    ensures '\n' !in RowText(true, heads, row)
    ensures Free(false, RowText(true, heads, row) + "|") == |heads| + 1 + ExposedIn(heads, row)
    ensures Free(false, RowText(true, heads, row) + "|") == |heads| + 1 <==> AllSafe(heads, row)
  {
    hide Free, Pending, AllSafe;
    BarsOfRow(heads, row);
    FreeAppend(false, RowText(true, heads, row), "|");
    FreeOne(false, '|');
  }

  /** A cell that holds a backslash and a bar: escaping leaves the bar free. */
  lemma BackslashBarSplits()
    ensures !Safe("\\|") && Free(false, Escape("\\|")) == 1
  {
    var s := "\\|";
    EscapeIsOnePass(s);
    EscapedBars(s, 2);
    assert s[..2] == s;
    assert Run(s, 0) == 0 && Run(s, 1) == 1 && Exposed(s, 1) && !Exposed(s, 0);
    assert CountExposed(s, 1) == 0 && CountExposed(s, 2) == 1;
  }
}
