/** The string operations of the wire format. */
module Text {
  import opened Outcomes

  predicate OneLine(s: string) { '\n' !in s }

  /** Blanks at either end, which the receiver cuts off. */
  predicate Trimmed(s: string) {
    s != "" ==> s[0] != ' ' && s[|s| - 1] != ' '
  }

  function TrimLeft(s: string): (r: string)
    ensures r != "" ==> r[0] != ' '
    ensures |r| <= |s| && r == s[|s| - |r|..]
    ensures s != "" && s[0] != ' ' ==> r == s
  {
    if s != "" && s[0] == ' ' then TrimLeft(s[1..]) else s
  }

  function TrimRight(s: string, cut: char -> bool): (r: string)
    ensures r != "" ==> !cut(r[|r| - 1])
    ensures r <= s
    ensures s != "" && !cut(s[|s| - 1]) ==> r == s
  {
    if s != "" && cut(s[|s| - 1]) then TrimRight(s[..|s| - 1], cut) else s
  }

  function Blank(): char -> bool {
    (c: char) => c == ' '
  }

  /** strings.Trim(s, " ") */
  function Trim(s: string): (r: string)
    ensures Trimmed(r)
    ensures Trimmed(s) <==> r == s
    ensures OneLine(s) ==> OneLine(r)
  {
    TrimRight(TrimLeft(s), Blank())
  }

  /** strings.Split(s, "\n") */
  function Lines(s: string): (ls: seq<string>)
    ensures |ls| > 0 && forall i :: 0 <= i < |ls| ==> OneLine(ls[i])
  {
    if s == "" then [""]
    else
      var rest := Lines(s[1..]);
      if s[0] == '\n' then [""] + rest else [[s[0]] + rest[0]] + rest[1..]
  }

  /** Every line followed by a newline. */
  function Unlines(ls: seq<string>): string {
    if ls == [] then "" else ls[0] + "\n" + Unlines(ls[1..])
  }

  function Newlines(n: nat): string {
    seq(n, _ => '\n')
  }

  lemma {:induction false} LinesPrefix(line: string, rest: string)
    requires OneLine(line)
    ensures Lines(line + "\n" + rest) == [line] + Lines(rest)
  {
    var s := line + "\n" + rest;
    if line == "" {
      assert s[1..] == rest;
    } else {
      LinesPrefix(line[1..], rest);
      assert s[1..] == line[1..] + "\n" + rest;
      assert s[0] == line[0] && [s[0]] + line[1..] == line;
      assert ([line[1..]] + Lines(rest))[1..] == Lines(rest);
    }
  }

  lemma {:induction false} LinesOfUnlines(ls: seq<string>, rest: string)
    requires forall i :: 0 <= i < |ls| ==> OneLine(ls[i])
    ensures Lines(Unlines(ls) + rest) == ls + Lines(rest)
  {
    if ls == [] {
      assert Unlines(ls) + rest == rest;
    } else {
      LinesOfUnlines(ls[1..], rest);
      LinesPrefix(ls[0], Unlines(ls[1..]) + rest);
      assert Unlines(ls) + rest == ls[0] + "\n" + (Unlines(ls[1..]) + rest);
      assert ls == [ls[0]] + ls[1..];
    }
  }

  lemma {:induction false} LinesOfOneLine(s: string)
    requires OneLine(s)
    ensures Lines(s) == [s]
  {
    if s != "" {
      LinesOfOneLine(s[1..]);
      assert [s[0]] + s[1..] == s;
    }
  }

  lemma {:induction false} LinesOfNewlines(n: nat)
    ensures forall i :: 0 <= i < |Lines(Newlines(n))| ==> Lines(Newlines(n))[i] == ""
  {
    if n > 0 {
      LinesOfNewlines(n - 1);
      assert Newlines(n)[1..] == Newlines(n - 1);
    }
  }

  lemma OneUnline(line: string)
    ensures Unlines([line]) == line + "\n"
  {
    assert [line][1..] == [];
  }

  lemma {:induction false} UnlinesAppend(a: seq<string>, b: seq<string>)
    ensures Unlines(a + b) == Unlines(a) + Unlines(b)
  {
    if a == [] {
      assert a + b == b;
    } else {
      UnlinesAppend(a[1..], b);
      assert (a + b)[1..] == a[1..] + b;
    }
  }

  /** Splits at the first '='; None without one. */
  function SplitPair(line: string): Option<(string, string)> {
    if line == "" then None
    else if line[0] == '=' then Some(("", line[1..]))
    else
      match SplitPair(line[1..])
      case None => None
      case Some((k, v)) => Some(([line[0]] + k, v))
  }

  lemma {:induction false} SplitField(key: string, value: string)
    requires '=' !in key
    ensures SplitPair(key + "=" + value) == Some((key, value))
  {
    var line := key + "=" + value;
    if key == "" {
      assert line[1..] == value;
    } else {
      SplitField(key[1..], value);
      assert line[1..] == key[1..] + "=" + value;
      assert [line[0]] + key[1..] == key;
    }
  }

  /** What is before and after the '=' is the line. */
  lemma {:induction false} SplitIsLine(line: string)
    ensures SplitPair(line).Some? ==>
      line == SplitPair(line).value.0 + "=" + SplitPair(line).value.1 && '=' !in SplitPair(line).value.0
    ensures SplitPair(line).None? <==> '=' !in line
  {
    if line != "" && line[0] != '=' {
      SplitIsLine(line[1..]);
      assert line == [line[0]] + line[1..];
    }
  }

  lemma Associate(a: string, b: string, c: string)
    ensures a + (b + c) == a + b + c
  {
  }

  /** strings.ReplaceAll(s, "\n", "\\n") */
  function EscapeNewlines(s: string): (r: string)
    ensures OneLine(r)
    ensures OneLine(s) ==> r == s
  {
    if s == "" then ""
    else (if s[0] == '\n' then "\\n" else [s[0]]) + EscapeNewlines(s[1..])
  }

  function Join(ls: seq<string>, separator: string): string {
    if ls == [] then "" else if |ls| == 1 then ls[0] else ls[0] + separator + Join(ls[1..], separator)
  }

  predicate AllBlank(s: string) { forall i :: 0 <= i < |s| ==> s[i] == ' ' }

  lemma {:induction false} CutIsBlank(s: string, i: nat)
    requires i < |s| - |TrimLeft(s)|
    ensures s[i] == ' '
  {
    if i > 0 {
      CutIsBlank(s[1..], i - 1);
    }
  }

  lemma LeftBlanks(s: string) returns (blanks: string)
    ensures AllBlank(blanks) && s == blanks + TrimLeft(s)
  {
    hide TrimLeft;
    blanks := s[..|s| - |TrimLeft(s)|];
    forall i | 0 <= i < |blanks| ensures blanks[i] == ' ' {
      CutIsBlank(s, i);
    }
  }

  lemma {:induction false} RightBlanks(s: string) returns (blanks: string)
    ensures AllBlank(blanks) && s == TrimRight(s, Blank()) + blanks
  {
    if s != "" && s[|s| - 1] == ' ' {
      assert TrimRight(s, Blank()) == TrimRight(s[..|s| - 1], Blank());
      hide TrimRight;
      var rest := RightBlanks(s[..|s| - 1]);
      blanks := rest + " ";
      assert s == s[..|s| - 1] + " ";
      Associate(TrimRight(s, Blank()), rest, " ");
    } else {
      blanks := "";
      assert TrimRight(s, Blank()) + blanks == s;
    }
  }

  /** A trimmed text is the text without the blanks at its ends, and has none there itself. */
  lemma TrimIsMiddle(s: string) returns (left: string, right: string)
    ensures AllBlank(left) && AllBlank(right) && s == left + Trim(s) + right && Trimmed(Trim(s))
  {
    hide TrimLeft, TrimRight, Trimmed;
    left := LeftBlanks(s);
    right := RightBlanks(TrimLeft(s));
    Associate(left, Trim(s), right);
  }

  /** The lines of a text, put together again, are the text. */
  lemma {:induction false} LinesJoin(s: string)
    ensures Join(Lines(s), "\n") == s
  {
    if s != "" {
      LinesJoin(s[1..]);
      var ls, rest := Lines(s), Lines(s[1..]);
      assert s == [s[0]] + s[1..];
      if s[0] == '\n' {
        assert ls[1..] == rest;
      } else {
        assert ls[1..] == rest[1..] && ls[0] == [s[0]] + rest[0];
      }
    }
  }

  /** Escaping puts a backslash and an n between the lines of a text and changes nothing else. */
  lemma {:induction false} EscapeJoinsLines(s: string)
    ensures EscapeNewlines(s) == Join(Lines(s), "\\n")
  {
    if s != "" {
      EscapeJoinsLines(s[1..]);
      var ls, rest := Lines(s), Lines(s[1..]);
      if s[0] == '\n' {
        assert ls[1..] == rest;
      } else {
        assert ls[1..] == rest[1..];
        assert ls[0] == [s[0]] + rest[0];
      }
    }
  }
}
