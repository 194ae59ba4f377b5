/** How eval_file cuts the trapped exit message out of a compilation error. */
module ErrorText {
  import opened Decimal


  /** Perl's idea of a true string. */
  predicate True(s: string) { s != "" && s != "0" }

  predicate Space(c: char) { c == ' ' || 9 <= c as int <= 13 }

  /** How many characters at the front satisfy `p`. */
  function Leading(s: string, p: char -> bool): (n: nat)
    ensures n <= |s|
  {
    if s != "" && p(s[0]) then 1 + Leading(s[1..], p) else 0
  }

  /** Length of a match of line\s+\d+\. at the front; 0 for none. The three
      parts have no character in common, so there is nothing to try again. */
  function LineNumber(s: string): (n: nat)
    ensures n <= |s| && (n > 0 ==> s[n - 1] == '.')
  {
    if !("line" <= s) then 0
    else
      var spaces := Leading(s[4..], Space);
      var digits := Leading(s[4 + spaces..], Digit);
      var dot := 4 + spaces + digits;
      if spaces > 0 && digits > 0 && dot < |s| && s[dot] == '.' then dot + 1 else 0
  }

  /** Length of the shortest match of .*?line\s+\d+\. at the front; 0 for none.
      The dot matches no newline. */
  function UpToLineNumber(s: string): (n: nat)
    ensures n <= |s| && (n > 0 ==> s[n - 1] == '.')
  {
    if LineNumber(s) > 0 then LineNumber(s)
    else if s == "" || s[0] == '\n' then 0
    else
      var n := UpToLineNumber(s[1..]);
      if n > 0 then n + 1 else 0
  }

  const TRAP := "ExitTrap:"

  /** Length of the exit message at the front; 0 for none. */
  function ExitMessage(s: string): (n: nat)
    ensures n <= |s| && (n > 0 ==> s[n - 1] == '.')
  {
    if TRAP <= s && UpToLineNumber(s[|TRAP|..]) > 0 then |TRAP| + UpToLineNumber(s[|TRAP|..]) else 0
  }

  /** s/^ExitTrap:.*?line\s+\d+\.//gmx; a match must begin a line. */
  function Cut(s: string, lineStart: bool): string
    decreases |s|
  {
    if s == "" then ""
    else if lineStart && ExitMessage(s) > 0 then Cut(s[ExitMessage(s)..], false)
    else [s[0]] + Cut(s[1..], s[0] == '\n')
  }

  function Cleaned(error: string): string {
    Cut(error, true)
  }

  predicate Finished(s: string) { s != "" && s[|s| - 1] == '\n' }

  lemma {:induction false} CutKeepsEnd(s: string, lineStart: bool)
    requires Finished(s)
    ensures Finished(Cut(s, lineStart))
    decreases |s|
  {
    if lineStart && ExitMessage(s) > 0 {
      assert ExitMessage(s) < |s|;
      CutKeepsEnd(s[ExitMessage(s)..], false);
    } else if |s| > 1 {
      CutKeepsEnd(s[1..], s[0] == '\n');
    }
  }

  /** An error with a newline at its end, as die makes it, stays true: no match reaches that newline. */
  lemma FinishedStaysTrue(error: string)
    requires Finished(error)
    ensures True(Cleaned(error))
  {
    CutKeepsEnd(error, true);
  }

  /** An error without exit message at the start of a line stays as it is. */
  lemma {:induction false} NothingToCut(s: string, lineStart: bool)
    requires forall i :: 0 <= i <= |s| ==> !(TRAP <= s[i..])
    ensures Cut(s, lineStart) == s
    decreases |s|
  {
    if s != "" {
      assert s[0..] == s;
      forall i | 0 <= i <= |s[1..]| ensures !(TRAP <= s[1..][i..]) {
        assert s[1..][i..] == s[i + 1..];
      }
      NothingToCut(s[1..], s[0] == '\n');
      assert [s[0]] + s[1..] == s;
    }
  }

  // ---- what the pattern says ----

  predicate All(s: string, p: char -> bool) {
    forall i :: 0 <= i < |s| ==> p(s[i])
  }

  /** A match of line\s+\d+\. with these parts. */
  predicate IsLineNumber(s: string, spaces: string, digits: string) {
    && s == "line" + (spaces + (digits + "."))
    && spaces != "" && All(spaces, Space) && digits != "" && All(digits, Digit)
  }

  /** A match of ExitTrap:.*?line\s+\d+\. with these parts. */
  predicate IsMessage(s: string, text: string, spaces: string, digits: string) {
    && |s| >= |TRAP| + |text| && s[..|TRAP|] == TRAP && s[|TRAP|..|TRAP| + |text|] == text && '\n' !in text
    && IsLineNumber(s[|TRAP| + |text|..], spaces, digits)
  }

  lemma {:induction false} LeadingSplits(s: string, p: char -> bool)
    ensures All(s[..Leading(s, p)], p)
    ensures Leading(s, p) < |s| ==> !p(s[Leading(s, p)])
  {
    if s != "" && p(s[0]) {
      LeadingSplits(s[1..], p);
      assert s[..Leading(s, p)] == [s[0]] + s[1..][..Leading(s[1..], p)];
    }
  }

  lemma {:induction false} LeadingOf(front: string, rest: string, p: char -> bool)
    requires All(front, p) && rest != "" && !p(rest[0])
    ensures Leading(front + rest, p) == |front|
  {
    if front == "" {
      assert front + rest == rest;
    } else {
      LeadingOf(front[1..], rest, p);
      assert (front + rest)[1..] == front[1..] + rest;
    }
  }

  lemma LineNumberIs(s: string) returns (spaces: string, digits: string)
    requires LineNumber(s) > 0
    ensures IsLineNumber(s[..LineNumber(s)], spaces, digits)
  {
    hide Leading, All;
    var m := Leading(s[4..], Space);
    var n := Leading(s[4 + m..], Digit);
    LeadingSplits(s[4..], Space);
    LeadingSplits(s[4 + m..], Digit);
    spaces, digits := s[4..][..m], s[4 + m..][..n];
    FourParts(s, m, n);
  }

  lemma FourParts(s: string, m: nat, n: nat)
    requires 4 + m + n + 1 <= |s| && "line" <= s && s[4 + m + n] == '.'
    ensures s[..4 + m + n + 1] == "line" + (s[4..][..m] + (s[4 + m..][..n] + "."))
  {
    assert s[4..][..m] == s[4..4 + m] && s[4 + m..][..n] == s[4 + m..4 + m + n];
    assert s[4 + m + n..4 + m + n + 1] == ".";
    assert s[..4] == "line";
  }

  lemma LineNumberFound(number: string, spaces: string, digits: string, rest: string)
    requires IsLineNumber(number, spaces, digits)
    ensures LineNumber(number + rest) == |number|
  {
    hide Leading;
    var s, end := number + rest, "." + rest;
    assert s == "line" + (spaces + (digits + end));
    assert s[4..] == spaces + (digits + end);
    LeadingOf(spaces, digits + end, Space);
    assert s[4 + |spaces|..] == digits + end;
    LeadingOf(digits, end, Digit);
  }

  /** No dot before the one at the end. */
  lemma OneDot(number: string, spaces: string, digits: string)
    requires IsLineNumber(number, spaces, digits)
    ensures forall i :: 0 <= i < |number| - 1 ==> number[i] != '.'
  {
    var n := |spaces|;
    forall i | 0 <= i < |number| - 1 ensures number[i] != '.' {
      if i >= 4 {
        assert number[i] == (spaces + (digits + "."))[i - 4];
      }
    }
  }

  lemma {:induction false} UpToIs(s: string) returns (text: string, spaces: string, digits: string)
    requires UpToLineNumber(s) > 0
    ensures '\n' !in text && |text| <= UpToLineNumber(s) && s[..|text|] == text
    ensures IsLineNumber(s[|text|..UpToLineNumber(s)], spaces, digits)
  {
    hide LineNumber, IsLineNumber;
    if LineNumber(s) > 0 {
      text := "";
      spaces, digits := LineNumberIs(s);
      assert s[0..LineNumber(s)] == s[..LineNumber(s)];
    } else {
      text, spaces, digits := UpToIs(s[1..]);
      var n := |text|;
      assert s[1..][n..UpToLineNumber(s[1..])] == s[n + 1..UpToLineNumber(s)];
      assert s[..n + 1] == [s[0]] + s[1..][..n];
      text := [s[0]] + text;
    }
  }

  lemma {:induction false} UpToFound(text: string, number: string, spaces: string, digits: string, rest: string)
    requires '\n' !in text && IsLineNumber(number, spaces, digits)
    ensures 0 < UpToLineNumber(text + (number + rest)) <= |text| + |number|
  {
    hide LineNumber, IsLineNumber;
    var s := text + (number + rest);
    if text == "" {
      assert s == number + rest;
      LineNumberFound(number, spaces, digits, rest);
      NotEmpty(number, spaces, digits);
    } else if LineNumber(s) > 0 {
      FirstDot(text, number, spaces, digits, rest);
    } else {
      UpToFound(text[1..], number, spaces, digits, rest);
      assert s[1..] == text[1..] + (number + rest);
    }
  }

  lemma NotEmpty(number: string, spaces: string, digits: string)
    requires IsLineNumber(number, spaces, digits)
    ensures number != "" && number[|number| - 1] == '.'
  {
  }

  /** A match at the front ends with the first dot, so not behind a later match. */
  lemma FirstDot(text: string, number: string, spaces: string, digits: string, rest: string)
    requires IsLineNumber(number, spaces, digits) && LineNumber(text + (number + rest)) > 0
    ensures LineNumber(text + (number + rest)) <= |text| + |number|
  {
    hide LineNumber, IsLineNumber;
    var s := text + (number + rest);
    var spaces', digits' := LineNumberIs(s);
    OneDot(s[..LineNumber(s)], spaces', digits');
    NotEmpty(number, spaces, digits);
    var end := |text| + |number| - 1;
    assert s[end] == number[|number| - 1] == '.';
    assert end < LineNumber(s) ==> s[..LineNumber(s)][end] == '.';
  }

  /** What is cut is a match of the pattern. */
  lemma MessageIs(s: string) returns (text: string, spaces: string, digits: string)
    requires ExitMessage(s) > 0
    ensures IsMessage(s[..ExitMessage(s)], text, spaces, digits)
  {
    hide UpToLineNumber, IsLineNumber;
    var tail := s[|TRAP|..];
    text, spaces, digits := UpToIs(tail);
    var found := s[..ExitMessage(s)];
    assert found[|TRAP|..|TRAP| + |text|] == tail[..|text|];
    SlicesOfTail(s, |TRAP|, |text|, UpToLineNumber(tail));
  }

  lemma SlicesOfTail(s: string, a: nat, b: nat, c: nat)
    requires b <= c && a + c <= |s|
    ensures s[..a + c][a + b..] == s[a..][b..c]
  {
  }

  /** Every match is found, and none that is cut is longer than another one. */
  lemma MessageFound(s: string, n: nat, text: string, spaces: string, digits: string)
    requires n <= |s| && IsMessage(s[..n], text, spaces, digits)
    ensures 0 < ExitMessage(s) <= n
  {
    hide UpToLineNumber, IsLineNumber;
    var found, tail := s[..n], s[|TRAP|..];
    var number := found[|TRAP| + |text|..];
    UpToFound(text, number, spaces, digits, s[n..]);
    assert tail == text + (number + s[n..]);
  }

  /** Everything up to the first newline, with it. */
  function FirstLine(s: string): (line: string)
    ensures line <= s && (s != "" ==> line != "")
  {
    if s == "" || s[0] == '\n' then s[..if s == "" then 0 else 1] else [s[0]] + FirstLine(s[1..])
  }

  lemma {:induction false} WithinLine(s: string)
    ensures Cut(s, false) == FirstLine(s) + Cut(s[|FirstLine(s)|..], true)
    decreases |s|
  {
    hide ExitMessage;
    if s != "" && s[0] != '\n' {
      WithinLine(s[1..]);
      assert s[1..][|FirstLine(s[1..])|..] == s[|FirstLine(s)|..];
    }
  }

  /** Line by line: a message at the front of a line goes, and the rest of its last line stays. */
  lemma CleanedByLines(s: string)
    ensures var kept := s[ExitMessage(s)..];
      Cleaned(s) == FirstLine(kept) + Cleaned(kept[|FirstLine(kept)|..])
  {
    hide ExitMessage;
    var kept := s[ExitMessage(s)..];
    WithinLine(kept);
    if ExitMessage(s) == 0 && s != "" {
      assert kept == s;
    }
  }

  /** An exit message and nothing else, not even a newline, is cut away completely. */
  lemma BareMessageVanishes()
    ensures Cleaned("ExitTrap: line 1.") == ""
  {
    hide UpToLineNumber, LineNumber, Leading;
    var s := "ExitTrap: line 1.";
    assert s[9..] == " line 1.";
    BareTail();
    assert TRAP <= s;
    assert s[17..] == "";
  }

  lemma BareTail()
    ensures UpToLineNumber(" line 1.") == 8
  {
    hide Leading;
    var s := " line 1.";
    BareLine();
    assert s[1..] == "line 1.";
    assert s[0] != "line"[0];
    assert LineNumber(s) == 0;
  }

  lemma BareLine()
    ensures LineNumber("line 1.") == 7
  {
    var s := "line 1.";
    assert s[4..] == " 1." && " 1."[1..] == "1." && s[5..] == "1." && "1."[1..] == ".";
    assert Leading("1.", Space) == 0 && Leading(".", Digit) == 0;
    assert Leading(" 1.", Space) == 1 && Leading("1.", Digit) == 1;
  }
}
