/** What the worker reads out of the text of a job. */
module JobRequests {
  import opened Text
  import opened Crypt
  import opened Outcomes
  import opened WireFormat
  import opened WireRoundTrip

  /** The value of the last line with this key, without outer blanks; empty if there is none. */
  function LastValue(lines: seq<string>, key: string): string {
    if lines == [] then ""
    else
      var last := lines[|lines| - 1];
      if KeyOf(last, key) then Trim(SplitPair(last).value.1) else LastValue(lines[..|lines| - 1], key)
  }

  lemma {:induction false} GetIsLast(lines: seq<string>, key: string)
    ensures Get(StoreAll(map[], lines), key) == LastValue(lines, key)
  {
    if lines != [] {
      hide StoreAll, Store, Get, KeyOf, SplitPair, Trim;
      var n := |lines| - 1;
      GetIsLast(lines[..n], key);
      StoreAppend(map[], lines[..n], [lines[n]]);
      assert lines == lines[..n] + [lines[n]];
      StoreLast(StoreAll(map[], lines[..n]), lines[n]);
      GetStep(StoreAll(map[], lines[..n]), lines[n], key);
    } else {
      assert StoreAll(map[], lines) == map[];
    }
  }

  lemma GetStep(m: map<string, string>, line: string, key: string)
    ensures Get(Store(m, line), key) == if KeyOf(line, key) then Trim(SplitPair(line).value.1) else Get(m, key)
  {
    hide SplitPair, Trim;
  }

  lemma StoreLast(m: map<string, string>, line: string)
    ensures StoreAll(m, [line]) == Store(m, line)
  {
    assert [line][1..] == [];
  }

  /** A field gives its own key its value, and no other key any. */
  lemma FieldKey(key: string, value: string, other: string)
    requires KeyText(key)
    ensures KeyOf(Field(key, value), other) <==> other == key
    ensures SplitPair(Field(key, value)) == Some((key, value))
  {
    SplitField(key, value);
  }

  /** In whatever order the fields of a job stand, a key has the value of its last field. */
  lemma {:induction false} LastFieldWins(lines: seq<string>, key: string, value: string, i: nat)
    requires i < |lines| && lines[i] == Field(key, value) && KeyText(key)
    requires forall k :: i < k < |lines| ==> !KeyOf(lines[k], key)
    ensures LastValue(lines, key) == Trim(value)
  {
    hide KeyText;
    FieldKey(key, value, key);
    if i < |lines| - 1 {
      LastFieldWins(lines[..|lines| - 1], key, value, i);
    }
  }

  lemma {:induction false} NoFieldEmpty(lines: seq<string>, key: string)
    requires forall k :: 0 <= k < |lines| ==> !KeyOf(lines[k], key)
    ensures LastValue(lines, key) == ""
  {
    if lines != [] {
      NoFieldEmpty(lines[..|lines| - 1], key);
    }
  }

  /** The ten members of a request, each from its own key. */
  predicate IsRequestOf(codec: Codec, r: Request, lines: seq<string>) {
    && r.typ == LastValue(lines, "type")
    && r.resultQueue == LastValue(lines, "result_queue")
    && r.targetQueue == LastValue(lines, "target_queue")
    && r.hostName == LastValue(lines, "host_name")
    && r.serviceDescription == LastValue(lines, "service_description")
    && r.commandLine == LastValue(lines, "command_line")
    && r.startTime == TimeIn(codec, LastValue(lines, "start_time"))
    && r.coreTime == TimeIn(codec, LastValue(lines, "core_time"))
    && r.nextCheck == TimeIn(codec, LastValue(lines, "next_check"))
    && r.timeout == NumberIn(codec, LastValue(lines, "timeout"))
  }

  function TimeIn(codec: Codec, value: string): real {
    if codec.parseFloat(value).Some? then codec.parseFloat(value).value else 0.0
  }

  function NumberIn(codec: Codec, value: string): int {
    if value == "" then 0
    else if codec.parseInt(value).Some? then codec.parseInt(value).value
    else
      var x := TimeIn(codec, value);
      if x < 0.0 then -((-x).Floor) else x.Floor
  }

  /** Any text: without its mark at the front it is rejected, and else each member
      is the value of the last line with its own key, empty or zero without one. */
  lemma ReceivedFields(codec: Codec, text: string)
    ensures CreateReceived(codec, text).Ok? <==> "type=" <= text
    ensures "type=" <= text ==> IsRequestOf(codec, CreateReceived(codec, text).value, Lines(text))
  {
    hide StoreAll, Lines, LastValue;
    var lines := Lines(text);
    GetIsLast(lines, "type");
    GetIsLast(lines, "result_queue");
    GetIsLast(lines, "target_queue");
    GetIsLast(lines, "host_name");
    GetIsLast(lines, "service_description");
    GetIsLast(lines, "command_line");
    GetIsLast(lines, "start_time");
    GetIsLast(lines, "core_time");
    GetIsLast(lines, "next_check");
    GetIsLast(lines, "timeout");
  }

  lemma NoValueIsZero(codec: Codec)
    requires Works(codec)
    ensures TimeIn(codec, "") == 0.0 && NumberIn(codec, "") == 0
  {
  }

  // ---- through the wire ----

  function JobWire(codec: Codec, lines: seq<string>, encryption: bool): string {
    codec.encode(Encrypted(codec.cipher, Unlines(lines), encryption))
  }

  predicate JobLines(lines: seq<string>) {
    AllOneLine(lines) && lines != [] && "type=" <= lines[0]
  }

  lemma {:induction false} BlanksAreNoFields(lines: seq<string>, blanks: seq<string>, key: string)
    requires forall i :: 0 <= i < |blanks| ==> blanks[i] == ""
    ensures LastValue(lines + blanks, key) == LastValue(lines, key)
  {
    if blanks == [] {
      assert lines + blanks == lines;
    } else {
      var n := |blanks| - 1;
      BlanksAreNoFields(lines, blanks[..n], key);
      assert (lines + blanks)[..|lines + blanks| - 1] == lines + blanks[..n];
    }
  }

  lemma SameRequest(codec: Codec, r: Request, lines: seq<string>, blanks: seq<string>)
    requires forall i :: 0 <= i < |blanks| ==> blanks[i] == ""
    ensures IsRequestOf(codec, r, lines + blanks) <==> IsRequestOf(codec, r, lines)
  {
    hide LastValue, TimeIn, NumberIn;
    forall key ensures LastValue(lines + blanks, key) == LastValue(lines, key) {
      BlanksAreNoFields(lines, blanks, key);
    }
  }

  lemma StartsLikeFirst(lines: seq<string>, rest: string)
    requires JobLines(lines)
    ensures "type=" <= Unlines(lines) + rest
  {
    var text := Unlines(lines) + rest;
    assert text[..5] == lines[0][..5];
  }

  /** An encrypted job, its fields in any order behind the first: every member arrives. */
  lemma EncryptedJob(codec: Codec, lines: seq<string>)
    requires Works(codec) && JobLines(lines)
    ensures DecryptJobData(codec, JobWire(codec, lines, true), true).Ok?
    ensures IsRequestOf(codec, DecryptJobData(codec, JobWire(codec, lines, true), true).value, lines)
  {
    hide IsRequestOf, CreateReceived, Unlines, Lines, Blockwise, JobLines;
    var text := Unlines(lines);
    var padding := Newlines(Missing(|text|));
    DecryptEncrypted(codec.cipher, text);
    assert DecryptJobData(codec, JobWire(codec, lines, true), true) == CreateReceived(codec, text + padding);
    StartsLikeFirst(lines, padding);
    ReceivedFields(codec, text + padding);
    OneLines(lines);
    LinesOfUnlines(lines, padding);
    LinesOfNewlines(Missing(|text|));
    SameRequest(codec, CreateReceived(codec, text + padding).value, lines, Lines(padding));
  }

  lemma OneLines(lines: seq<string>)
    requires JobLines(lines)
    ensures forall i :: 0 <= i < |lines| ==> OneLine(lines[i])
  {
  }

  // ---- without encryption ----

  predicate StartsAsJob(lines: seq<string>) {
    lines != [] && "type=" <= lines[0]
  }

  /** What is left of the lines of a job once the white space at its end is cut:
      lines of nothing else go, and the last one that stays ends where it does. */
  function Kept(lines: seq<string>): (kept: seq<string>)
    requires StartsAsJob(lines)
    ensures StartsAsJob(kept)
  {
    var n := |lines| - 1;
    if n == 0 then
      MarkStays(lines[0]);
      [TrimEnd(lines[0])]
    else if TrimEnd(lines[n]) == "" then Kept(lines[..n])
    else lines[..n] + [TrimEnd(lines[n])]
  }

  lemma {:induction false} MarkStays(s: string)
    requires "type=" <= s
    ensures "type=" <= TrimEnd(s)
  {
    assert s == "type=" + s[5..];
    TrimEndAppend("type=", s[5..]);
    EqualsStays("type=");
  }

  lemma NothingToCut(lines: seq<string>)
    requires StartsAsJob(lines) && lines[|lines| - 1] != "" && SpaceAtEnd(lines[|lines| - 1]) == 0
    ensures Kept(lines) == lines
  {
    hide SpaceAtEnd;
    var n := |lines| - 1;
    assert TrimEnd(lines[n]) == lines[n] && lines == lines[..n] + [lines[n]];
  }

  /** The text of a job is trimmed to the kept lines, without a last newline. */
  lemma {:induction false} TrimmedJob(lines: seq<string>)
    requires StartsAsJob(lines)
    ensures var kept := Kept(lines);
      TrimEnd(Unlines(lines)) == Unlines(kept[..|kept| - 1]) + kept[|kept| - 1]
  {
    hide SpaceAtEnd, TrimEnd, Unlines;
    var n := |lines| - 1;
    var front, last := Unlines(lines[..n]), lines[n];
    LastUnline(lines);
    NewlineIsTrimmed(front + last);
    if n == 0 {
      NoUnlines(lines[0]);
      NoUnlines(Kept(lines)[0]);
    } else {
      EndsInNewline(lines[..n]);
      TrimEndAppend(front, last);
      if TrimEnd(last) == "" {
        TrimmedJob(lines[..n]);
      } else {
        assert (lines[..n] + [TrimEnd(last)])[..n] == lines[..n];
      }
    }
  }

  lemma NoUnlines(line: string)
    ensures Unlines([line][..0]) + line == line
  {
  }

  lemma LastUnline(lines: seq<string>)
    requires lines != []
    ensures var n := |lines| - 1;
      Unlines(lines) == (Unlines(lines[..n]) + lines[n]) + "\n"
  {
    hide Unlines;
    var n := |lines| - 1;
    assert lines == lines[..n] + [lines[n]];
    UnlinesAppend(lines[..n], [lines[n]]);
    OneUnline(lines[n]);
    Associate(Unlines(lines[..n]), lines[n], "\n");
  }

  lemma {:induction false} EndsInNewline(lines: seq<string>)
    requires lines != []
    ensures Unlines(lines) != "" && Unlines(lines)[|Unlines(lines)| - 1] == '\n'
  {
    if |lines| > 1 {
      EndsInNewline(lines[1..]);
    }
  }

  lemma {:induction false} KeptOneLines(lines: seq<string>)
    requires StartsAsJob(lines) && AllOneLine(lines)
    ensures AllOneLine(Kept(lines))
  {
    hide TrimEnd, OneLine;
    var n := |lines| - 1;
    FrontOfLine(lines[n]);
    if n > 0 && TrimEnd(lines[n]) == "" {
      KeptOneLines(lines[..n]);
    }
  }

  lemma FrontOfLine(s: string)
    requires OneLine(s)
    ensures OneLine(TrimEnd(s))
  {
    hide TrimEnd;
    var r := TrimEnd(s);
    assert r == s[..|r|];
  }

  /** The same for every job that is not encrypted, as far as it is kept; that is
      all of it if its last line does not end in white space. */
  lemma PlainJob(codec: Codec, lines: seq<string>)
    requires Works(codec) && JobLines(lines)
    ensures DecryptJobData(codec, JobWire(codec, lines, false), false).Ok?
    ensures IsRequestOf(codec, DecryptJobData(codec, JobWire(codec, lines, false), false).value, Kept(lines))
    ensures lines[|lines| - 1] != "" && SpaceAtEnd(lines[|lines| - 1]) == 0 ==> Kept(lines) == lines
  {
    hide IsRequestOf, CreateReceived, Unlines, Lines, TrimStart, TrimEnd, SpaceAtEnd, AllOneLine, Kept;
    var kept := Kept(lines);
    var n := |kept| - 1;
    var text := Unlines(kept[..n]) + kept[n];
    StartsLikeFirst(lines, "");
    assert Unlines(lines) + "" == Unlines(lines);
    LetterStays(Unlines(lines));
    TrimmedJob(lines);
    assert DecryptJobData(codec, JobWire(codec, lines, false), false) == CreateReceived(codec, text);
    KeptOneLines(lines);
    LinesOfKept(kept);
    ReceivedFields(codec, text);
    if lines[|lines| - 1] != "" && SpaceAtEnd(lines[|lines| - 1]) == 0 {
      NothingToCut(lines);
    }
  }

  lemma LinesOfKept(kept: seq<string>)
    requires StartsAsJob(kept) && AllOneLine(kept)
    ensures var text := Unlines(kept[..|kept| - 1]) + kept[|kept| - 1];
      "type=" <= text && Lines(text) == kept
  {
    hide Unlines, Lines;
    var n := |kept| - 1;
    LinesOfUnlines(kept[..n], kept[n]);
    LinesOfOneLine(kept[n]);
    assert kept[..n] + [kept[n]] == kept;
    PlainStart(kept);
  }

  lemma PlainStart(lines: seq<string>)
    requires StartsAsJob(lines) && AllOneLine(lines)
    ensures "type=" <= Unlines(lines[..|lines| - 1]) + lines[|lines| - 1]
  {
    var n := |lines| - 1;
    if n > 0 {
      StartsLikeFirst(lines[..n], lines[n]);
    } else {
      assert Unlines(lines[..n]) + lines[n] == lines[0];
    }
  }
}
