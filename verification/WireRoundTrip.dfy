/** Decoding what createAnswer encoded. */
module WireRoundTrip {
  import opened Text
  import opened Crypt
  import opened Outcomes
  import opened WireFormat
  import Decimal

  // ---- storing lines ----

  lemma {:induction false} StoreAppend(m: map<string, string>, a: seq<string>, b: seq<string>)
    ensures StoreAll(m, a + b) == StoreAll(StoreAll(m, a), b)
    decreases |a|
  {
    if a == [] {
      assert a + b == b;
    } else {
      StoreAppend(Store(m, a[0]), a[1..], b);
      assert (a + b)[1..] == a[1..] + b;
    }
  }

  lemma {:induction false} StoreBlanks(m: map<string, string>, lines: seq<string>)
    requires forall i :: 0 <= i < |lines| ==> lines[i] == ""
    ensures StoreAll(m, lines) == m
    decreases |lines|
  {
    if lines != [] {
      StoreBlanks(m, lines[1..]);
    }
  }

  predicate KeyText(key: string) {
    '=' !in key && Trimmed(key)
  }

  lemma StoreField(m: map<string, string>, key: string, value: string)
    requires KeyText(key)
    ensures Store(m, Field(key, value)) == m[key := Trim(value)]
    ensures StoreAll(m, [Field(key, value)]) == m[key := Trim(value)]
  {
    SplitField(key, value);
    assert [Field(key, value)][1..] == [];
  }

  lemma TrimUpdate(m: map<string, string>, key: string, value: string)
    ensures TrimValues(m)[key := Trim(value)] == TrimValues(m[key := value])
  {
    hide Trim;
  }

  /** One more field at the end of a list of lines whose map is known. */
  lemma OneMoreField(lines: seq<string>, known: map<string, string>, key: string, value: string)
    requires KeyText(key) && StoreAll(map[], lines) == TrimValues(known)
    ensures StoreAll(map[], lines + [Field(key, value)]) == TrimValues(known[key := value])
  {
    hide StoreAll, Field, TrimValues;
    StoreAppend(map[], lines, [Field(key, value)]);
    StoreField(TrimValues(known), key, value);
    TrimUpdate(known, key, value);
  }

  lemma HeadMap(a: Answer)
    ensures StoreAll(map[], HeadLines(a)) == TrimValues(map["type" := a.active, "host_name" := a.hostName])
  {
    hide StoreAll, Field, Trim;
    assert StoreAll(map[], []) == TrimValues(map[]) by { NothingStored(); }
    OneMoreField([], map[], "type", a.active);
    OneMoreField([] + [Field("type", a.active)], map["type" := a.active], "host_name", a.hostName);
    assert HeadLines(a) == [] + [Field("type", a.active)] + [Field("host_name", a.hostName)];
    assert map["type" := a.active]["host_name" := a.hostName] == map["type" := a.active, "host_name" := a.hostName];
  }

  lemma NothingStored()
    ensures StoreAll(map[], []) == TrimValues(map[])
  {
    assert TrimValues(map[]) == map[];
  }

  function WithOptional(codec: Codec, a: Answer): map<string, string> {
    var head := map["type" := a.active, "host_name" := a.hostName];
    var service := if a.serviceDescription != "" then head["service_description" := a.serviceDescription] else head;
    if a.coreStartTime > 0.0 then service["core_start_time" := codec.float(a.coreStartTime)] else service
  }

  lemma OptionalMap(codec: Codec, a: Answer)
    ensures StoreAll(map[], HeadLines(a) + OptionalLines(codec, a)) == TrimValues(WithOptional(codec, a))
  {
    hide StoreAll, Field, Trim, HeadLines, TrimValues;
    HeadMap(a);
    var known := map["type" := a.active, "host_name" := a.hostName];
    var lines := HeadLines(a);
    if a.serviceDescription != "" {
      OneMoreField(lines, known, "service_description", a.serviceDescription);
      lines := lines + [Field("service_description", a.serviceDescription)];
      known := known["service_description" := a.serviceDescription];
    }
    if a.coreStartTime > 0.0 {
      OneMoreField(lines, known, "core_start_time", codec.float(a.coreStartTime));
      lines := lines + [Field("core_start_time", codec.float(a.coreStartTime))];
    }
    assert lines == HeadLines(a) + OptionalLines(codec, a);
  }

  lemma FrontMap(codec: Codec, a: Answer)
    ensures StoreAll(map[], FrontLines(codec, a)) == TrimValues(PrintedFront(codec, a))
  {
    hide StoreAll, Field, Trim, HeadLines, OptionalLines, TrimValues;
    OptionalMap(codec, a);
    var l0, m0 := HeadLines(a) + OptionalLines(codec, a), WithOptional(codec, a);
    OneMoreField(l0, m0, "start_time", codec.float(a.startTime));
    var l1, m1 := l0 + [Field("start_time", codec.float(a.startTime))], m0["start_time" := codec.float(a.startTime)];
    OneMoreField(l1, m1, "finish_time", codec.float(a.finishTime));
    var l2, m2 := l1 + [Field("finish_time", codec.float(a.finishTime))], m1["finish_time" := codec.float(a.finishTime)];
    OneMoreField(l2, m2, "return_code", Decimal.Itoa(a.returnCode));
    var l3, m3 := l2 + [Field("return_code", Decimal.Itoa(a.returnCode))], m2["return_code" := Decimal.Itoa(a.returnCode)];
    OneMoreField(l3, m3, "exited_ok", "1");
    var l4, m4 := l3 + [Field("exited_ok", "1")], m3["exited_ok" := "1"];
    OneMoreField(l4, m4, "source", a.source);
    assert l4 + [Field("source", a.source)] == FrontLines(codec, a);
  }

  // ---- printing as lines ----

  lemma PrintIsLines(codec: Codec, a: Answer)
    ensures Print(codec, a) == Unlines(FrontLines(codec, a)) + OutputLine(a) + "\n"
  {
    hide Field, Times, Rest, Optional, Unlines, HeadLines, TimeLines, RestLines, OptionalLines;
    UnlinesAppend(HeadLines(a) + OptionalLines(codec, a) + TimeLines(codec, a), RestLines(a));
    UnlinesAppend(HeadLines(a) + OptionalLines(codec, a), TimeLines(codec, a));
    UnlinesAppend(HeadLines(a), OptionalLines(codec, a));
    FixedLines(codec, a);
    OptionalIsLines(codec, a);
    var o, rest := Optional(codec, a), Times(codec, a) + Rest(a) + OutputLine(a) + "\n";
    var head := Field("type", a.active) + "\n" + Field("host_name", a.hostName);
    assert Print(codec, a) == head + (o + "\n") + rest;
    assert head + ("\n" + Unlines(OptionalLines(codec, a))) + rest
        == (head + "\n") + Unlines(OptionalLines(codec, a)) + rest;
  }

  lemma FixedLines(codec: Codec, a: Answer)
    ensures Unlines(HeadLines(a)) == Field("type", a.active) + "\n" + Field("host_name", a.hostName) + "\n"
    ensures Unlines(TimeLines(codec, a)) == Times(codec, a)
    ensures Unlines(RestLines(a)) == Rest(a)
  {
    hide Field, Unlines;
    UnlinesTwo(Field("type", a.active), Field("host_name", a.hostName));
    UnlinesTwo(Field("start_time", codec.float(a.startTime)), Field("finish_time", codec.float(a.finishTime)));
    UnlinesThree(Field("return_code", Decimal.Itoa(a.returnCode)), Field("exited_ok", "1"), Field("source", a.source));
  }

  lemma UnlinesTwo(a: string, b: string)
    ensures Unlines([a, b]) == a + "\n" + b + "\n"
  {
    assert [a, b][1..] == [b] && [b][1..] == [];
    assert Unlines([b]) == b + "\n" + "";
  }

  lemma UnlinesThree(a: string, b: string, c: string)
    ensures Unlines([a, b, c]) == a + "\n" + b + "\n" + c + "\n"
  {
    assert [a, b, c][1..] == [b, c];
    UnlinesTwo(b, c);
  }

  /** The optional fields bring their newline in front of them. */
  lemma OptionalIsLines(codec: Codec, a: Answer)
    ensures Optional(codec, a) + "\n" == "\n" + Unlines(OptionalLines(codec, a))
  {
    hide Field;
    var s, c := Field("service_description", a.serviceDescription), Field("core_start_time", codec.float(a.coreStartTime));
    UnlinesTwo(s, c);
    assert Unlines([s]) == s + "\n" by { assert [s][1..] == []; }
    assert Unlines([c]) == c + "\n" by { assert [c][1..] == []; }
  }

  // ---- one-line fields make one-line lines ----

  predicate AllOneLine(lines: seq<string>) {
    forall i :: 0 <= i < |lines| ==> OneLine(lines[i])
  }

  function OneLiner(): string -> bool {
    (s: string) => OneLine(s)
  }

  lemma FieldOneLine(key: string, value: string)
    requires OneLine(key) && OneLine(value)
    ensures OneLine(Field(key, value))
  {
  }

  lemma {:induction false} NumbersOneLine(n: int)
    ensures OneLine(Decimal.Itoa(n)) && Trimmed(Decimal.Itoa(n))
  {
    if n < 0 {
      assert Decimal.Digits(Decimal.DigitsOf(-n));
    } else {
      assert Decimal.Digits(Decimal.DigitsOf(n));
    }
  }

  lemma FrontOneLine(codec: Codec, a: Answer)
    requires OnFields(codec, a, OneLiner())
    ensures AllOneLine(FrontLines(codec, a))
  {
    hide Field;
    FieldOneLine("type", a.active);
    FieldOneLine("host_name", a.hostName);
    if a.serviceDescription != "" {
      FieldOneLine("service_description", a.serviceDescription);
    }
    if a.coreStartTime > 0.0 {
      FieldOneLine("core_start_time", codec.float(a.coreStartTime));
    }
    FieldOneLine("start_time", codec.float(a.startTime));
    FieldOneLine("finish_time", codec.float(a.finishTime));
    NumbersOneLine(a.returnCode);
    FieldOneLine("return_code", Decimal.Itoa(a.returnCode));
    FieldOneLine("exited_ok", "1");
    FieldOneLine("source", a.source);
    assert AllOneLine(HeadLines(a)) && AllOneLine(OptionalLines(codec, a));
    assert AllOneLine(TimeLines(codec, a)) && AllOneLine(RestLines(a));
  }

  /** A printed answer with any blank lines behind it gives the printed map, trimmed. */
  lemma MapOfText(codec: Codec, a: Answer, value: string, rest: string)
    requires OnFields(codec, a, OneLiner()) && OneLine(value)
    requires forall i :: 0 <= i < |Lines(rest)| ==> Lines(rest)[i] == ""
    ensures StoreAll(map[], Lines(Unlines(FrontLines(codec, a)) + Field("output", value) + "\n" + rest))
         == TrimValues(PrintedFront(codec, a)["output" := value])
  {
    hide StoreAll, Field, FrontLines, PrintedFront, Unlines, TrimValues, OnFields;
    var front, last := FrontLines(codec, a), Field("output", value);
    FrontOneLine(codec, a);
    FieldOneLine("output", value);
    LinesPrefix(last, rest);
    LinesOfUnlines(front, last + "\n" + rest);
    assert Unlines(front) + last + "\n" + rest == Unlines(front) + (last + "\n" + rest);
    StoreAppend(map[], front + [last], Lines(rest));
    StoreBlanks(StoreAll(map[], front + [last]), Lines(rest));
    assert front + ([last] + Lines(rest)) == (front + [last]) + Lines(rest);
    FrontMap(codec, a);
    OneMoreField(front, PrintedFront(codec, a), "output", value);
  }

  // ---- the received map ----

  /** The map the receiver makes of a wire message. */
  function Received(codec: Codec, wire: string, encryption: bool): Result<map<string, string>> {
    match PlainText(codec, wire, encryption)
    case Error(e) => Error(e)
    case Ok(text) => Ok(StoreAll(map[], Lines(text)))
  }

  /** The encrypted round trip: every printed field arrives, trimmed; the output
      arrives in its escaped form; no other key arrives. */
  lemma EncryptedRoundTrip(codec: Codec, a: Answer)
    requires Works(codec) && OnFields(codec, a, OneLiner())
    ensures Received(codec, CreateAnswer(codec, a, true), true) == Ok(TrimValues(Printed(codec, a)))
  {
    hide Print, FrontLines, PrintedFront, OnFields, StoreAll, Field;
    var text := Print(codec, a);
    DecryptEncrypted(codec.cipher, text);
    PrintIsLines(codec, a);
    var n := Missing(|text|);
    LinesOfNewlines(n);
    MapOfText(codec, a, EscapeNewlines(a.output), Newlines(n));
  }

  // ---- without encryption ----

  /** Behind a byte of ASCII no white space character reaches further back. */
  lemma EndBehindAscii(s: string, t: string)
    requires s != "" && s[|s| - 1] as int < 0x80 && t != ""
    ensures SpaceAtEnd(s + t) == SpaceAtEnd(t)
  {
    hide SpaceRune;
    AsciiEnd(s, t, 1);
    AsciiEnd(s, t, 2);
    AsciiEnd(s, t, 3);
  }

  lemma AsciiEnd(s: string, t: string, k: nat)
    requires s != "" && s[|s| - 1] as int < 0x80 && t != "" && 1 <= k
    ensures k <= |s + t| && SpaceRune((s + t)[|s + t| - k..]) <==> k <= |t| && SpaceRune(t[|t| - k..])
  {
    hide SpaceRune;
    var u := s + t;
    if k <= |t| {
      assert u[|u| - k..] == t[|t| - k..];
    } else if k <= |u| {
      assert u[|u| - k..][k - |t| - 1] == s[|s| - 1];
      LongRunesAreNotAscii(u[|u| - k..], k - |t| - 1);
    }
  }

  lemma LongRunesAreNotAscii(s: string, i: nat)
    requires i < |s| && |s| > 1 && s[i] as int < 0x80
    ensures !SpaceRune(s)
  {
  }

  /** Trimming stops behind a byte of ASCII, unless nothing is left behind it. */
  lemma {:induction false} TrimEndAppend(s: string, t: string)
    requires s != "" && s[|s| - 1] as int < 0x80
    ensures TrimEnd(s + t) == if TrimEnd(t) == "" then TrimEnd(s) else s + TrimEnd(t)
    decreases |t|
  {
    hide SpaceAtEnd;
    if t == "" {
      assert s + t == s;
    } else {
      EndBehindAscii(s, t);
      var n := SpaceAtEnd(t);
      if n > 0 {
        assert (s + t)[..|s + t| - n] == s + t[..|t| - n];
        TrimEndAppend(s, t[..|t| - n]);
      }
    }
  }

  lemma EqualsStays(s: string)
    requires s != "" && s[|s| - 1] == '='
    ensures TrimEnd(s) == s
  {
    hide SpaceRune;
    var front, sign := s[..|s| - 1], s[|s| - 1..];
    assert sign[0] as int == 0x3D;
    NoSpaceWithEquals(s, 1);
    NoSpaceWithEquals(s, 2);
    NoSpaceWithEquals(s, 3);
  }

  lemma BehindEquals(s: string, t: string)
    requires s != "" && s[|s| - 1] == '='
    ensures TrimEnd(s + t) == s + TrimEnd(t)
  {
    hide TrimEnd;
    assert s[|s| - 1] as int == 0x3D;
    TrimEndAppend(s, t);
    EqualsStays(s);
    assert s + "" == s;
  }

  lemma NoSpaceWithEquals(s: string, k: nat)
    requires s != "" && s[|s| - 1] == '=' && 1 <= k <= 3
    ensures k <= |s| ==> !SpaceRune(s[|s| - k..])
  {
    if k <= |s| {
      assert s[|s| - k..][k - 1] as int == 0x3D;
    }
  }

  lemma NewlineIsTrimmed(s: string)
    ensures TrimEnd(s + "\n") == TrimEnd(s)
  {
    var t := s + "\n";
    assert t[|t| - 1..] == "\n" && t[..|t| - 1] == s;
    assert SpaceAtEnd(t) == 1;
  }

  lemma LetterStays(s: string)
    requires s != "" && s[0] == 't'
    ensures TrimStart(s) == s
  {
    assert s[..1] == "t";
    assert forall k :: 1 <= k <= |s| && k <= 3 ==> s[..k][0] == 't';
  }

  function BareOutput(a: Answer): (r: string)
    ensures r <= EscapeNewlines(a.output)
  {
    TrimEnd(EscapeNewlines(a.output))
  }

  lemma TrimmedPrint(codec: Codec, a: Answer)
    ensures TrimSpace(Print(codec, a)) == Unlines(FrontLines(codec, a)) + Field("output", BareOutput(a))
  {
    hide Times, Rest, Optional, FrontLines, EscapeNewlines, TrimStart, TrimEnd;
    var text, front, esc := Print(codec, a), Unlines(FrontLines(codec, a)), EscapeNewlines(a.output);
    PrintIsLines(codec, a);
    assert text[0] == 't';
    LetterStays(text);
    var fixed := front + "output=";
    assert text == fixed + (esc + "\n");
    BehindEquals(fixed, esc + "\n");
    NewlineIsTrimmed(esc);
  }

  /** Without encryption the receiver also drops white space at the very end,
      which is the end of the output. */
  lemma PlainRoundTrip(codec: Codec, a: Answer)
    requires Works(codec) && OnFields(codec, a, OneLiner())
    ensures Received(codec, CreateAnswer(codec, a, false), false)
         == Ok(TrimValues(PrintedFront(codec, a)["output" := BareOutput(a)]))
  {
    hide Print, FrontLines, PrintedFront, OnFields, StoreAll, Field, TrimSpace;
    TrimmedPrint(codec, a);
    MapWithoutNewline(codec, a, BareOutput(a));
  }

  lemma MapWithoutNewline(codec: Codec, a: Answer, value: string)
    requires OnFields(codec, a, OneLiner()) && OneLine(value)
    ensures StoreAll(map[], Lines(Unlines(FrontLines(codec, a)) + Field("output", value)))
         == TrimValues(PrintedFront(codec, a)["output" := value])
  {
    hide StoreAll, Field, FrontLines, PrintedFront, Unlines, TrimValues, OnFields;
    var front, last := FrontLines(codec, a), Field("output", value);
    FrontOneLine(codec, a);
    FieldOneLine("output", value);
    LinesOfOneLine(last);
    LinesOfUnlines(front, last);
    FrontMap(codec, a);
    OneMoreField(front, PrintedFront(codec, a), "output", value);
  }

  // ---- exactly which answers survive ----

  predicate Clean(s: string) { OneLine(s) && Trimmed(s) }

  function Cleaner(): string -> bool {
    (s: string) => Clean(s)
  }

  predicate AllClean(m: map<string, string>) {
    forall k :: k in m ==> Clean(m[k])
  }

  /** Whatever was sent, a received value is on one line and has no outer blanks. */
  lemma {:induction false} StoredIsClean(m: map<string, string>, lines: seq<string>)
    requires AllClean(m) && AllOneLine(lines)
    ensures AllClean(StoreAll(m, lines))
    decreases |lines|
  {
    if lines != [] {
      SplitIsLine(lines[0]);
      StoredIsClean(Store(m, lines[0]), lines[1..]);
    }
  }

  /** The printed map has each field under its own key. */
  lemma PrintedValues(codec: Codec, a: Answer)
    ensures var m := PrintedFront(codec, a);
      && "type" in m && m["type"] == a.active
      && "host_name" in m && m["host_name"] == a.hostName
      && (a.serviceDescription != "" ==> "service_description" in m && m["service_description"] == a.serviceDescription)
      && (a.coreStartTime > 0.0 ==> "core_start_time" in m && m["core_start_time"] == codec.float(a.coreStartTime))
      && "start_time" in m && m["start_time"] == codec.float(a.startTime)
      && "finish_time" in m && m["finish_time"] == codec.float(a.finishTime)
      && "return_code" in m && m["return_code"] == Decimal.Itoa(a.returnCode)
      && "exited_ok" in m && m["exited_ok"] == "1"
      && "source" in m && m["source"] == a.source
    ensures "output" !in PrintedFront(codec, a)
    ensures "service_description" in PrintedFront(codec, a) <==> a.serviceDescription != ""
    ensures "core_start_time" in PrintedFront(codec, a) <==> a.coreStartTime > 0.0
  {
    OptionalValues(codec, a);
    var m := WithOptional(codec, a);
    hide WithOptional;
    assert PrintedFront(codec, a) ==
      m["start_time" := codec.float(a.startTime)]["finish_time" := codec.float(a.finishTime)]
       ["return_code" := Decimal.Itoa(a.returnCode)]["exited_ok" := "1"]["source" := a.source] by {
      FrontOfOptional(codec, a);
    }
    hide PrintedFront;
  }

  lemma FrontOfOptional(codec: Codec, a: Answer)
    ensures PrintedFront(codec, a) ==
      WithOptional(codec, a)["start_time" := codec.float(a.startTime)]["finish_time" := codec.float(a.finishTime)]
       ["return_code" := Decimal.Itoa(a.returnCode)]["exited_ok" := "1"]["source" := a.source]
  {
  }

  lemma OptionalValues(codec: Codec, a: Answer)
    ensures var m := WithOptional(codec, a);
      && "type" in m && m["type"] == a.active
      && "host_name" in m && m["host_name"] == a.hostName
      && (a.serviceDescription != "" ==> "service_description" in m && m["service_description"] == a.serviceDescription)
      && (a.coreStartTime > 0.0 ==> "core_start_time" in m && m["core_start_time"] == codec.float(a.coreStartTime))
    ensures WithOptional(codec, a).Keys <= {"type", "host_name", "service_description", "core_start_time"}
    ensures "service_description" in WithOptional(codec, a) <==> a.serviceDescription != ""
    ensures "core_start_time" in WithOptional(codec, a) <==> a.coreStartTime > 0.0
  {
  }

  lemma CleanMeansOneLine(codec: Codec, a: Answer)
    requires OnFields(codec, a, Cleaner())
    ensures OnFields(codec, a, OneLiner())
  {
  }

  predicate AllTrimmed(m: map<string, string>) {
    forall k :: k in m ==> Trimmed(m[k])
  }

  lemma AddTrimmed(m: map<string, string>, key: string, value: string)
    requires AllTrimmed(m) && Trimmed(value)
    ensures AllTrimmed(m[key := value])
  {
  }

  lemma FrontTrimmed(codec: Codec, a: Answer)
    requires OnFields(codec, a, Cleaner())
    ensures AllTrimmed(PrintedFront(codec, a))
  {
    hide AllTrimmed, Trimmed;
    var m0 := WithOptional(codec, a);
    OptionalTrimmed(codec, a);
    var m1 := m0["start_time" := codec.float(a.startTime)];
    AddTrimmed(m0, "start_time", codec.float(a.startTime));
    var m2 := m1["finish_time" := codec.float(a.finishTime)];
    AddTrimmed(m1, "finish_time", codec.float(a.finishTime));
    NumbersOneLine(a.returnCode);
    var m3 := m2["return_code" := Decimal.Itoa(a.returnCode)];
    AddTrimmed(m2, "return_code", Decimal.Itoa(a.returnCode));
    var m4 := m3["exited_ok" := "1"];
    OneTrimmed();
    AddTrimmed(m3, "exited_ok", "1");
    AddTrimmed(m4, "source", a.source);
    assert PrintedFront(codec, a) == m4["source" := a.source];
  }

  lemma OneTrimmed()
    ensures Trimmed("1")
  {
  }

  lemma OptionalTrimmed(codec: Codec, a: Answer)
    requires OnFields(codec, a, Cleaner())
    ensures AllTrimmed(WithOptional(codec, a))
  {
  }

  /** Clean fields are not changed by trimming. */
  lemma CleanFieldsStay(codec: Codec, a: Answer, value: string)
    requires OnFields(codec, a, Cleaner()) && Trimmed(value)
    ensures TrimValues(PrintedFront(codec, a)["output" := value]) == PrintedFront(codec, a)["output" := value]
  {
    hide PrintedFront, OnFields;
    FrontTrimmed(codec, a);
    AddTrimmed(PrintedFront(codec, a), "output", value);
  }

  /** A map that equals the printed one has the printed fields as its values. */
  lemma EqualMeansClean(codec: Codec, a: Answer, m: map<string, string>)
    requires AllClean(m) && m == Printed(codec, a)
    ensures OnFields(codec, a, Cleaner()) && Trimmed(EscapeNewlines(a.output))
  {
    PrintedValues(codec, a);
    var front := PrintedFront(codec, a);
    assert forall k :: k in front ==> k in m && m[k] == front[k];
    assert m["output"] == EscapeNewlines(a.output);
  }

  lemma ReceivedIsClean(codec: Codec, wire: string, encryption: bool)
    ensures Received(codec, wire, encryption).Ok? ==> AllClean(Received(codec, wire, encryption).value)
  {
    if PlainText(codec, wire, encryption).Ok? {
      StoredIsClean(map[], Lines(PlainText(codec, wire, encryption).value));
    }
  }

  /** An encrypted answer is received exactly as printed if and only if its
      one-line fields have neither newlines nor outer blanks and its output,
      newlines escaped, has no outer blanks. The output may hold any newlines. */
  lemma EncryptedExactIff(codec: Codec, a: Answer)
    requires Works(codec)
    ensures Received(codec, CreateAnswer(codec, a, true), true) == Ok(Printed(codec, a))
      <==> OnFields(codec, a, Cleaner()) && Trimmed(EscapeNewlines(a.output))
  {
    hide OnFields, TrimValues, PrintedFront, PlainText, CreateAnswer, Received;
    var got := Received(codec, CreateAnswer(codec, a, true), true);
    if OnFields(codec, a, Cleaner()) && Trimmed(EscapeNewlines(a.output)) {
      CleanMeansOneLine(codec, a);
      EncryptedRoundTrip(codec, a);
      CleanFieldsStay(codec, a, EscapeNewlines(a.output));
    } else if got == Ok(Printed(codec, a)) {
      ReceivedIsClean(codec, CreateAnswer(codec, a, true), true);
      EqualMeansClean(codec, a, got.value);
    }
  }

  /** Without encryption the output must not end in white space either. */
  lemma PlainExactIff(codec: Codec, a: Answer)
    requires Works(codec)
    ensures Received(codec, CreateAnswer(codec, a, false), false) == Ok(Printed(codec, a))
      <==> OnFields(codec, a, Cleaner()) && Trimmed(EscapeNewlines(a.output)) && BareOutput(a) == EscapeNewlines(a.output)
  {
    hide OnFields, TrimValues, PrintedFront, PlainText, CreateAnswer, Received;
    var esc := EscapeNewlines(a.output);
    var got := Received(codec, CreateAnswer(codec, a, false), false);
    if OnFields(codec, a, Cleaner()) && Trimmed(esc) {
      CleanMeansOneLine(codec, a);
      PlainRoundTrip(codec, a);
      if BareOutput(a) == esc {
        CleanFieldsStay(codec, a, esc);
      } else {
        ShorterOutput(codec, a);
      }
    } else if got == Ok(Printed(codec, a)) {
      ReceivedIsClean(codec, CreateAnswer(codec, a, false), false);
      EqualMeansClean(codec, a, got.value);
    }
  }

  lemma ShorterOutput(codec: Codec, a: Answer)
    requires BareOutput(a) != EscapeNewlines(a.output)
    ensures TrimValues(PrintedFront(codec, a)["output" := BareOutput(a)]) != Printed(codec, a)
  {
    hide PrintedFront, BareOutput, EscapeNewlines, Trim;
    var bare, esc := BareOutput(a), EscapeNewlines(a.output);
    assert TrimValues(PrintedFront(codec, a)["output" := bare])["output"] == Trim(bare);
    TrimNotLonger(bare);
    ProperFront(bare, esc);
    assert Printed(codec, a)["output"] == esc;
  }

  lemma ProperFront(front: string, s: string)
    requires front <= s && front != s
    ensures |front| < |s|
  {
    assert s[..|s|] == s;
  }

  lemma TrimNotLonger(s: string)
    ensures |Trim(s)| <= |s|
  {
  }

  /** decryptJobData never rejects such an answer, and reads back its type, host,
      service and start time; the core start time is printed under another key
      than the one that is read. */
  lemma RequestFields(codec: Codec, a: Answer)
    requires Works(codec) && OnFields(codec, a, Cleaner()) && Trimmed(EscapeNewlines(a.output))
    ensures var r := DecryptJobData(codec, CreateAnswer(codec, a, true), true);
      && r.Ok?
      && r.value.typ == a.active && r.value.hostName == a.hostName
      && r.value.serviceDescription == a.serviceDescription
      && r.value.startTime == ParseTime(codec, codec.float(a.startTime))
      && (codec.parseFloat(codec.float(a.startTime)) == Some(a.startTime) ==> r.value.startTime == a.startTime)
      && r.value.coreTime == ParseTime(codec, "")
      && r.value.resultQueue == "" && r.value.commandLine == ""
  {
    hide Print, Printed, OnFields, StoreAll, Trimmed, Blockwise;
    var text := Print(codec, a);
    DecryptEncrypted(codec.cipher, text);
    assert PlainText(codec, CreateAnswer(codec, a, true), true) == Ok(Padded(text));
    TypeFirst(codec, a);
    EncryptedExactIff(codec, a);
    PrintedGets(codec, a);
  }

  lemma PrintedGets(codec: Codec, a: Answer)
    ensures var m := Printed(codec, a);
      && Get(m, "type") == a.active && Get(m, "host_name") == a.hostName
      && Get(m, "service_description") == a.serviceDescription
      && Get(m, "start_time") == codec.float(a.startTime) && Get(m, "core_time") == ""
      && Get(m, "result_queue") == "" && Get(m, "command_line") == ""
  {
    hide PrintedFront;
    PrintedValues(codec, a);
    NoQueuePrinted(codec, a);
  }

  lemma TypeFirst(codec: Codec, a: Answer)
    ensures "type=" <= Print(codec, a)
  {
    hide Times, Rest, Optional;
    var text := Print(codec, a);
    assert text[..5] == "type=";
  }

  lemma NoQueuePrinted(codec: Codec, a: Answer)
    ensures "result_queue" !in Printed(codec, a) && "command_line" !in Printed(codec, a) && "core_time" !in Printed(codec, a)
  {
  }
}
