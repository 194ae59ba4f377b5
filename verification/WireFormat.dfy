/** The result of a check on its way over the wire: answer.String, createAnswer,
    and the receiving side, decryptJobData with createMap. */
module WireFormat {
  import opened Text
  import opened Crypt
  import opened Outcomes
  import Decimal
  import OpenFiles

  datatype Answer = Answer(
    active: string, hostName: string, serviceDescription: string,
    coreStartTime: real, startTime: real, finishTime: real,
    returnCode: int, source: string, output: string, resultQueue: string)

  /** The parts of the system that stay abstract: the printing and parsing of
      numbers, the cipher, and base64 (section 4 of RFC 4648). */
  datatype Codec = Codec(
    float: real -> string, parseFloat: string -> Option<real>, parseInt: string -> Option<int>, cipher: Cipher,
    encode: string -> string, decode: string -> Result<string>)

  ghost predicate Works(codec: Codec) {
    && Sound(codec.cipher) && (forall s :: codec.decode(codec.encode(s)) == Ok(s))
    && codec.parseFloat("").None?
  }

  // ---- sending ----

  function Field(key: string, value: string): string {
    key + "=" + value
  }

  function Optional(codec: Codec, a: Answer): string {
    (if a.serviceDescription != "" then "\n" + Field("service_description", a.serviceDescription) else "")
    + (if a.coreStartTime > 0.0 then "\n" + Field("core_start_time", codec.float(a.coreStartTime)) else "")
  }

  function Times(codec: Codec, a: Answer): string {
    Field("start_time", codec.float(a.startTime)) + "\n"
    + Field("finish_time", codec.float(a.finishTime)) + "\n"
  }

  function Rest(a: Answer): string {
    Field("return_code", Decimal.Itoa(a.returnCode)) + "\n"
    + Field("exited_ok", "1") + "\n"
    + Field("source", a.source) + "\n"
  }

  /** answer.String */
  function Print(codec: Codec, a: Answer): string {
    Field("type", a.active) + "\n"
    + Field("host_name", a.hostName) + Optional(codec, a) + "\n"
    + Times(codec, a) + Rest(a)
    + Field("output", EscapeNewlines(a.output)) + "\n"
  }

  function CreateAnswer(codec: Codec, a: Answer, encryption: bool): string {
    codec.encode(Encrypted(codec.cipher, Print(codec, a), encryption))
  }

  // ---- receiving ----

  /** The encodings in UTF-8 (section 3 of RFC 3629) of the code points that Unicode calls white space. */
  predicate SpaceRune(s: string) {
    var b := seq(|s|, i requires 0 <= i < |s| => s[i] as int);
    || (|b| == 1 && (b[0] == 0x20 || 9 <= b[0] <= 13))
    || (|b| == 2 && b[0] == 0xC2 && (b[1] == 0x85 || b[1] == 0xA0))
    || (|b| == 3 && b[0] == 0xE1 && b[1] == 0x9A && b[2] == 0x80)
    || (|b| == 3 && b[0] == 0xE2 && b[1] == 0x80 && (0x80 <= b[2] <= 0x8A || b[2] in {0xA8, 0xA9, 0xAF}))
    || (|b| == 3 && b[0] == 0xE2 && b[1] == 0x81 && b[2] == 0x9F)
    || (|b| == 3 && b[0] == 0xE3 && b[1] == 0x80 && b[2] == 0x80)
  }

  /** Number of bytes of the white space character at the end; 0 for none. */
  function SpaceAtEnd(s: string): (n: nat)
    ensures n <= |s|
  {
    if |s| >= 1 && SpaceRune(s[|s| - 1..]) then 1
    else if |s| >= 2 && SpaceRune(s[|s| - 2..]) then 2
    else if |s| >= 3 && SpaceRune(s[|s| - 3..]) then 3
    else 0
  }

  function SpaceAtStart(s: string): (n: nat)
    ensures n <= |s|
  {
    if |s| >= 1 && SpaceRune(s[..1]) then 1
    else if |s| >= 2 && SpaceRune(s[..2]) then 2
    else if |s| >= 3 && SpaceRune(s[..3]) then 3
    else 0
  }

  function TrimStart(s: string): string {
    if SpaceAtStart(s) > 0 then TrimStart(s[SpaceAtStart(s)..]) else s
  }

  function TrimEnd(s: string): (r: string)
    ensures r <= s && SpaceAtEnd(r) == 0
    ensures SpaceAtEnd(s) == 0 ==> r == s
  {
    if SpaceAtEnd(s) > 0 then TrimEnd(s[..|s| - SpaceAtEnd(s)]) else s
  }

  /** bytes.TrimSpace */
  function TrimSpace(s: string): string {
    TrimEnd(TrimStart(s))
  }

  function PlainText(codec: Codec, wire: string, encryption: bool): Result<string> {
    match codec.decode(wire)
    case Error(e) => Error(e)
    case Ok(data) => if encryption then Decrypted(codec.cipher, data) else Ok(TrimSpace(data))
  }

  /** One line's effect on the map: a key=value line overwrites, any other line does nothing. */
  function Store(m: map<string, string>, line: string): map<string, string> {
    match SplitPair(line)
    case None => m
    case Some((key, value)) => m[Trim(key) := Trim(value)]
  }

  function StoreAll(m: map<string, string>, lines: seq<string>): map<string, string>
    decreases |lines|
  {
    if lines == [] then m else StoreAll(Store(m, lines[0]), lines[1..])
  }

  predicate KeyOf(line: string, key: string) {
    SplitPair(line).Some? && Trim(SplitPair(line).value.0) == key
  }

  method CreateMap(input: string) returns (m: map<string, string>)
    ensures m == StoreAll(map[], Lines(input))
  {
    var splitted := Lines(input);
    m := map[];
    var i := 0;
    while i < |splitted|
      invariant 0 <= i <= |splitted|
      invariant StoreAll(map[], splitted) == StoreAll(m, splitted[i..])
    {
      var access := SplitPair(splitted[i]);
      if access.Some? {
        m := m[Trim(access.value.0) := Trim(access.value.1)];
      }
      assert splitted[i..][1..] == splitted[i + 1..];
      i := i + 1;
    }
  }

  /** A key that no line has keeps what it had. */
  lemma {:induction false} NoLineNoChange(m: map<string, string>, lines: seq<string>, key: string)
    requires forall i :: 0 <= i < |lines| ==> !KeyOf(lines[i], key)
    ensures key in StoreAll(m, lines) <==> key in m
    ensures key in m ==> StoreAll(m, lines)[key] == m[key]
    decreases |lines|
  {
    if lines != [] {
      NoLineNoChange(Store(m, lines[0]), lines[1..], key);
    }
  }

  /** The last line for a key wins. */
  lemma {:induction false} LastLineWins(m: map<string, string>, lines: seq<string>, key: string, last: nat)
    requires last < |lines| && KeyOf(lines[last], key)
    requires forall i :: last < i < |lines| ==> !KeyOf(lines[i], key)
    ensures key in StoreAll(m, lines)
    ensures StoreAll(m, lines)[key] == Trim(SplitPair(lines[last]).value.1)
    decreases |lines|
  {
    if last == 0 {
      NoLineNoChange(Store(m, lines[0]), lines[1..], key);
    } else {
      LastLineWins(Store(m, lines[0]), lines[1..], key, last - 1);
    }
  }

  /** parseTimeStringToFloat64: zero for what is not a number. */
  function ParseTime(codec: Codec, s: string): real {
    match codec.parseFloat(s)
    case None => 0.0
    case Some(x) => x
  }

  /** getInt: an integer, or what is left of a float before its point. */
  function GetInt(codec: Codec, s: string): int {
    if s == "" then 0
    else
      match codec.parseInt(s)
      case Some(n) => n
      case None => OpenFiles.Trunc(ParseTime(codec, s))
  }

  /** What createReceived takes out of the map. */
  datatype Request = Request(
    typ: string, resultQueue: string, targetQueue: string, hostName: string,
    serviceDescription: string, commandLine: string,
    startTime: real, coreTime: real, nextCheck: real, timeout: int)

  function Get(m: map<string, string>, key: string): string {
    if key in m then m[key] else ""
  }

  function CreateReceived(codec: Codec, input: string): Result<Request> {
    if !("type=" <= input) then Error("invalid data package received, check encryption key")
    else
      var m := StoreAll(map[], Lines(input));
      Ok(Request(Get(m, "type"), Get(m, "result_queue"), Get(m, "target_queue"), Get(m, "host_name"),
                 Get(m, "service_description"), Get(m, "command_line"),
                 ParseTime(codec, Get(m, "start_time")), ParseTime(codec, Get(m, "core_time")),
                 ParseTime(codec, Get(m, "next_check")), GetInt(codec, Get(m, "timeout"))))
  }

  function DecryptJobData(codec: Codec, wire: string, encryption: bool): Result<Request> {
    match PlainText(codec, wire, encryption)
    case Error(e) => Error(e)
    case Ok(text) => CreateReceived(codec, text)
  }

  // ---- what was printed ----

  /** The printed keys with their printed values, all but the output. */
  function PrintedFront(codec: Codec, a: Answer): map<string, string> {
    var head := map["type" := a.active, "host_name" := a.hostName];
    var service := if a.serviceDescription != "" then head["service_description" := a.serviceDescription] else head;
    var core := if a.coreStartTime > 0.0 then service["core_start_time" := codec.float(a.coreStartTime)] else service;
    core["start_time" := codec.float(a.startTime)]
        ["finish_time" := codec.float(a.finishTime)]
        ["return_code" := Decimal.Itoa(a.returnCode)]
        ["exited_ok" := "1"]
        ["source" := a.source]
  }

  function Printed(codec: Codec, a: Answer): map<string, string> {
    PrintedFront(codec, a)["output" := EscapeNewlines(a.output)]
  }

  function TrimValues(m: map<string, string>): map<string, string> {
    map k | k in m :: Trim(m[k])
  }

  /** A property of every one-line field that is printed. */
  predicate OnFields(codec: Codec, a: Answer, p: string -> bool) {
    && p(a.active) && p(a.hostName)
    && (a.serviceDescription != "" ==> p(a.serviceDescription))
    && (a.coreStartTime > 0.0 ==> p(codec.float(a.coreStartTime)))
    && p(codec.float(a.startTime)) && p(codec.float(a.finishTime))
    && p(a.source)
  }

  function HeadLines(a: Answer): seq<string> {
    [Field("type", a.active), Field("host_name", a.hostName)]
  }

  function OptionalLines(codec: Codec, a: Answer): seq<string> {
    (if a.serviceDescription != "" then [Field("service_description", a.serviceDescription)] else [])
    + (if a.coreStartTime > 0.0 then [Field("core_start_time", codec.float(a.coreStartTime))] else [])
  }

  function TimeLines(codec: Codec, a: Answer): seq<string> {
    [Field("start_time", codec.float(a.startTime)), Field("finish_time", codec.float(a.finishTime))]
  }

  function RestLines(a: Answer): seq<string> {
    [Field("return_code", Decimal.Itoa(a.returnCode)), Field("exited_ok", "1"), Field("source", a.source)]
  }

  /** All lines but the last. */
  function FrontLines(codec: Codec, a: Answer): seq<string> {
    HeadLines(a) + OptionalLines(codec, a) + TimeLines(codec, a) + RestLines(a)
  }

  function OutputLine(a: Answer): string {
    Field("output", EscapeNewlines(a.output))
  }
}
