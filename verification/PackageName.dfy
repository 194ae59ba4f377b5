/** valid_package_name: from the path of a Perl plugin to the package its code
    is compiled into. A request in JSON brings characters, any of Unicode; other
    requests bring bytes, one char each. */
module PackageName {
  import opened Decimal
  import Text

  predicate Bytes(s: string) {
    forall i :: 0 <= i < |s| ==> s[i] as int < 256
  }

  /** The characters the first substitution leaves alone. */
  predicate Plain(c: char) {
    'A' <= c <= 'Z' || 'a' <= c <= 'z' || Digit(c) || c == '/'
  }

  predicate Absolute(path: string) { path != "" && path[0] == '/' }

  predicate DigitFirst(s: string) { s != "" && Digit(s[0]) }

  // ---- hexadecimal numbers ----

  function HexDigit(n: nat): char
    requires n < 16
  {
    if n < 10 then '0' + n as char else 'a' + (n - 10) as char
  }

  /** %x */
  function Hex(n: nat): (s: string)
    ensures s != "" && HexString(s)
  {
    if n < 16 then [HexDigit(n)] else Hex(n / 16) + [HexDigit(n % 16)]
  }

  predicate HexChar(c: char) { Digit(c) || 'a' <= c <= 'f' }

  predicate HexString(s: string) {
    forall i :: 0 <= i < |s| ==> HexChar(s[i])
  }

  function HexValue(c: char): (n: nat)
    ensures n < 16
    ensures HexChar(c) ==> HexDigit(n) == c
  {
    if Digit(c) then (c - '0') as nat
    else if 'a' <= c <= 'f' then (c - 'a') as nat + 10
    else 0
  }

  /** The number that has `s` behind the digits of `n`. */
  function Extended(n: nat, s: string): (r: nat)
    ensures r >= n
  {
    if s == "" then n else Extended(n, s[..|s| - 1]) * 16 + HexValue(s[|s| - 1])
  }

  /** Code points that are characters: not above 0x10FFFF, and no surrogates. */
  predicate Scalar(n: nat) { n < 0xD800 || 0xE000 <= n < 0x11_0000 }

  lemma {:induction false} HexExtended(n: nat, s: string)
    requires n > 0 && HexString(s)
    ensures Hex(Extended(n, s)) == Hex(n) + s
  {
    if s == "" {
      assert Hex(n) + s == Hex(n);
    } else {
      var m := |s| - 1;
      HexExtended(n, s[..m]);
      assert s == s[..m] + [s[m]];
      HexStep(Extended(n, s[..m]), HexValue(s[m]));
      assert Hex(n) + s == (Hex(n) + s[..m]) + [s[m]];
    }
  }

  lemma HexStep(n: nat, d: nat)
    requires n > 0 && d < 16
    ensures Hex(n * 16 + d) == Hex(n) + [HexDigit(d)]
  {
    assert (n * 16 + d) / 16 == n && (n * 16 + d) % 16 == d;
  }

  /** The number that the first digits of `n` make, as many as stay below `limit`. */
  function Top(n: nat, limit: nat): (r: nat)
    requires limit >= 256
    ensures r < limit && r <= n && (n < limit ==> r == n) && (n >= limit ==> r >= limit / 16)
  {
    if n < limit then n else Top(n / 16, limit)
  }

  /** The digits of `n` behind those of Top. */
  function Tail(n: nat, limit: nat): (s: string)
    requires limit >= 256
    ensures HexString(s) && (s == "" <==> n < limit)
  {
    if n < limit then "" else Tail(n / 16, limit) + [HexDigit(n % 16)]
  }

  lemma {:induction false} TopTail(n: nat, limit: nat)
    requires limit >= 256
    ensures Hex(n) == Hex(Top(n, limit)) + Tail(n, limit)
    ensures Extended(Top(n, limit), Tail(n, limit)) == n
  {
    if n < limit {
      assert Hex(n) + "" == Hex(n);
    } else {
      TopTail(n / 16, limit);
      var front, d := Tail(n / 16, limit), HexDigit(n % 16);
      assert (front + [d])[..|front|] == front;
      assert HexValue(d) == n % 16;
      assert Hex(Top(n, limit)) + (front + [d]) == (Hex(Top(n, limit)) + front) + [d];
    }
  }

  lemma TwoDigits(n: nat)
    requires 16 <= n < 256
    ensures |Hex(n)| == 2 && HexValue(Hex(n)[0]) * 16 + HexValue(Hex(n)[1]) == n
  {
    assert Hex(n / 16) == [HexDigit(n / 16)];
  }

  lemma ThreeDigits(n: nat)
    requires 256 <= n < 4096
    ensures |Hex(n)| == 3 && Hex(n)[..2] == Hex(n / 16)
    ensures (HexValue(Hex(n)[0]) * 16 + HexValue(Hex(n)[1])) * 16 + HexValue(Hex(n)[2]) == n
  {
    TwoDigits(n / 16);
    assert Hex(n) == Hex(n / 16) + [HexDigit(n % 16)];
  }

  // ---- the substitutions ----

  /** sprintf("_%2x"): at least two columns, padded on the left with a blank; a
      character above 255 takes three columns and more. */
  function Escaped(c: char): string {
    "_" + ((if c as int < 16 then " " else "") + Hex(c as int))
  }

  /** s|([^A-Za-z0-9\/])|...|eg */
  function EscapeSpecial(s: string): string {
    if s == "" then ""
    else (if Plain(s[0]) then [s[0]] else Escaped(s[0])) + EscapeSpecial(s[1..])
  }

  /** s|/(\d)|...|eg: matches do not overlap and are found from left to right. */
  function EscapeLeadingDigits(s: string): string {
    if s == "" then ""
    else if s[0] == '/' && |s| > 1 && Digit(s[1]) then "/" + Escaped(s[1]) + EscapeLeadingDigits(s[2..])
    else [s[0]] + EscapeLeadingDigits(s[1..])
  }

  /** s|/|::|g */
  function Colons(s: string): string {
    if s == "" then ""
    else (if s[0] == '/' then "::" else [s[0]]) + Colons(s[1..])
  }

  // ---- the name in one scan ----

  /** Whether a character is escaped, by whether a slash stands in front of it. */
  predicate Escapes(slash: bool, c: char) {
    !Plain(c) || (slash && Digit(c))
  }

  function Piece(slash: bool, c: char): string {
    if Escapes(slash, c) then Escaped(c) else [c]
  }

  /** What the first two substitutions make of a path, character by character. */
  function Both(slash: bool, s: string): string
    decreases |s|
  {
    if s == "" then "" else Piece(slash, s[0]) + Both(s[0] == '/', s[1..])
  }

  /** The name of a path: every character on its own, and the prefix by how the path starts. */
  function PackageOf(path: string): string {
    (if Absolute(path) then "Embed" else "Embed::") + Colons(Both(false, path))
  }

  lemma BothStep(slash: bool, c: char, rest: string)
    ensures Both(slash, [c] + rest) == Piece(slash, c) + Both(c == '/', rest)
  {
    hide Piece;
    assert ([c] + rest)[1..] == rest;
  }

  lemma BothNothing(slash: bool)
    ensures Both(slash, "") == ""
  {
  }

  /** A slash in front matters only to a digit. */
  lemma SlashMatters(s: string)
    requires !DigitFirst(s)
    ensures Both(true, s) == Both(false, s)
  {
  }

  lemma SkipOne(a: char, rest: string)
    requires a != '/' || !DigitFirst(rest)
    ensures EscapeLeadingDigits([a] + rest) == [a] + EscapeLeadingDigits(rest)
  {
    assert ([a] + rest)[1..] == rest;
  }

  lemma {:induction false} SkipAll(s: string, rest: string)
    requires '/' !in s
    ensures EscapeLeadingDigits(s + rest) == s + EscapeLeadingDigits(rest)
  {
    if s == "" {
      assert s + rest == rest;
    } else {
      hide EscapeLeadingDigits;
      SkipAll(s[1..], rest);
      SkipOne(s[0], s[1..] + rest);
      assert s == [s[0]] + s[1..] && s + rest == [s[0]] + (s[1..] + rest);
      Text.Associate([s[0]], s[1..], EscapeLeadingDigits(rest));
    }
  }

  lemma SkipDigit(d: char, rest: string)
    requires Digit(d)
    ensures EscapeLeadingDigits("/" + ([d] + rest)) == "/" + (Escaped(d) + EscapeLeadingDigits(rest))
  {
    hide Escaped;
    var s := "/" + ([d] + rest);
    assert s[2..] == rest && s[0] == '/' && s[1] == d;
  }

  /** The digits of one character followed by `tail` are those of another. */
  lemma EscapedLonger(c: char, d: char, tail: string)
    requires c as int >= 16 && d as int >= 16 && Hex(c as int) == Hex(d as int) + tail
    ensures Escaped(c) == Escaped(d) + tail
  {
    hide Hex;
    assert "" + Hex(c as int) == Hex(c as int) && "" + Hex(d as int) == Hex(d as int);
    Text.Associate("_", Hex(d as int), tail);
  }

  lemma EscapedShape(c: char)
    ensures |Escaped(c)| >= 3 && Escaped(c)[0] == '_' && '/' !in Escaped(c) && ':' !in Escaped(c)
  {
    var hex := Hex(c as int);
    if c as int >= 16 {
      assert |Hex(c as int / 16)| >= 1;
    }
    assert forall i :: 0 <= i < |hex| ==> HexChar(hex[i]);
  }

  lemma SpecialStep(c: char, rest: string)
    ensures EscapeSpecial([c] + rest) == (if Plain(c) then [c] else Escaped(c)) + EscapeSpecial(rest)
  {
    hide Escaped;
    assert ([c] + rest)[1..] == rest;
  }

  lemma SpecialFirst(s: string)
    ensures DigitFirst(EscapeSpecial(s)) <==> DigitFirst(s)
    ensures EscapeSpecial(s) == "" <==> s == ""
  {
    if s != "" {
      EscapedShape(s[0]);
    }
  }

  /** The second pass finds nothing that the first has made. */
  lemma {:induction false} TwoPasses(s: string)
    ensures EscapeLeadingDigits(EscapeSpecial(s)) == Both(false, s)
    decreases |s|
  {
    if s != "" {
      hide EscapeLeadingDigits, EscapeSpecial, Both, Escaped;
      var c, rest := s[0], s[1..];
      TwoPasses(rest);
      SpecialStep(c, rest);
      SpecialFirst(rest);
      BothStep(false, c, rest);
      assert s == [c] + rest;
      if !Plain(c) {
        EscapedShape(c);
        SkipAll(Escaped(c), EscapeSpecial(rest));
      } else if c == '/' && DigitFirst(rest) {
        var d, tail := rest[0], rest[1..];
        assert rest == [d] + tail;
        TwoPasses(tail);
        SpecialStep(d, tail);
        BothStep(true, d, tail);
        SkipDigit(d, EscapeSpecial(tail));
      } else {
        SkipOne(c, EscapeSpecial(rest));
        if c == '/' {
          SlashMatters(rest);
        }
      }
    }
  }

  // ---- the way back ----

  /** Reads a name without its colons: at an underscore the two columns behind it
      if they are an escape, else three. */
  function Unescape(slash: bool, s: string): string
    decreases |s|
  {
    if s == "" then ""
    else if s[0] == '_' && |s| >= 3 then
      var two := HexValue(s[1]) * 16 + HexValue(s[2]);
      if Escapes(slash, two as char) || |s| == 3 then [two as char] + Unescape(false, s[3..])
      else [(two * 16 + HexValue(s[3])) as char] + Unescape(false, s[4..])
    else [s[0]] + Unescape(s[0] == '/', s[1..])
  }

  function Uncolon(s: string): string {
    if s == "" then ""
    else if "::" <= s then "/" + Uncolon(s[2..])
    else [s[0]] + Uncolon(s[1..])
  }

  /** Drops the prefix Embed and undoes the substitutions. */
  function PathOf(name: string): string {
    if |name| < 5 then "" else Unescape(false, Uncolon(name[5..]))
  }

  /** How many of the digits of an escaped character are read back as one character. */
  function Limit(slash: bool, c: char): (n: nat)
    ensures n == 256 || n == 4096
  {
    if Escapes(slash, Top(c as int, 256) as char) then 256 else 4096
  }

  /** What is read back for one character: a character above 255 gives its first
      two or three digits as one character, and the others as themselves. */
  function Canon(slash: bool, c: char): string {
    if Escapes(slash, c) then [Top(c as int, Limit(slash, c)) as char] + Tail(c as int, Limit(slash, c))
    else [c]
  }

  function Canonical(slash: bool, s: string): string
    decreases |s|
  {
    if s == "" then "" else Canon(slash, s[0]) + Canonical(s[0] == '/', s[1..])
  }

  lemma CanonicalStep(slash: bool, c: char, rest: string)
    ensures Canonical(slash, [c] + rest) == Canon(slash, c) + Canonical(c == '/', rest)
  {
    hide Canon;
    assert ([c] + rest)[1..] == rest;
  }

  lemma UnescapeStep(slash: bool, c: char, rest: string)
    requires c != '_'
    ensures Unescape(slash, [c] + rest) == [c] + Unescape(c == '/', rest)
  {
    assert ([c] + rest)[1..] == rest;
  }

  lemma UnescapeNothing(slash: bool)
    ensures Unescape(slash, "") == ""
  {
  }

  lemma {:induction false} UnescapeHex(s: string, rest: string)
    requires HexString(s)
    ensures Unescape(false, s + rest) == s + Unescape(false, rest)
    decreases |s|
  {
    if s == "" {
      assert s + rest == rest;
    } else {
      hide Unescape;
      UnescapeHex(s[1..], rest);
      UnescapeStep(false, s[0], s[1..] + rest);
      assert s == [s[0]] + s[1..] && s + rest == [s[0]] + (s[1..] + rest);
      Text.Associate([s[0]], s[1..], Unescape(false, rest));
    }
  }

  /** A byte takes three columns: its two hexadecimal digits, the first left blank if it is zero. */
  lemma EscapeColumns(c: char)
    requires c as int < 256
    ensures var high := if c as int < 16 then ' ' else "0123456789abcdef"[c as int / 16];
      Escaped(c) == "_" + [high, "0123456789abcdef"[c as int % 16]]
  {
    if c as int >= 16 {
      assert Hex(c as int / 16) == [HexDigit(c as int / 16)];
    }
  }

  /** Letters, slashes, and digits without a slash in front of them. */
  predicate Unescaped(slash: bool, s: string) {
    forall i :: 0 <= i < |s| ==> StaysAt(slash, s, i)
  }

  predicate StaysAt(slash: bool, s: string, i: nat)
    requires i < |s|
  {
    || 'A' <= s[i] <= 'Z' || 'a' <= s[i] <= 'z' || s[i] == '/'
    || ('0' <= s[i] <= '9' && !(if i == 0 then slash else s[i - 1] == '/'))
  }

  /** The substitutions before the slashes change a path, unless it consists of such characters alone. */
  lemma StaysIff(path: string)
    ensures EscapeLeadingDigits(EscapeSpecial(path)) == path <==> Unescaped(false, path)
  {
    TwoPasses(path);
    BothStaysIff(false, path);
  }

  lemma {:induction false} BothStaysIff(slash: bool, s: string)
    ensures |Both(slash, s)| >= |s| && (Both(slash, s) == s <==> Unescaped(slash, s))
    decreases |s|
  {
    if s != "" {
      BothStaysIff(s[0] == '/', s[1..]);
      UnescapedStep(slash, s);
      assert s == [s[0]] + s[1..];
    }
  }

  lemma UnescapedStep(slash: bool, s: string)
    requires s != ""
    ensures Unescaped(slash, s) <==> !Escapes(slash, s[0]) && Unescaped(s[0] == '/', s[1..])
  {
    assert StaysAt(slash, s, 0) <==> !Escapes(slash, s[0]);
    var first, rest := s[0] == '/', s[1..];
    forall i: nat | i < |rest| ensures StaysAt(first, rest, i) <==> StaysAt(slash, s, i + 1) {
      assert rest[i] == s[i + 1] && (i > 0 ==> rest[i - 1] == s[i]);
    }
    if !Escapes(slash, s[0]) && Unescaped(s[0] == '/', s[1..]) {
      forall i | 0 <= i < |s| ensures StaysAt(slash, s, i) {
        assert i > 0 ==> StaysAt(s[0] == '/', s[1..], i - 1);
      }
    }
  }

  lemma TwoColumns(c: char)
    requires c as int < 256
    ensures var e := Escaped(c);
      |e| == 3 && e[0] == '_' && HexValue(e[1]) * 16 + HexValue(e[2]) == c as int
  {
    if c as int >= 16 {
      TwoDigits(c as int);
    }
  }

  lemma UnescapeTwo(slash: bool, c: char, rest: string)
    requires c as int < 256 && Escapes(slash, c)
    ensures Unescape(slash, Escaped(c) + rest) == [c] + Unescape(false, rest)
  {
    hide Escaped, HexValue, Escapes;
    TwoColumns(c);
    var e := Escaped(c);
    var s := e + rest;
    assert s[3..] == rest && s[0] == e[0] && s[1] == e[1] && s[2] == e[2];
  }

  lemma UnescapeThree(slash: bool, c: char, rest: string)
    requires 256 <= c as int < 4096 && !Escapes(slash, (c as int / 16) as char)
    ensures Unescape(slash, Escaped(c) + rest) == [c] + Unescape(false, rest)
  {
    var n := c as int;
    ThreeDigits(n);
    TwoDigits(n / 16);
    var s := Escaped(c) + rest;
    assert |Escaped(c)| == 4 && s[4..] == rest;
    assert s[1] == Hex(n)[0] && s[2] == Hex(n)[1] && s[3] == Hex(n)[2];
    assert Hex(n)[0] == Hex(n / 16)[0] && Hex(n)[1] == Hex(n / 16)[1];
    assert HexValue(s[1]) * 16 + HexValue(s[2]) == n / 16;
  }

  /** A character that is written with no more digits than are read back. */
  predicate Short(slash: bool, c: char) {
    c as int < 256 || (c as int < 4096 && !Escapes(slash, (c as int / 16) as char))
  }

  lemma UnescapeShort(slash: bool, c: char, rest: string)
    requires Escapes(slash, c) && Short(slash, c)
    ensures Unescape(slash, Escaped(c) + rest) == [c] + Unescape(false, rest)
  {
    hide Escaped, Unescape;
    if c as int < 256 {
      UnescapeTwo(slash, c, rest);
    } else {
      UnescapeThree(slash, c, rest);
    }
  }

  /** The long escape of a character is the short one of its canonical first
      character, with the other digits behind it. */
  lemma CanonShape(slash: bool, c: char)
    requires Escapes(slash, c)
    ensures var d, tail := Top(c as int, Limit(slash, c)) as char, Tail(c as int, Limit(slash, c));
      && Escapes(slash, d) && Short(slash, d) && Escaped(c) == Escaped(d) + tail
      && (tail != "" ==> d as int >= 16)
  {
    var n, limit := c as int, Limit(slash, c);
    var top, tail := Top(n, limit), Tail(n, limit);
    TopTail(n, limit);
    hide Hex, Escaped;
    if n >= limit {
      assert top >= limit / 16 >= 16;
      EscapedLonger(c, top as char, tail);
    } else {
      assert tail == "" && top as char == c;
      assert Escaped(c) + "" == Escaped(c);
    }
    if limit == 4096 && top >= 256 {
      SameTop(n);
    }
  }

  /** The first two digits of the first three are the first two. */
  lemma {:induction false} SameTop(n: nat)
    requires n >= 256
    ensures Top(n, 4096) / 16 == Top(n, 256)
  {
    if n >= 4096 {
      SameTop(n / 16);
      assert Top(n, 256) == Top(n / 16, 256);
    }
  }

  /** Reading back gives the canonical form of a path. */
  lemma {:induction false} UnescapeBoth(slash: bool, s: string, rest: string)
    requires rest == "" || rest[0] == '/'
    ensures Unescape(slash, Both(slash, s) + rest) == Canonical(slash, s) + Unescape(false, rest)
    decreases |s|
  {
    hide Unescape, Both, Canonical, Escaped, Top, Tail, Limit;
    if s == "" {
      RestAlone(slash, rest);
    } else {
      var c, tail := s[0], s[1..];
      assert s == [c] + tail;
      var more := Both(c == '/', tail) + rest;
      BothStep(slash, c, tail);
      CanonicalStep(slash, c, tail);
      UnescapeBoth(c == '/', tail, rest);
      Text.Associate(Piece(slash, c), Both(c == '/', tail), rest);
      UnescapePiece(slash, c, more);
      Text.Associate(Canon(slash, c), Canonical(c == '/', tail), Unescape(false, rest));
    }
  }

  lemma RestAlone(slash: bool, rest: string)
    requires rest == "" || rest[0] == '/'
    ensures Unescape(slash, Both(slash, "") + rest) == Canonical(slash, "") + Unescape(false, rest)
  {
    assert Both(slash, "") + rest == rest;
  }

  lemma UnescapePiece(slash: bool, c: char, rest: string)
    ensures Unescape(slash, Piece(slash, c) + rest) == Canon(slash, c) + Unescape(c == '/', rest)
  {
    hide Unescape, Escaped, Top, Tail, Limit;
    if Escapes(slash, c) {
      var d, tail := Top(c as int, Limit(slash, c)) as char, Tail(c as int, Limit(slash, c));
      CanonShape(slash, c);
      UnescapeShort(slash, d, tail + rest);
      UnescapeHex(tail, rest);
      Text.Associate(Escaped(d), tail, rest);
      Text.Associate([d], tail, Unescape(false, rest));
    } else {
      UnescapeStep(slash, c, rest);
    }
  }

  // ---- colons ----

  predicate NoColon(s: string) { forall i :: 0 <= i < |s| ==> s[i] != ':' }

  lemma {:induction false} BothHasNoColon(slash: bool, s: string)
    ensures NoColon(Both(slash, s))
    decreases |s|
  {
    if s != "" {
      hide Escaped;
      BothHasNoColon(s[0] == '/', s[1..]);
      EscapedShape(s[0]);
    }
  }

  lemma ColonsStep(c: char, rest: string)
    ensures Colons([c] + rest) == (if c == '/' then "::" else [c]) + Colons(rest)
  {
    assert ([c] + rest)[1..] == rest;
  }

  lemma UncolonPrefix(rest: string)
    ensures Uncolon("::" + rest) == "/" + Uncolon(rest)
  {
    assert ("::" + rest)[2..] == rest;
  }

  lemma UncolonPlain(c: char, rest: string)
    requires c != ':'
    ensures Uncolon([c] + rest) == [c] + Uncolon(rest)
  {
    assert ([c] + rest)[1..] == rest;
  }

  lemma {:induction false} UncolonColons(s: string, rest: string)
    requires NoColon(s)
    ensures Uncolon(Colons(s) + rest) == s + Uncolon(rest)
  {
    if s == "" {
      assert Colons(s) + rest == rest;
    } else {
      hide Colons, Uncolon;
      var tail := s[1..];
      UncolonColons(tail, rest);
      ColonsStep(s[0], tail);
      assert s == [s[0]] + tail;
      Text.Associate(if s[0] == '/' then "::" else [s[0]], Colons(tail), rest);
      Text.Associate([s[0]], tail, Uncolon(rest));
      if s[0] == '/' {
        UncolonPrefix(Colons(tail) + rest);
      } else {
        UncolonPlain(s[0], Colons(tail) + rest);
      }
    }
  }

  lemma UncolonAll(s: string)
    requires NoColon(s)
    ensures Uncolon(Colons(s)) == s
  {
    UncolonColons(s, "");
    assert Colons(s) + "" == Colons(s) && s + "" == s;
    assert Uncolon("") == "";
  }

  /** The name starts like the path does. */
  lemma PackageShape(path: string)
    ensures "::" <= Colons(Both(false, path)) <==> Absolute(path)
    ensures NoColon(Both(false, path))
  {
    BothHasNoColon(false, path);
    var b := Both(false, path);
    if path != "" {
      EscapedShape(path[0]);
      assert b[0] == if Escapes(false, path[0]) then '_' else path[0];
      assert b == [b[0]] + b[1..];
      ColonsStep(b[0], b[1..]);
      hide Both, Escaped, Colons;
      var name := Colons(b);
      assert name[0] == if path[0] == '/' then ':' else b[0];
      assert path[0] == '/' ==> name[..2] == "::";
    }
  }

  // ---- the operation ----

  /** The path as it reads back from its own name, made absolute. */
  function ReadBack(path: string): string {
    Canonical(false, if Absolute(path) then path else "/" + path)
  }

  /** Three substitutions, one after the other, and a prefix chosen by looking at
      their result. They give the name that one scan of the path gives, and the
      canonical form of the path can be read off it. */
  method ValidPackageName(path: string) returns (name: string)
    ensures name == PackageOf(path)
    ensures PathOf(name) == ReadBack(path)
    ensures NoDigitComponent(name) <==> Absolute(path) || !DigitFirst(path)
  {
    hide EscapeSpecial, EscapeLeadingDigits, Colons, Both, PathOf, NoDigitComponent, ReadBack;
    TwoPasses(path);
    PackageShape(path);
    PathOfPackage(path);
    ComponentsIff(path);
    var s := path;
    s := EscapeSpecial(s);
    s := EscapeLeadingDigits(s);
    s := Colons(s);
    if "::" <= s {
      name := "Embed" + s;
    } else {
      name := "Embed::" + s;
    }
  }

  // ---- reading back ----

  /** On every path, undoing the name gives the canonical form of the path, made
      absolute; on a path of bytes that is the path itself. */
  lemma PathOfPackage(path: string)
    ensures PathOf(PackageOf(path)) == ReadBack(path)
    ensures Bytes(path) ==> ReadBack(path) == if Absolute(path) then path else "/" + path
  {
    hide Both, Colons, Uncolon, Unescape, Canonical;
    if Bytes(path) {
      BytesAreCanonical(false, if Absolute(path) then path else "/" + path);
    }
    var b := Both(false, path);
    PackageShape(path);
    UncolonAll(b);
    Prefix("Embed", Colons(b));
    Prefix("Embed::", Colons(b));
    if Absolute(path) {
      UnescapeBoth(false, path, "");
      UnescapeNothing(false);
      assert b + "" == b && Canonical(false, path) + "" == Canonical(false, path);
    } else {
      UncolonPrefix(Colons(b));
      RelativeReadBack(path);
    }
  }

  lemma Prefix(prefix: string, s: string)
    requires prefix == "Embed" || prefix == "Embed::"
    ensures |prefix + s| >= 5 && (prefix + s)[5..] == if prefix == "Embed" then s else "::" + s
  {
  }

  lemma RelativeReadBack(path: string)
    requires !Absolute(path)
    ensures Unescape(false, "/" + Both(false, path)) == Canonical(false, "/" + path)
  {
    hide Both, Unescape, Canonical;
    UnescapeStep(false, '/', Both(false, path));
    CanonicalStep(false, '/', path);
    assert Canon(false, '/') == "/";
    if DigitFirst(path) {
      DigitReadBack(path);
    } else {
      SlashMatters(path);
      UnescapeBoth(true, path, "");
      UnescapeNothing(false);
      assert Both(true, path) + "" == Both(true, path) && Canonical(true, path) + "" == Canonical(true, path);
    }
  }

  lemma DigitReadBack(path: string)
    requires DigitFirst(path)
    ensures Unescape(true, Both(false, path)) == Canonical(true, path)
  {
    hide Both, Unescape, Canonical;
    var d, rest := path[0], path[1..];
    assert path == [d] + rest;
    BothStep(false, d, rest);
    CanonicalStep(true, d, rest);
    UnescapeStep(true, d, Both(false, rest));
    UnescapeBoth(false, rest, "");
    UnescapeNothing(false);
    assert Both(false, rest) + "" == Both(false, rest) && Canonical(false, rest) + "" == Canonical(false, rest);
    assert Canon(true, d) == [d];
  }

  // ---- canonical forms ----

  lemma {:induction false} BothHex(s: string, rest: string)
    requires HexString(s)
    ensures Both(false, s + rest) == s + Both(false, rest)
    decreases |s|
  {
    if s == "" {
      assert s + rest == rest;
    } else {
      hide Both, Escaped, Piece;
      var c, tail := s[0], s[1..];
      BothHex(tail, rest);
      HexIsPlain(c);
      BothStep(false, c, tail + rest);
      assert s == [c] + tail;
      Text.Associate([c], tail, rest);
      Text.Associate([c], tail, Both(false, rest));
    }
  }

  lemma HexIsPlain(c: char)
    requires HexChar(c)
    ensures Piece(false, c) == [c] && c != '/'
  {
  }

  lemma BothCanon(slash: bool, c: char, rest: string)
    ensures Both(slash, Canon(slash, c) + rest) == Piece(slash, c) + Both(c == '/', rest)
  {
    hide Both, Escaped, Top, Tail, Limit;
    if Escapes(slash, c) {
      var d, tail := Top(c as int, Limit(slash, c)) as char, Tail(c as int, Limit(slash, c));
      CanonShape(slash, c);
      Text.Associate([d], tail, rest);
      BothStep(slash, d, tail + rest);
      BothHex(tail, rest);
      Text.Associate(Escaped(d), tail, Both(false, rest));
    } else {
      BothStep(slash, c, rest);
    }
  }

  /** A path and its canonical form have the same name. */
  lemma {:induction false} BothCanonical(slash: bool, s: string)
    ensures Both(slash, Canonical(slash, s)) == Both(slash, s)
    decreases |s|
  {
    hide Both, Canonical;
    if s == "" {
      assert Canonical(slash, s) == "" by { CanonicalNothing(slash); }
    } else {
      var c, tail := s[0], s[1..];
      assert s == [c] + tail;
      BothCanonical(c == '/', tail);
      CanonicalStep(slash, c, tail);
      BothStep(slash, c, tail);
      BothCanon(slash, c, Canonical(c == '/', tail));
    }
  }

  lemma CanonicalNothing(slash: bool)
    ensures Canonical(slash, "") == ""
  {
  }

  /** Two strings are escaped to the same exactly if they have the same canonical form. */
  lemma SameBothIff(slash: bool, s: string, t: string)
    ensures Both(slash, s) == Both(slash, t) <==> Canonical(slash, s) == Canonical(slash, t)
  {
    hide Both, Canonical, Unescape;
    BothCanonical(slash, s);
    BothCanonical(slash, t);
    ReadsCanonical(slash, s);
    ReadsCanonical(slash, t);
  }

  lemma ReadsCanonical(slash: bool, s: string)
    ensures Unescape(slash, Both(slash, s)) == Canonical(slash, s)
  {
    hide Both, Canonical, Unescape;
    UnescapeBoth(slash, s, "");
    UnescapeNothing(false);
    assert Both(slash, s) + "" == Both(slash, s) && Canonical(slash, s) + "" == Canonical(slash, s);
  }

  /** Bytes are their own canonical form. */
  lemma {:induction false} BytesAreCanonical(slash: bool, s: string)
    requires Bytes(s)
    ensures Canonical(slash, s) == s
    decreases |s|
  {
    if s != "" {
      BytesAreCanonical(s[0] == '/', s[1..]);
      assert Canon(slash, s[0]) == [s[0]];
      assert s == [s[0]] + s[1..];
    }
  }

  // ---- which paths share a name ----

  /** Over all paths: two absolute ones share their name, and two relative ones,
      exactly if they have the same canonical form; a relative one shares it with
      an absolute one exactly if it does so with a slash in front, and does not
      start with a digit. */
  lemma CollisionIff(p: string, q: string)
    ensures Absolute(p) == Absolute(q) ==>
      (PackageOf(p) == PackageOf(q) <==> Canonical(false, p) == Canonical(false, q))
    ensures !Absolute(p) && Absolute(q) ==>
      (PackageOf(p) == PackageOf(q) <==> !DigitFirst(p) && Canonical(false, "/" + p) == Canonical(false, q))
  {
    hide Both, Colons, Canonical, Uncolon;
    PackageShape(p);
    PackageShape(q);
    UncolonAll(Both(false, p));
    UncolonAll(Both(false, q));
    SameBothIff(false, p, q);
    Prefix("Embed", Colons(Both(false, p)));
    Prefix("Embed::", Colons(Both(false, p)));
    Prefix("Embed", Colons(Both(false, q)));
    Prefix("Embed::", Colons(Both(false, q)));
    if !Absolute(p) && Absolute(q) {
      MixedCollision(p, q);
    } else if !Absolute(p) {
      assert ("::" + Colons(Both(false, p)))[2..] == Colons(Both(false, p));
      assert ("::" + Colons(Both(false, q)))[2..] == Colons(Both(false, q));
    }
  }

  lemma MixedCollision(p: string, q: string)
    requires !Absolute(p) && Absolute(q)
    ensures PackageOf(p) == PackageOf(q) <==> !DigitFirst(p) && Canonical(false, "/" + p) == Canonical(false, q)
  {
    hide Both, Colons, Canonical, Uncolon;
    var bp, bq := Both(false, p), Both(false, q);
    PackageShape(p);
    PackageShape(q);
    UncolonPrefix(Colons(bp));
    UncolonAll(bp);
    UncolonAll(bq);
    ColonsStep('/', bp);
    Prefix("Embed::", Colons(bp));
    Prefix("Embed", Colons(bq));
    assert PackageOf(p) == PackageOf(q) <==> bq == "/" + bp;
    SameBothIff(false, "/" + p, q);
    BothStep(false, '/', p);
    if DigitFirst(p) {
      SlashDigit(p, q);
    } else {
      SlashMatters(p);
    }
  }

  /** No absolute path has a bare digit behind its first slash. */
  lemma SlashDigit(p: string, q: string)
    requires DigitFirst(p) && Absolute(q)
    ensures Both(false, q) != "/" + Both(false, p)
  {
    var rest := q[1..];
    assert q == ['/'] + rest;
    BothStep(false, '/', rest);
    assert Both(false, p)[0] == p[0];
    if rest != "" {
      EscapedShape(rest[0]);
      assert Both(true, rest)[0] == if Escapes(true, rest[0]) then '_' else rest[0];
    }
    assert ("/" + Both(false, p))[1] == p[0];
  }

  /** A relative path shares its name with the absolute path that reads the same
      after its slash exactly unless it starts with a digit. */
  lemma TwinsCollide(p: string)
    requires !Absolute(p)
    ensures PackageOf(p) == PackageOf("/" + p) <==> !DigitFirst(p)
  {
    CollisionIff(p, "/" + p);
  }

  /** A relative path and the absolute path that reads the same after its slash. */
  predicate Twins(relative: string, absolute: string) {
    !Absolute(relative) && absolute == "/" + relative && !DigitFirst(relative)
  }

  /** Over paths of bytes, relative ones included, exactly the twins share a package. */
  lemma BytesCollisionIff(p: string, q: string)
    requires Bytes(p) && Bytes(q)
    ensures PackageOf(p) == PackageOf(q) <==> p == q || Twins(p, q) || Twins(q, p)
  {
    hide PackageOf, Canonical;
    CollisionIff(p, q);
    CollisionIff(q, p);
    BytesAreCanonical(false, p);
    BytesAreCanonical(false, q);
    BytesAreCanonical(false, "/" + p);
    BytesAreCanonical(false, "/" + q);
  }

  /** Absolute paths of bytes are never compiled into the same package. */
  lemma AbsoluteBytesStayApart(p: string, q: string)
    requires Bytes(p) && Bytes(q) && Absolute(p) && Absolute(q)
    requires PackageOf(p) == PackageOf(q)
    ensures p == q
  {
    hide PackageOf, Canonical;
    CollisionIff(p, q);
    BytesAreCanonical(false, p);
    BytesAreCanonical(false, q);
  }

  /** Paths that bytes cannot spell collide with paths that they can. */
  lemma CharactersCollide()
    ensures PackageOf("/a\U{2DB}") == PackageOf("/a-b")
    ensures PackageOf("/\U{2013}") == PackageOf("/ 13")
  {
    hide Both, Colons, Canonical, Escaped, Hex;
    assert "b"[..0] == "" && Extended(0x2D, "b") == 0x2DB;
    assert "13"[..1] == "1" && "1"[..0] == "" && Extended(0x20, "1") == 0x201 && Extended(0x20, "13") == 0x2013;
    var x, y := ['\U{2DB}'], ['-'] + "b";
    OneCharacter(false, '\U{2DB}', '-', "b");
    BehindSame(true, 'a', x, y);
    BehindSame(false, '/', ['a'] + x, ['a'] + y);
    assert "/a\U{2DB}" == ['/'] + (['a'] + x) && "/a-b" == ['/'] + (['a'] + y);
    var v, w := ['\U{2013}'], [' '] + "13";
    OneCharacter(true, '\U{2013}', ' ', "13");
    BehindSame(false, '/', v, w);
    assert "/\U{2013}" == ['/'] + v && "/ 13" == ['/'] + w;
  }

  lemma BehindSame(slash: bool, c: char, s: string, t: string)
    requires Both(c == '/', s) == Both(c == '/', t)
    ensures Both(slash, [c] + s) == Both(slash, [c] + t)
  {
    hide Both, Piece;
    BothStep(slash, c, s);
    BothStep(slash, c, t);
  }

  /** A character is escaped like another one that its first digits make, with the other digits behind it. */
  lemma OneCharacter(slash: bool, c: char, d: char, tail: string)
    requires Escapes(slash, c) && Escapes(slash, d) && c as int >= 16 && d as int >= 16
    requires HexString(tail) && Extended(d as int, tail) == c as int
    ensures Both(slash, [c]) == Both(slash, [d] + tail)
  {
    hide Both, Escaped, Hex, Extended;
    HexExtended(d as int, tail);
    BothStep(slash, c, "");
    BothStep(slash, d, tail);
    BothNothing(false);
    BothHex(tail, "");
    EscapedLonger(c, d, tail);
    assert [c] + "" == [c] && tail + "" == tail;
    assert Escaped(c) + "" == Escaped(c);
  }

  /** At the front of `s` stands an escaped character with digits behind it that
      together are the code of another character. */
  predicate FusesHere(slash: bool, s: string) {
    && s != "" && Escapes(slash, s[0]) && s[0] as int >= 16
    && exists k :: 1 < k <= |s| && HexString(s[1..k]) && Scalar(Extended(s[0] as int, s[1..k]))
  }

  predicate Fuses(slash: bool, s: string)
    decreases |s|
  {
    s != "" && (FusesHere(slash, s) || Fuses(s[0] == '/', s[1..]))
  }

  /** A path with such a place shares its escapes with the path that has the other character there. */
  lemma {:induction false} Fused(slash: bool, s: string) returns (t: string)
    requires Fuses(slash, s)
    ensures t != s && Both(slash, t) == Both(slash, s)
    ensures !Escapes(slash, s[0]) ==> t != "" && t[0] == s[0]
    decreases |s|
  {
    hide Both, Escaped;
    if FusesHere(slash, s) {
      var k :| 1 < k <= |s| && HexString(s[1..k]) && Scalar(Extended(s[0] as int, s[1..k]));
      t := FusedHere(slash, s, k);
    } else {
      var rest := Fused(s[0] == '/', s[1..]);
      t := [s[0]] + rest;
      assert s == [s[0]] + s[1..] && t[1..] == rest;
      BothStep(slash, s[0], rest);
      BothStep(slash, s[0], s[1..]);
    }
  }

  lemma FusedHere(slash: bool, s: string, k: nat) returns (t: string)
    requires 1 < k <= |s| && Escapes(slash, s[0]) && s[0] as int >= 16
    requires HexString(s[1..k]) && Scalar(Extended(s[0] as int, s[1..k]))
    ensures t != s && t != "" && Both(slash, t) == Both(slash, s)
  {
    hide Both;
    var d, tail, rest := s[0], s[1..k], s[k..];
    var n := Extended(d as int, tail);
    Grows(d as int, tail);
    t := [n as char] + rest;
    assert s == [d] + (tail + rest);
    HexExtended(d as int, tail);
    BothStep(slash, n as char, rest);
    BothStep(slash, d, tail + rest);
    BothHex(tail, rest);
    EscapedLonger(n as char, d, tail);
    hide Hex, Escaped;
    Text.Associate(Escaped(d), tail, Both(false, rest));
    assert t[0] != s[0];
  }

  lemma {:induction false} Grows(n: nat, s: string)
    requires n >= 16 && s != ""
    ensures Extended(n, s) >= 256
  {
    if |s| > 1 {
      Grows(n, s[..|s| - 1]);
    }
  }

  /** A canonical path that shares its escapes with another one has such a place. */
  lemma {:induction false} SharedFuses(slash: bool, s: string, t: string)
    requires Canonical(slash, t) == s && t != s
    ensures Fuses(slash, s)
    decreases |t|
  {
    hide Canonical, Escaped, Top, Tail, Limit;
    if t == "" {
      CanonicalNothing(slash);
    } else {
      var c, rest := t[0], t[1..];
      assert t == [c] + rest;
      CanonicalStep(slash, c, rest);
      var more := Canonical(c == '/', rest);
      if Canon(slash, c) == [c] {
        assert s == [c] + more && s[1..] == more;
        SharedFuses(c == '/', more, rest);
      } else {
        LongFuses(slash, c, more);
      }
    }
  }

  lemma LongFuses(slash: bool, c: char, rest: string)
    requires Canon(slash, c) != [c]
    ensures FusesHere(slash, Canon(slash, c) + rest)
  {
    var n, limit := c as int, Limit(slash, c);
    var tail := Tail(n, limit);
    CanonShape(slash, c);
    TopTail(n, limit);
    var s := Canon(slash, c) + rest;
    var k := 1 + |tail|;
    assert s[1..k] == tail;
    assert Extended(s[0] as int, s[1..k]) == n;
  }

  predicate SharesName(p: string) {
    Canonical(false, p) != p || Fuses(false, p)
  }

  /** Exactly which absolute paths share their name with another absolute path:
      those with a character that is read back as several, and those with a place
      that another character is escaped to. */
  lemma SharesNameIff(p: string)
    requires Absolute(p)
    ensures (exists q :: Absolute(q) && q != p && PackageOf(q) == PackageOf(p)) <==> SharesName(p)
  {
    hide Both, Colons, Canonical, Fuses;
    if SharesName(p) {
      var q;
      if Canonical(false, p) != p {
        q := Canonical(false, p);
        BothCanonical(false, p);
        CanonicalAbsolute(p);
      } else {
        q := Fused(false, p);
      }
      assert Absolute(q) && q != p && PackageOf(q) == PackageOf(p);
    }
    if exists q :: Absolute(q) && q != p && PackageOf(q) == PackageOf(p) {
      var q :| Absolute(q) && q != p && PackageOf(q) == PackageOf(p);
      CollisionIff(q, p);
      if Canonical(false, p) == p {
        SharedFuses(false, p, q);
      }
    }
  }

  lemma CanonicalAbsolute(p: string)
    requires Absolute(p)
    ensures Absolute(Canonical(false, p))
  {
    assert p == ['/'] + p[1..];
    CanonicalStep(false, '/', p[1..]);
  }

  // ---- components ----

  /** No component of the name starts with a digit. */
  predicate NoDigitComponent(name: string) {
    forall i :: 0 <= i && i + 2 < |name| && name[i] == ':' && name[i + 1] == ':' ==> !Digit(name[i + 2])
  }

  predicate NoDigitAfterSlash(s: string) {
    forall i :: 0 <= i < |s| - 1 && s[i] == '/' ==> !Digit(s[i + 1])
  }

  lemma {:induction false} BothHidesDigits(slash: bool, s: string)
    ensures NoDigitAfterSlash(Both(slash, s))
    ensures slash ==> !DigitFirst(Both(slash, s))
    decreases |s|
  {
    if s != "" {
      hide Escaped;
      var rest := Both(s[0] == '/', s[1..]);
      BothHidesDigits(s[0] == '/', s[1..]);
      EscapedShape(s[0]);
      PieceHidesDigit(slash, s[0], rest);
    }
  }

  lemma PieceHidesDigit(slash: bool, c: char, rest: string)
    requires NoDigitAfterSlash(rest) && (c == '/' ==> !DigitFirst(rest))
    ensures NoDigitAfterSlash(Piece(slash, c) + rest)
  {
    hide Escaped;
    EscapedShape(c);
    var piece := Piece(slash, c);
    var b := piece + rest;
    forall i | 0 <= i < |b| - 1 && b[i] == '/' ensures !Digit(b[i + 1]) {
      if i < |piece| {
        assert piece[i] == '/' && piece == "/" && b[i + 1] == rest[0];
      } else {
        assert b[i] == rest[i - |piece|] && b[i + 1] == rest[i + 1 - |piece|];
      }
    }
  }

  lemma {:induction false} ColonsHideDigits(s: string)
    requires NoColon(s) && NoDigitAfterSlash(s)
    ensures NoDigitComponent(Colons(s))
    ensures s != "" ==> Colons(s)[0] == if s[0] == '/' then ':' else s[0]
  {
    if s != "" {
      assert NoDigitAfterSlash(s[1..]) by {
        assert forall i :: 0 <= i < |s| - 1 ==> s[1..][i] == s[i + 1];
      }
      ColonsHideDigits(s[1..]);
      if s[0] == '/' && |s| > 1 {
        assert !Digit(s[1]);
      }
    }
  }

  /** A Perl package name may not have a component that starts with a digit: it
      never does for absolute paths, and for relative ones unless they start with one. */
  lemma ComponentsIff(path: string)
    ensures NoDigitComponent(PackageOf(path)) <==> Absolute(path) || !DigitFirst(path)
  {
    PackageShape(path);
    BothHidesDigits(false, path);
    ColonsHideDigits(Both(false, path));
    if path == "" {
      BothNothing(false);
    } else {
      FirstCharacter(path);
    }
    hide Both;
    var tail := Colons(Both(false, path));
    var name := PackageOf(path);
    var start := |name| - |tail|;
    assert forall i :: start <= i < |name| ==> name[i] == tail[i - start];
    if !Absolute(path) && path != "" {
      assert name[5] == ':' && name[6] == ':' && name[7] == tail[0];
    }
  }

  lemma FirstCharacter(path: string)
    requires path != ""
    ensures Both(false, path) != "" && Both(false, path)[0] == if Escapes(false, path[0]) then '_' else path[0]
  {
    EscapedShape(path[0]);
  }

  // ---- packages inside packages ----

  lemma {:induction false} ColonsAppend(a: string, b: string)
    ensures Colons(a + b) == Colons(a) + Colons(b)
  {
    if a == "" {
      assert a + b == b;
    } else {
      hide Colons;
      var rest := a[1..];
      ColonsAppend(rest, b);
      ColonsStep(a[0], rest);
      ColonsStep(a[0], rest + b);
      assert a == [a[0]] + rest;
      Text.Associate([a[0]], rest, b);
      Text.Associate(if a[0] == '/' then "::" else [a[0]], Colons(rest), Colons(b));
    }
  }

  lemma {:induction false} BothAppend(slash: bool, s: string, rest: string)
    requires Absolute(rest)
    ensures Both(slash, s + rest) == Both(slash, s) + Both(false, rest)
    decreases |s|
  {
    hide Both, Piece;
    if s == "" {
      BothNothing(slash);
      assert s + rest == rest;
      FromSlash(slash, rest);
    } else {
      var tail := s[1..];
      BothAppend(s[0] == '/', tail, rest);
      BothStep(slash, s[0], tail);
      BothStep(slash, s[0], tail + rest);
      assert s == [s[0]] + tail;
      Text.Associate([s[0]], tail, rest);
      Text.Associate(Piece(slash, s[0]), Both(s[0] == '/', tail), Both(false, rest));
    }
  }

  lemma FromSlash(slash: bool, s: string)
    requires Absolute(s)
    ensures Both(slash, s) == Both(false, s)
  {
  }

  /** The package of an absolute path lies inside another's exactly when its
      canonical form lies below the other's. */
  lemma NestedIff(p: string, q: string)
    requires Absolute(p) && Absolute(q)
    ensures PackageOf(p) + "::" <= PackageOf(q) <==> Canonical(false, p) + "/" <= Canonical(false, q)
    ensures Bytes(p) && Bytes(q) ==> (PackageOf(p) + "::" <= PackageOf(q) <==> p + "/" <= q)
  {
    hide PackageOf, Canonical;
    if Bytes(p) && Bytes(q) {
      BytesAreCanonical(false, p);
      BytesAreCanonical(false, q);
    }
    if Canonical(false, p) + "/" <= Canonical(false, q) {
      PathBelow(p, q, Canonical(false, q)[|Canonical(false, p)|..]);
    }
    if PackageOf(p) + "::" <= PackageOf(q) {
      PackageBelow(p, q, PackageOf(q)[|PackageOf(p)| + 2..]);
    }
  }

  lemma PathBelow(p: string, q: string, rest: string)
    requires Absolute(p) && Absolute(q) && Absolute(rest) && Canonical(false, q) == Canonical(false, p) + rest
    ensures PackageOf(p) + "::" <= PackageOf(q)
  {
    hide Both, Colons, Canonical;
    BothCanonical(false, p);
    BothCanonical(false, q);
    BothAppend(false, Canonical(false, p), rest);
    ColonsAppend(Both(false, p), Both(false, rest));
    PackageShape(rest);
    assert PackageOf(q) == PackageOf(p) + Colons(Both(false, rest));
  }

  lemma PackageBelow(p: string, q: string, rest: string)
    requires Absolute(p) && Absolute(q)
    requires PackageOf(q) == PackageOf(p) + "::" + rest
    ensures Canonical(false, p) + "/" <= Canonical(false, q)
  {
    hide Both, Colons, Uncolon, Unescape, Canonical;
    var b := Both(false, p);
    PathOfPackage(q);
    PackageShape(p);
    UncolonColons(b, "::" + rest);
    UncolonPrefix(rest);
    assert PackageOf(q)[5..] == Colons(b) + ("::" + rest);
    UnescapeBoth(false, p, "/" + Uncolon(rest));
    UnescapeStep(false, '/', Uncolon(rest));
    assert Canonical(false, q) == Canonical(false, p) + ("/" + Unescape(true, Uncolon(rest)));
  }

  /** The package that eval_file itself lives in. */
  const OWN_PACKAGE := "Embed::Persistent"

  predicate Letters(s: string) {
    forall i :: 0 <= i < |s| ==> 'A' <= s[i] <= 'Z' || 'a' <= s[i] <= 'z' || s[i] == '/'
  }

  lemma {:induction false} LettersStay(slash: bool, s: string)
    requires Letters(s)
    ensures Both(slash, s) == s && Canonical(slash, s) == s && !Fuses(slash, s)
    decreases |s|
  {
    if s != "" {
      LettersStay(s[0] == '/', s[1..]);
      assert [s[0]] + s[1..] == s;
      assert Canon(slash, s[0]) == [s[0]];
    }
  }

  lemma {:induction false} LettersAlone(s: string)
    requires Letters(s) && '/' !in s
    ensures Colons(s) == s
  {
    if s != "" {
      LettersAlone(s[1..]);
      assert [s[0]] + s[1..] == s;
    }
  }

  /** Exactly two paths, of bytes or not, are compiled into the package of the
      server's own code, which is emptied for them. */
  lemma OwnPackageIff(path: string)
    ensures PackageOf(path) == OWN_PACKAGE <==> path == "/Persistent" || path == "Persistent"
  {
    OwnName();
    hide PackageOf, Canonical, Fuses;
    LettersStay(false, "/Persistent") by {
      OwnLetters();
    }
    CollisionIff(path, "/Persistent");
    assert ("/" + path)[1..] == path && "/Persistent"[1..] == "Persistent";
    if PackageOf(path) == OWN_PACKAGE {
      var absolute := if Absolute(path) then path else "/" + path;
      if absolute != "/Persistent" {
        SharedFuses(false, "/Persistent", absolute);
      }
    }
    assert "/Persistent" == "/" + "Persistent";
  }

  lemma OwnName()
    ensures PackageOf("/Persistent") == OWN_PACKAGE
  {
    var path := "/Persistent";
    hide Both, Colons, Canonical, Fuses, Letters;
    LettersStay(false, path) by {
      OwnLetters();
    }
    LettersAlone("Persistent") by {
      OwnLetters();
    }
    ColonsStep('/', "Persistent");
    assert path == ['/'] + "Persistent";
    assert "Embed" + ("::" + "Persistent") == OWN_PACKAGE;
  }

  lemma OwnLetters()
    ensures Letters("/Persistent") && Letters("Persistent") && '/' !in "Persistent"
  {
  }
}
