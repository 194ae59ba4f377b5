/** What bytes.TrimSpace cuts off, against Unicode's own list of white space. */
module WhiteSpace {
  import opened WireFormat

  /** The code points that Unicode calls white space. */
  predicate IsSpace(point: nat)
    ensures IsSpace(point) ==> point < 0x10000
  {
    || 0x0009 <= point <= 0x000D || point == 0x0020 || point == 0x0085 || point == 0x00A0 || point == 0x1680
    || 0x2000 <= point <= 0x200A || point == 0x2028 || point == 0x2029 || point == 0x202F || point == 0x205F
    || point == 0x3000
  }

  function Byte(n: nat): string
    requires n < 0x100
  {
    [n as char]
  }

  /** UTF-8 (section 3 of RFC 3629) of the code points below 0x10000. */
  function Utf8(point: nat): string
    requires point < 0x10000
  {
    if point < 0x80 then Byte(point)
    else if point < 0x800 then Byte(0xC0 + point / 64) + Byte(0x80 + point % 64)
    else Byte(0xE0 + point / 4096) + Byte(0x80 + point / 64 % 64) + Byte(0x80 + point % 64)
  }

  lemma PointOf(s: string) returns (point: nat)
    requires SpaceRune(s)
    ensures IsSpace(point) && s == Utf8(point)
  {
    hide IsSpace, Utf8;
    if |s| == 1 {
      point := s[0] as int;
      ShortPoint(s, point);
    } else if |s| == 2 {
      point := s[1] as int;
      ShortPoint(s, point);
    } else {
      point := (s[0] as int - 0xE0) * 4096 + (s[1] as int - 0x80) * 64 + (s[2] as int - 0x80);
      LongPoint(s, point);
    }
  }

  lemma ShortPoint(s: string, point: nat)
    requires SpaceRune(s) && |s| <= 2 && point == s[|s| - 1] as int
    ensures IsSpace(point) && s == Utf8(point)
  {
  }

  lemma LongPoint(s: string, point: nat)
    requires SpaceRune(s) && |s| == 3
    requires point == (s[0] as int - 0xE0) * 4096 + (s[1] as int - 0x80) * 64 + (s[2] as int - 0x80)
    ensures IsSpace(point) && s == Utf8(point)
  {
    assert s == [s[0]] + [s[1]] + [s[2]];
  }

  lemma Encoded(point: nat)
    requires IsSpace(point)
    ensures SpaceRune(Utf8(point)) && 1 <= |Utf8(point)| <= 3
  {
    hide IsSpace;
    if point < 0x100 {
      EncodedShort(point);
    } else {
      EncodedLong(point);
    }
  }

  lemma EncodedShort(point: nat)
    requires IsSpace(point) && point < 0x100
    ensures SpaceRune(Utf8(point)) && 1 <= |Utf8(point)| <= 3
  {
  }

  lemma EncodedLong(point: nat)
    requires IsSpace(point) && point >= 0x100
    ensures SpaceRune(Utf8(point)) && 1 <= |Utf8(point)| <= 3
  {
    var high, middle, low := point / 4096, point / 64 % 64, point % 64;
    assert point == high * 4096 + middle * 64 + low;
    assert Utf8(point) == [(0xE0 + high) as char, (0x80 + middle) as char, (0x80 + low) as char];
  }

  /** The bytes tested for are those of the white space characters, and of no others. */
  lemma SpaceRuneIff(s: string)
    ensures SpaceRune(s) <==> exists point: nat :: IsSpace(point) && s == Utf8(point)
  {
    hide SpaceRune, IsSpace, Utf8;
    if SpaceRune(s) {
      var point := PointOf(s);
    } else if point: nat :| IsSpace(point) && s == Utf8(point) {
      Encoded(point);
    }
  }

  predicate Spaces(points: seq<nat>) {
    forall i :: 0 <= i < |points| ==> IsSpace(points[i])
  }

  function Text(points: seq<nat>): string
    requires Spaces(points)
  {
    if points == [] then "" else Utf8(points[0]) + Text(points[1..])
  }

  lemma {:induction false} TextAppend(points: seq<nat>, last: nat)
    requires Spaces(points) && IsSpace(last)
    ensures Text(points + [last]) == Text(points) + Utf8(last)
  {
    hide IsSpace, Utf8;
    if points == [] {
      assert [last][1..] == [];
    } else {
      TextAppend(points[1..], last);
      assert (points + [last])[1..] == points[1..] + [last];
    }
  }

  /** No white space character stands at the front, and none at the end. */
  ghost predicate BareFront(s: string) {
    forall point: nat :: IsSpace(point) ==> !(Utf8(point) <= s)
  }

  ghost predicate BareEnd(s: string) {
    forall point: nat :: IsSpace(point) ==> |Utf8(point)| > |s| || s[|s| - |Utf8(point)|..] != Utf8(point)
  }

  lemma NoneAtStart(s: string)
    requires SpaceAtStart(s) == 0
    ensures BareFront(s)
  {
    hide SpaceRune, IsSpace, Utf8;
    forall point: nat | IsSpace(point) ensures !(Utf8(point) <= s) {
      Encoded(point);
      var n := |Utf8(point)|;
      assert n <= |s| ==> !SpaceRune(s[..n]);
      PrefixIs(Utf8(point), s);
    }
  }

  lemma PrefixIs(front: string, s: string)
    ensures front <= s <==> |front| <= |s| && s[..|front|] == front
  {
  }

  lemma NoneAtEnd(s: string)
    requires SpaceAtEnd(s) == 0
    ensures BareEnd(s)
  {
    hide SpaceRune, IsSpace, Utf8;
    forall point: nat | IsSpace(point) ensures |Utf8(point)| > |s| || s[|s| - |Utf8(point)|..] != Utf8(point) {
      Encoded(point);
      var n := |Utf8(point)|;
      assert n <= |s| ==> !SpaceRune(s[|s| - n..]);
    }
  }

  lemma {:induction false} TrimStartCuts(s: string) returns (front: seq<nat>)
    ensures Spaces(front) && s == Text(front) + TrimStart(s) && BareFront(TrimStart(s))
    decreases |s|
  {
    hide IsSpace, Utf8, BareFront, SpaceAtStart, SpaceRune, Text;
    var n := SpaceAtStart(s);
    if n == 0 {
      front := [];
      NoneAtStart(s);
      TextEmpty();
    } else {
      SpaceIsRune(s);
      var point := PointOf(s[..n]);
      var rest := TrimStartCuts(s[n..]);
      front := [point] + rest;
      TextCons(point, rest);
      CutAt(s, n, Text(rest), TrimStart(s));
    }
  }

  lemma TextEmpty()
    ensures Text([]) == ""
  {
  }

  lemma TextCons(point: nat, rest: seq<nat>)
    requires IsSpace(point) && Spaces(rest)
    ensures Spaces([point] + rest) && Text([point] + rest) == Utf8(point) + Text(rest)
  {
    hide IsSpace, Utf8;
    assert ([point] + rest)[1..] == rest;
  }

  lemma CutAt(s: string, n: nat, more: string, end: string)
    requires n <= |s| && s[n..] == more + end
    ensures s == s[..n] + more + end
  {
  }

  lemma SpaceIsRune(s: string)
    ensures SpaceAtStart(s) > 0 ==> SpaceRune(s[..SpaceAtStart(s)])
    ensures SpaceAtEnd(s) > 0 ==> SpaceRune(s[|s| - SpaceAtEnd(s)..])
  {
    hide SpaceRune;
  }

  lemma {:induction false} TrimEndCuts(s: string) returns (back: seq<nat>)
    ensures Spaces(back) && s == TrimEnd(s) + Text(back) && BareEnd(TrimEnd(s))
    decreases |s|
  {
    hide IsSpace, Utf8, BareEnd, SpaceAtEnd, SpaceRune, Text;
    var n := SpaceAtEnd(s);
    if n == 0 {
      back := [];
      NoneAtEnd(s);
      TextEmpty();
    } else {
      var cut := |s| - n;
      SpaceIsRune(s);
      var point := PointOf(s[cut..]);
      var rest := TrimEndCuts(s[..cut]);
      back := rest + [point];
      TextAppend(rest, point);
      CutEnd(s, cut, TrimEnd(s), Text(rest));
    }
  }

  lemma CutEnd(s: string, cut: nat, start: string, more: string)
    requires cut <= |s| && s[..cut] == start + more
    ensures s == start + (more + s[cut..])
  {
  }

  lemma FrontOfPrefix(s: string, t: string)
    requires s <= t && BareFront(t)
    ensures BareFront(s)
  {
    hide IsSpace, Utf8;
  }

  /** Every text is its trimmed text between two runs of white space characters, and has no more of them at either end. */
  lemma TrimSpaceIsMiddle(s: string) returns (front: seq<nat>, back: seq<nat>)
    ensures Spaces(front) && Spaces(back)
    ensures s == Text(front) + TrimSpace(s) + Text(back)
    ensures BareFront(TrimSpace(s)) && BareEnd(TrimSpace(s))
  {
    hide Spaces, Text, TrimStart, TrimEnd, BareFront, BareEnd;
    front := TrimStartCuts(s);
    back := TrimEndCuts(TrimStart(s));
    FrontOfPrefix(TrimSpace(s), TrimStart(s));
  }
}
