/** The arithmetic that fits the columns of a table into a line. */
module ColumnWidths {
  import opened Outcomes

  const MAX_LINE_LENGTH := 120

  /** Go's integer division by a positive number: truncation toward zero. */
  function Quot(a: int, b: nat): int
    requires b > 0
  {
    if a >= 0 then a / b else -((-a) / b)
  }

  /** Width of a line: every column has three more characters. */
  function Total(sizes: seq<int>): int {
    if sizes == [] then 0 else Total(sizes[..|sizes| - 1]) + sizes[|sizes| - 1] + 3
  }

  function CountWide(sizes: seq<int>, avg: int): nat {
    if sizes == [] then 0
    else CountWide(sizes[..|sizes| - 1], avg) + (if sizes[|sizes| - 1] > avg then 1 else 0)
  }

  function SumWide(sizes: seq<int>, avg: int): int {
    if sizes == [] then 0
    else SumWide(sizes[..|sizes| - 1], avg) + (if sizes[|sizes| - 1] > avg then sizes[|sizes| - 1] else 0)
  }

  function Resized(sizes: seq<int>, avg: int, large: int): seq<int> {
    seq(|sizes|, i requires 0 <= i < |sizes| => if sizes[i] > avg then large else sizes[i])
  }

  function Average(sizes: seq<int>): int
    requires sizes != []
  {
    MAX_LINE_LENGTH / |sizes|
  }

  /** What the narrow columns leave for the wide ones. */
  function Room(sizes: seq<int>): int
    requires sizes != []
  {
    MAX_LINE_LENGTH - (Total(sizes) - SumWide(sizes, Average(sizes)))
  }

  /** The final sizes; None where the division by the number of wide columns panics. */
  function FinalSizes(sizes: seq<int>): Option<seq<int>> {
    if Total(sizes) < MAX_LINE_LENGTH then Some(sizes)
    else if sizes == [] || CountWide(sizes, Average(sizes)) == 0 then None
    else
      var avg := Average(sizes);
      Some(Resized(sizes, avg, Quot(Room(sizes), CountWide(sizes, avg))))
  }

  lemma {:induction false} ResizedTotal(sizes: seq<int>, avg: int, large: int)
    ensures Total(Resized(sizes, avg, large)) == Total(sizes) - SumWide(sizes, avg) + CountWide(sizes, avg) * large
  {
    if sizes != [] {
      var n := |sizes| - 1;
      ResizedTotal(sizes[..n], avg, large);
      assert Resized(sizes, avg, large)[..n] == Resized(sizes[..n], avg, large);
      if sizes[n] > avg {
        assert CountWide(sizes, avg) * large == CountWide(sizes[..n], avg) * large + large;
      }
    }
  }

  /** The columns that are not too wide take at most the average each. */
  lemma {:induction false} NarrowColumns(sizes: seq<int>, avg: int)
    ensures CountWide(sizes, avg) <= |sizes|
    ensures Total(sizes) - SumWide(sizes, avg) <= (|sizes| - CountWide(sizes, avg)) * avg + 3 * |sizes|
  {
    if sizes != [] {
      var n := |sizes| - 1;
      NarrowColumns(sizes[..n], avg);
      var before, after := n - CountWide(sizes[..n], avg), |sizes| - CountWide(sizes, avg);
      if sizes[n] <= avg {
        assert after * avg == before * avg + avg;
      }
    }
  }

  lemma QuotRest(a: nat, b: nat)
    requires b > 0
    ensures 0 <= a - b * Quot(a, b) < b
  {
    assert a == b * (a / b) + a % b;
  }

  lemma QuotSign(a: int, b: nat)
    requires b > 0
    ensures Quot(a, b) >= 0 <==> a + b > 0
  {
  }

  /** Exactly when the widths come out non-negative, and how wide the table then is. */
  lemma ShrinkExact(sizes: seq<int>)
    requires Total(sizes) >= MAX_LINE_LENGTH && sizes != [] && CountWide(sizes, Average(sizes)) > 0
    requires forall i :: 0 <= i < |sizes| ==> sizes[i] >= 0
    ensures var final, wide := FinalSizes(sizes).value, CountWide(sizes, Average(sizes));
      && ((forall i :: 0 <= i < |final| ==> final[i] >= 0) <==> Room(sizes) + wide > 0)
      && (Room(sizes) >= 0 ==> MAX_LINE_LENGTH - wide < Total(final) <= MAX_LINE_LENGTH)
  {
    var avg := Average(sizes);
    var wide, large := CountWide(sizes, avg), Quot(Room(sizes), CountWide(sizes, avg));
    QuotSign(Room(sizes), wide);
    if Room(sizes) >= 0 {
      QuotRest(Room(sizes), wide);
    }
    ResizedTotal(sizes, avg, large);
    var i := WideColumn(sizes, avg);
    var final := FinalSizes(sizes).value;
    assert final == Resized(sizes, avg, large);
    forall k | 0 <= k < |final| && large >= 0 ensures final[k] >= 0 {
      assert final[k] == if sizes[k] > avg then large else sizes[k];
    }
    assert final[i] == large;
  }

  lemma {:induction false} WideColumn(sizes: seq<int>, avg: int) returns (i: nat)
    requires CountWide(sizes, avg) > 0
    ensures i < |sizes| && sizes[i] > avg
  {
    if sizes[|sizes| - 1] > avg {
      i := |sizes| - 1;
    } else {
      i := WideColumn(sizes[..|sizes| - 1], avg);
    }
  }

  /** Up to six columns, one of them above the average: always non-negative and within the line. */
  lemma ShrinkFits(sizes: seq<int>)
    requires 1 <= |sizes| <= 6 && forall i :: 0 <= i < |sizes| ==> sizes[i] >= 0
    requires Total(sizes) >= MAX_LINE_LENGTH && CountWide(sizes, Average(sizes)) > 0
    ensures FinalSizes(sizes).Some?
    ensures forall i :: 0 <= i < |FinalSizes(sizes).value| ==> FinalSizes(sizes).value[i] >= 0
    ensures Total(FinalSizes(sizes).value) <= MAX_LINE_LENGTH
    ensures CountWide(sizes, Average(sizes)) == 1 ==> Total(FinalSizes(sizes).value) == MAX_LINE_LENGTH
  {
    var avg := Average(sizes);
    NarrowColumns(sizes, avg);
    var narrow := |sizes| - CountWide(sizes, avg);
    FewColumns(|sizes|, narrow);
    ShrinkExact(sizes);
  }

  lemma FewColumns(columns: nat, narrow: nat)
    requires 1 <= columns <= 6 && narrow < columns
    ensures narrow * (MAX_LINE_LENGTH / columns) + 3 * columns <= MAX_LINE_LENGTH
  {
    match columns
    case 1 =>
    case 2 =>
    case 3 =>
    case 4 =>
    case 5 =>
    case _ =>
  }

  /** Seven columns can come out with a negative width. */
  lemma SevenColumnsFail()
    ensures var final := FinalSizes([100, 17, 17, 17, 17, 17, 17]);
      final.Some? && final.value[0] < 0
  {
    var sizes := [100, 17, 17, 17, 17, 17, 17];
    Sums(sizes);
  }

  lemma Sums(sizes: seq<int>)
    requires sizes == [100, 17, 17, 17, 17, 17, 17]
    ensures Total(sizes) == 223 && SumWide(sizes, 17) == 100 && CountWide(sizes, 17) == 1
  {
    var s6, s5, s4, s3, s2, s1 := sizes[..6], sizes[..5], sizes[..4], sizes[..3], sizes[..2], sizes[..1];
    assert s6[..5] == s5 && s5[..4] == s4 && s4[..3] == s3 && s3[..2] == s2 && s2[..1] == s1 && s1[..0] == [];
    assert Total(s1) == 103 && SumWide(s1, 17) == 100 && CountWide(s1, 17) == 1;
    assert Total(s3) == 143 && SumWide(s3, 17) == 100 && CountWide(s3, 17) == 1;
    assert Total(s5) == 183 && SumWide(s5, 17) == 100 && CountWide(s5, 17) == 1;
  }

  /** Columns of equal width that together exceed the line have none above the average. */
  lemma EqualColumnsPanic()
    ensures FinalSizes([17, 17, 17, 17, 17, 17]).None?
  {
    var sizes := [17, 17, 17, 17, 17, 17];
    var s5, s4, s3, s2, s1 := sizes[..5], sizes[..4], sizes[..3], sizes[..2], sizes[..1];
    assert s5[..4] == s4 && s4[..3] == s3 && s3[..2] == s2 && s2[..1] == s1 && s1[..0] == [];
    assert Total(s1) == 20 && CountWide(s1, 20) == 0;
    assert Total(s2) == 40 && CountWide(s2, 20) == 0;
    assert Total(s3) == 60 && CountWide(s3, 20) == 0;
    assert Total(s4) == 80 && CountWide(s4, 20) == 0;
  }
}
