/** cleanListAttribute: the lists of the configuration without duplicates and empty entries. */
module ListAttributes {
  import opened Subsequence

  function Clean(elements: seq<string>): seq<string> {
    if elements == [] then []
    else
      var front, last := Clean(elements[..|elements| - 1]), elements[|elements| - 1];
      if last == "" || last in front then front else front + [last]
  }

  method CleanListAttribute(elements: seq<string>) returns (uniq: seq<string>)
    ensures uniq == Clean(elements)
  {
    var encountered: map<string, bool> := map[];
    uniq := [];
    for i := 0 to |elements|
      invariant uniq == Clean(elements[..i])
      invariant forall s :: s in uniq <==> s in encountered && encountered[s]
    {
      var s := elements[i];
      assert elements[..i + 1][..i] == elements[..i];
      if s != "" && !(s in encountered && encountered[s]) {
        encountered := encountered[s := true];
        uniq := uniq + [s];
      }
    }
    assert elements[..|elements|] == elements;
  }

  /** The cleaned list has every non-empty entry exactly once, in the original order. */
  lemma {:induction false} CleanIsUnique(elements: seq<string>)
    ensures Distinct(Clean(elements)) && Sub(Clean(elements), elements)
    ensures forall s :: s in Clean(elements) <==> s != "" && s in elements
  {
    if elements == [] {
      assert Sub(Clean(elements), elements);
    }
    if elements != [] {
      hide Sub;
      var front, last := elements[..|elements| - 1], elements[|elements| - 1];
      CleanIsUnique(front);
      assert elements == front + [last];
      if last == "" || last in Clean(front) {
        SubRight(Clean(front), front, last);
      } else {
        SubBoth(Clean(front), front, last);
      }
    }
  }

  /** A list that is clean already stays as it is. */
  lemma {:induction false} CleanStays(elements: seq<string>)
    ensures Clean(elements) == elements <==> Distinct(elements) && "" !in elements
  {
    CleanIsUnique(elements);
    if Distinct(elements) && "" !in elements && elements != [] {
      var front, last := elements[..|elements| - 1], elements[|elements| - 1];
      CleanStays(front);
      CleanIsUnique(front);
      assert elements == front + [last];
    }
  }
}
