/** The list of running jobs that a worker keeps, changed in place. */
module JobList {
  import opened Subsequence

  class Request {
    var canceled: bool
  }

  /** A Go slice: the backing array and the length of the part in use. */
  class Worker {
    var buffer: array<Request?>
    var count: nat

    ghost predicate Valid()
      reads this, buffer
    {
      count <= buffer.Length && Distinct(buffer[..count])
    }

    ghost function Jobs(): seq<Request?>
      reads this, buffer
      requires Valid()
    {
      buffer[..count]
    }

    constructor ()
      ensures Valid() && Jobs() == [] && fresh(buffer)
    {
      buffer := new Request?[0];
      count := 0;
    }

    /** append: in place while there is room, into a larger array otherwise. */
    method AddJob(received: Request)
      requires Valid() && received !in Jobs()
      modifies this, buffer
      ensures Valid() && Jobs() == old(Jobs()) + [received]
      ensures buffer == old(buffer) || fresh(buffer)
    {
      if count == buffer.Length {
        var larger := new Request?[2 * count + 1];
        forall i | 0 <= i < count {
          larger[i] := buffer[i];
        }
        buffer := larger;
        assert buffer[..count] == old(buffer[..count]);
      }
      buffer[count] := received;
      count := count + 1;
    }

    /** jobs = append(jobs[:i], jobs[i+1:]...): the tail moves down by one in the
        same backing array, and the slot behind the new end keeps its old value. */
    method Cut(i: nat)
      requires count <= buffer.Length && i < count
      modifies this`count, buffer
      ensures buffer == old(buffer) && count == old(count) - 1
      ensures buffer[..count] == old(buffer[..i] + buffer[i + 1..count])
      ensures buffer[count..] == old(buffer[count - 1..])
    {
      var k := i;
      while k + 1 < count
        invariant i <= k < count == old(count) && buffer == old(buffer)
        invariant forall m :: 0 <= m < i ==> buffer[m] == old(buffer[m])
        invariant forall m :: i <= m < k ==> buffer[m] == old(buffer[m + 1])
        invariant forall m :: k < m < buffer.Length ==> buffer[m] == old(buffer[m])
        invariant buffer[count - 1] == old(buffer[count - 1])
      {
        buffer[k] := buffer[k + 1];
        k := k + 1;
      }
      count := count - 1;
    }

    /** The loop runs over the slice header as it was, while the cut inside moves
        the elements of the array below it. */
    method RemoveJob(received: Request)
      requires Valid()
      modifies this`count, buffer
      ensures Valid() && received !in Jobs()
      ensures received !in old(Jobs()) ==> Jobs() == old(Jobs())
      ensures forall p :: 0 <= p < |old(Jobs())| && old(Jobs())[p] == received ==>
        Jobs() == old(Jobs())[..p] + old(Jobs())[p + 1..]
    {
      ghost var before := Jobs();
      var header, length := buffer, count;
      ghost var cut: int := -1;
      var i := 0;
      while i < length
        invariant 0 <= i <= length == |before| && buffer == header && length <= buffer.Length
        invariant cut == -1 ==> count == length && buffer[..count] == before && received !in before[..i]
        invariant cut != -1 ==> 0 <= cut < i && before[cut] == received && count == length - 1
        invariant cut != -1 ==> buffer[..count] == before[..cut] + before[cut + 1..]
        invariant cut != -1 ==> buffer[length - 1] == before[length - 1]
      {
        NextSlot(before, i, received);
        if header[i] == received {
          if cut != -1 {
            StaleSlotIsHarmless(before, cut, i, buffer[..length]);
          }
          Cut(i);
          cut := i;
        }
        i := i + 1;
      }
      if cut != -1 {
        assert forall p :: 0 <= p < |before| && before[p] == received ==> p == cut;
      } else {
        assert before[..length] == before;
      }
    }
  }

  lemma NextSlot<T>(before: seq<T>, i: nat, received: T)
    requires i < |before|
    ensures received in before[..i + 1] <==> received in before[..i] || before[i] == received
  {
    assert before[..i + 1] == before[..i] + [before[i]];
  }

  /** After one cut no slot below the old length holds the removed job again:
      not the moved tail, and not the stale last slot. */
  lemma StaleSlotIsHarmless<T>(before: seq<T>, cut: nat, i: nat, slots: seq<T>)
    requires Distinct(before) && cut < i < |before| == |slots|
    requires slots[..|before| - 1] == before[..cut] + before[cut + 1..]
    requires slots[|before| - 1] == before[|before| - 1]
    ensures slots[i] != before[cut]
  {
    if i < |before| - 1 {
      assert slots[i] == slots[..|before| - 1][i] == before[i + 1];
    }
  }
}
