/** Choosing the clock offset: the exchange sort over the collected offsets and the element at half their number. */
module Clock {

  ghost predicate Sorted(s: seq<int>) {
    forall i, j :: 0 <= i < j < |s| ==> s[i] <= s[j]
  }

  /** Positions before `i` hold their final values: in order, and nothing behind them is smaller. */
  ghost predicate Placed(s: seq<int>, i: nat) {
    i <= |s| && forall a, b :: 0 <= a < i && a < b < |s| ==> s[a] <= s[b]
  }

  /** Among positions `i` up to `j` the first is least. */
  ghost predicate Least(s: seq<int>, i: nat, j: nat) {
    i < |s| && j <= |s| && forall b :: i < b < j ==> s[i] <= s[b]
  }

  /** Exchanging a smaller later element to position `i` disturbs nothing in place, and no element is lost. */
  lemma ExchangeKeeps(s: seq<int>, i: nat, j: nat)
    requires Placed(s, i) && Least(s, i, j) && i < j < |s| && s[i] > s[j]
    ensures var t := s[i := s[j]][j := s[i]];
            Placed(t, i) && Least(t, i, j + 1) && multiset(t) == multiset(s)
  {
    var t := s[i := s[j]][j := s[i]];
    forall a, b | 0 <= a < i && a < b < |t|
      ensures t[a] <= t[b]
    {
      assert t[b] == if b == i then s[j] else if b == j then s[i] else s[b];
    }
  }

  method SortOffsets(offsets: array<int>)
    modifies offsets
    ensures Sorted(offsets[..])
    ensures multiset(offsets[..]) == multiset(old(offsets[..]))
  {
    for i := 0 to offsets.Length
      invariant Placed(offsets[..], i)
      invariant multiset(offsets[..]) == multiset(old(offsets[..]))
    {
      for j := i + 1 to offsets.Length
        invariant Placed(offsets[..], i) && Least(offsets[..], i, j)
        invariant multiset(offsets[..]) == multiset(old(offsets[..]))
      {
        if offsets[i] > offsets[j] {
          ghost var s := offsets[..];
          ExchangeKeeps(s, i, j);
          offsets[i], offsets[j] := offsets[j], offsets[i];
          assert offsets[..] == s[i := s[j]][j := s[i]];
        }
      }
    }
  }

  /** How many offsets lie in the interval. */
  function Inside(s: seq<int>, lo: int, hi: int): nat {
    if s == [] then 0
    else Inside(s[..|s| - 1], lo, hi) + if lo <= s[|s| - 1] <= hi then 1 else 0
  }

  /** The same count taken from the multiset, so that it does not depend on the order. */
  lemma {:induction false} InsideRemove(s: seq<int>, k: nat, lo: int, hi: int)
    requires k < |s|
    ensures Inside(s, lo, hi) == Inside(s[..k] + s[k + 1..], lo, hi) + if lo <= s[k] <= hi then 1 else 0
    decreases |s|
  {
    var last := |s| - 1;
    if k == last {
      assert s[..k] + s[k + 1..] == s[..last];
    } else {
      InsideRemove(s[..last], k, lo, hi);
      var rest := s[..k] + s[k + 1..];
      assert rest[..|rest| - 1] == s[..last][..k] + s[..last][k + 1..];
    }
  }

  lemma RemovedOnce(t: seq<int>, k: nat)
    requires k < |t|
    ensures multiset(t[..k] + t[k + 1..]) == multiset(t) - multiset{t[k]}
  {
    assert t == t[..k] + [t[k]] + t[k + 1..];
  }

  lemma {:induction false} InsideOfPermutation(s: seq<int>, t: seq<int>, lo: int, hi: int)
    requires multiset(s) == multiset(t)
    ensures Inside(s, lo, hi) == Inside(t, lo, hi)
    decreases |s|
  {
    if s == [] {
      assert |t| == |multiset(t)| == 0;
    } else {
      var last := s[|s| - 1];
      assert s == s[..|s| - 1] + [last] && last in multiset(t);
      var k :| 0 <= k < |t| && t[k] == last;
      RemovedOnce(t, k);
      InsideRemove(t, k, lo, hi);
      InsideOfPermutation(s[..|s| - 1], t[..k] + t[k + 1..], lo, hi);
    }
  }

  /** Elements all outside count for nothing; a stretch holds at most its length. */
  lemma {:induction false} InsideBounded(s: seq<int>, k: nat, lo: int, hi: int)
    requires k <= |s|
    requires forall i :: 0 <= i < |s| && lo <= s[i] <= hi ==> i < k
    ensures Inside(s, lo, hi) <= k
    decreases |s|
  {
    if s != [] {
      var init := s[..|s| - 1];
      InsideBounded(init, if k == |s| then k - 1 else k, lo, hi);
    }
  }

  lemma {:induction false} InsideSkips(s: seq<int>, k: nat, lo: int, hi: int)
    requires k <= |s|
    requires forall i :: 0 <= i < k ==> !(lo <= s[i] <= hi)
    ensures Inside(s, lo, hi) <= |s| - k
    decreases |s|
  {
    if |s| > k {
      InsideSkips(s[..|s| - 1], k, lo, hi);
    } else if s != [] {
      InsideSkips(s[..|s| - 1], k - 1, lo, hi);
    }
  }

  /** A strict majority inside an interval pulls the middle element in, for odd and even numbers alike. */
  lemma MajorityDecides(s: seq<int>, lo: int, hi: int)
    requires Sorted(s) && 2 * Inside(s, lo, hi) > |s|
    ensures s != [] && lo <= s[|s| / 2] <= hi
  {
    if s != [] {
      var mid := |s| / 2;
      if s[mid] < lo {
        InsideSkips(s, mid + 1, lo, hi);
      }
      if s[mid] > hi {
        InsideBounded(s, mid, lo, hi);
      }
    }
  }

  /** Sorts in place and takes the middle one; without any answer the clock is left alone. */
  method ChooseOffset(offsets: array<int>) returns (chosen: bool, median: int)
    modifies offsets
    ensures chosen <==> offsets.Length > 0
    ensures chosen ==> Sorted(offsets[..]) && median == offsets[offsets.Length / 2]
    ensures multiset(offsets[..]) == multiset(old(offsets[..]))
    ensures forall lo, hi :: 2 * Inside(old(offsets[..]), lo, hi) > offsets.Length ==> lo <= median <= hi
  {
    ghost var collected := offsets[..];
    if offsets.Length == 0 {
      return false, 0;
    }
    SortOffsets(offsets);
    chosen, median := true, offsets[offsets.Length / 2];
    forall lo, hi | 2 * Inside(collected, lo, hi) > offsets.Length
      ensures lo <= median <= hi
    {
      InsideOfPermutation(collected, offsets[..], lo, hi);
      MajorityDecides(offsets[..], lo, hi);
    }
  }
}
