/** `shuffleArray`: copy the list and sort the copy with a comparator that
    answers at random. The engine's sorting algorithm is not visible to the
    application; it is modelled as an insertion sort by adjacent exchanges,
    and the random comparator as an oracle: `outOfOrder(k)` is the answer of
    the k-th comparator call (true when the earlier element is to go after
    the later one). */
module Shuffle {

  method ShuffleArray<T>(s: seq<T>, outOfOrder: nat -> bool) returns (r: seq<T>)
    ensures multiset(r) == multiset(s)
    ensures |r| == |s|
    ensures (forall k :: !outOfOrder(k)) ==> r == s
  {
    // the copy `[...array]`: the input itself is a value and is never changed
    var a := new T[|s|](i requires 0 <= i < |s| => s[i]);
    assert a[..] == s;
    var calls := 0;
    var i := 1;
    while i < a.Length
      invariant 1 <= i
      invariant multiset(a[..]) == multiset(s)
      invariant (forall k :: !outOfOrder(k)) ==> a[..] == s
    {
      var j := i;
      while 0 < j
        invariant 0 <= j <= i < a.Length
        invariant multiset(a[..]) == multiset(s)
        invariant (forall k :: !outOfOrder(k)) ==> a[..] == s
      {
        var swap := outOfOrder(calls);
        calls := calls + 1;
        if !swap {
          break;
        }
        a[j - 1], a[j] := a[j], a[j - 1];
        j := j - 1;
      }
      i := i + 1;
    }
    r := a[..];
    assert |multiset(r)| == |r|;
  }
}
