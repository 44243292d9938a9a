/**
 C# multicast delegates (`event` add/remove accessors) as invocation lists.
 The empty list stands for a `null` delegate.
 */
module Delegates {

  /** `d += h`: the handler joins the end of the invocation list. */
  function Combine<T>(d: seq<T>, h: T): (r: seq<T>)
    ensures |r| == |d| + 1
    ensures r[..|d|] == d && r[|d|] == h
  {
    d + [h]
  }

  /** Index of the last occurrence of `h` in `d`, or `|d|` when `h` does not occur. */
  function LastIndexOf<T(==)>(d: seq<T>, h: T): (k: nat)
    ensures k <= |d|
    ensures k < |d| ==> d[k] == h && forall j :: k < j < |d| ==> d[j] != h
    ensures k == |d| <==> h !in d
    decreases |d|
  {
    if |d| == 0 then 0
    else if d[|d| - 1] == h then |d| - 1
    else
      var k := LastIndexOf(d[..|d| - 1], h);
      if k == |d| - 1 then |d| else k
  }

  /**
   `d -= h` for a single-handler `h`: `Delegate.Remove` takes out the LAST
   occurrence of `h` and leaves the list alone when `h` is absent.
   */
  function Remove<T(==)>(d: seq<T>, h: T): (r: seq<T>)
    ensures h !in d ==> r == d
    ensures multiset(r) == multiset(d) - multiset{h}
    decreases |d|
  {
    if |d| == 0 then d
    else if d[|d| - 1] == h then
      assert d == d[..|d| - 1] + [h];
      d[..|d| - 1]
    else
      var front, last := d[..|d| - 1], d[|d| - 1];
      assert d == front + [last];
      Remove(front, h) + [last]
  }

  /** The occurrence `Remove` takes out is exactly the last one; everything else keeps its order. */
  lemma {:induction false} RemoveTakesLastOccurrence<T>(d: seq<T>, h: T)
    requires h in d
    ensures LastIndexOf(d, h) < |d|
    ensures Remove(d, h) == d[..LastIndexOf(d, h)] + d[LastIndexOf(d, h) + 1..]
    decreases |d|
  {
    var n := |d|;
    var front, last := d[..n - 1], d[n - 1];
    if last == h {
      assert d[n..] == [];
    } else {
      assert h in front by {
        assert d == front + [last];
      }
      RemoveTakesLastOccurrence(front, h);
      var k := LastIndexOf(front, h);
      DropNonMatchingLast(d, h);
      SpliceBeforeLast(d, k);
    }
  }

  /** Dropping a last element other than `h` changes neither where `h` last occurs nor what removing it does. */
  lemma DropNonMatchingLast<T>(d: seq<T>, h: T)
    requires |d| > 0 && d[|d| - 1] != h && h in d[..|d| - 1]
    ensures LastIndexOf(d, h) == LastIndexOf(d[..|d| - 1], h)
    ensures Remove(d, h) == Remove(d[..|d| - 1], h) + [d[|d| - 1]]
  {
  }

  /** Cutting position `k` out of all but the last element, then re-appending it, cuts `k` out of the whole. */
  lemma SpliceBeforeLast<T>(d: seq<T>, k: nat)
    requires k < |d| - 1
    ensures d[..|d| - 1][..k] + d[..|d| - 1][k + 1..] + [d[|d| - 1]] == d[..k] + d[k + 1..]
  {
    var front := d[..|d| - 1];
    assert front[..k] == d[..k];
    assert front[k + 1..] + [d[|d| - 1]] == d[k + 1..];
  }

  /**
   The event `remove` accessor the source writes: `if (X != null) X -= value;`.
   The null guard never changes the result.
   */
  function RemoveIfSubscribed<T(==)>(d: seq<T>, h: T): (r: seq<T>)
    ensures r == Remove(d, h)
    ensures |d| == 0 ==> r == d
  {
    if |d| > 0 then Remove(d, h) else d
  }

  /** Removing a handler right after adding it restores the previous invocation list. */
  lemma RemoveUndoesCombine<T>(d: seq<T>, h: T)
    ensures Remove(Combine(d, h), h) == d
  {
  }
}
