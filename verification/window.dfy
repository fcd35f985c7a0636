/** The bounded window of temperature readings held by the view model:
    newest reading first, never more than `Capacity` readings. */
module Window {

  /** One immutable temperature reading. The measurement is a real number
      here; the timestamp is the "HH:mm:ss" text shown to the user. */
  datatype Reading = Reading(value: real, timestamp: string)

  /** How many readings the window keeps. */
  const Capacity: nat := 20

  function MinNat(a: nat, b: nat): nat {
    if a <= b then a else b
  }

  /** Kotlin's `List.take(n)`: the first `n` elements, or all of them when
      there are fewer. */
  function Take<T>(s: seq<T>, n: nat): (t: seq<T>)
    ensures |t| == MinNat(|s|, n)
    ensures forall i :: 0 <= i < |t| ==> t[i] == s[i]
  {
    if |s| <= n then s else s[..n]
  }

  /** One update of the window: `(listOf(newReading) + it).take(20)`.
      The new reading goes to the front and the oldest falls off the end
      once the window is full. */
  function Push(w: seq<Reading>, r: Reading): (w': seq<Reading>)
    ensures |w'| == MinNat(|w| + 1, Capacity)
    ensures |w'| <= Capacity
    ensures w'[0] == r
    ensures w'[1..] == w[..MinNat(|w|, Capacity - 1)]
  {
    Take([r] + w, Capacity)
  }

  /** The window after pushing `rs` one by one, `rs[0]` first. */
  function PushAll(w: seq<Reading>, rs: seq<Reading>): seq<Reading>
    decreases |rs|
  {
    if |rs| == 0 then w else PushAll(Push(w, rs[0]), rs[1..])
  }

  /** `s` back to front. */
  function Reverse<T>(s: seq<T>): (r: seq<T>)
    ensures |r| == |s|
  {
    seq(|s|, i requires 0 <= i < |s| => s[|s| - 1 - i])
  }

  /** Truncating twice to the same length is truncating once. */
  lemma TakeOfTake<T>(a: seq<T>, b: seq<T>, n: nat)
    ensures Take(a + Take(b, n), n) == Take(a + b, n)
  {
    var lhs, rhs := Take(a + Take(b, n), n), Take(a + b, n);
    assert |lhs| == |rhs|;
    forall i | 0 <= i < |lhs|
      ensures lhs[i] == rhs[i]
    {
      if i >= |a| {
        assert (a + Take(b, n))[i] == Take(b, n)[i - |a|];
      }
    }
  }

  /** A window that respects the capacity is unchanged by truncation. */
  lemma TakeOfShort<T>(s: seq<T>, n: nat)
    requires |s| <= n
    ensures Take(s, n) == s
  {
  }

  /** Pushing a run of readings is the same as prepending all of them,
      newest first, and truncating once. */
  lemma {:induction false} PushAllIsTake(w: seq<Reading>, rs: seq<Reading>)
    requires |w| <= Capacity
    ensures PushAll(w, rs) == Take(Reverse(rs) + w, Capacity)
    decreases |rs|
  {
    if |rs| == 0 {
      assert Reverse(rs) + w == w;
      TakeOfShort(w, Capacity);
    } else {
      var w1 := Push(w, rs[0]);
      PushAllIsTake(w1, rs[1..]);
      TakeOfTake(Reverse(rs[1..]), [rs[0]] + w, Capacity);
      assert Reverse(rs[1..]) + [rs[0]] == Reverse(rs);
      assert Reverse(rs[1..]) + ([rs[0]] + w) == Reverse(rs) + w;
    }
  }

  /** Pushing never lets the window grow past the capacity. */
  lemma {:induction false} PushAllBounded(w: seq<Reading>, rs: seq<Reading>)
    requires |w| <= Capacity
    ensures |PushAll(w, rs)| <= Capacity
    ensures |PushAll(w, rs)| == MinNat(|w| + |rs|, Capacity)
  {
    PushAllIsTake(w, rs);
  }

  /** From the empty window, `n` pushes leave exactly the last `min(n, 20)`
      pushed readings, newest first. */
  lemma FromEmpty(rs: seq<Reading>)
    ensures |PushAll([], rs)| == MinNat(|rs|, Capacity)
    ensures forall i :: 0 <= i < |PushAll([], rs)| ==> PushAll([], rs)[i] == rs[|rs| - 1 - i]
  {
    PushAllIsTake([], rs);
    assert Reverse(rs) + [] == Reverse(rs);
  }

  /** The same fact as one equation: the window is the reversed suffix of the
      last `min(n, 20)` pushed readings. */
  lemma FromEmptyIsSuffix(rs: seq<Reading>)
    ensures PushAll([], rs) == Reverse(rs[|rs| - MinNat(|rs|, Capacity)..])
  {
    var k := MinNat(|rs|, Capacity);
    assert PushAll([], rs) == Take(Reverse(rs), Capacity) by {
      PushAllIsTake([], rs);
      assert Reverse(rs) + [] == Reverse(rs);
    }
    assert Take(Reverse(rs), Capacity) == Take(Reverse(rs), k);
    TakeOfReverse(rs, k);
  }

  /** The first `k` elements of a reversed sequence are its last `k`
      elements, reversed. */
  lemma TakeOfReverse<T>(s: seq<T>, k: nat)
    requires k <= |s|
    ensures Take(Reverse(s), k) == Reverse(s[|s| - k..])
  {
    var a, b := Take(Reverse(s), k), s[|s| - k..];
    forall i | 0 <= i < k
      ensures a[i] == b[|b| - 1 - i]
    {
      assert a[i] == Reverse(s)[i] == s[|s| - 1 - i];
      assert b[|b| - 1 - i] == s[|s| - 1 - i];
    }
    IsReverse(a, b);
  }

  /** A sequence that lists `b` back to front is `Reverse(b)`. */
  lemma IsReverse<T>(a: seq<T>, b: seq<T>)
    requires |a| == |b|
    requires forall i :: 0 <= i < |a| ==> a[i] == b[|b| - 1 - i]
    ensures a == Reverse(b)
  {
  }

  /** With pairwise distinct readings, the `j`-th pushed reading is still in
      the window iff it is among the last `Capacity` pushed. */
  lemma Retained(rs: seq<Reading>, j: nat)
    requires forall a, b :: 0 <= a < b < |rs| ==> rs[a] != rs[b]
    requires j < |rs|
    ensures rs[j] in PushAll([], rs) <==> j + Capacity >= |rs|
  {
    FromEmpty(rs);
    var w := PushAll([], rs);
    if j + Capacity >= |rs| {
      assert w[|rs| - 1 - j] == rs[j];
    } else {
      forall i | 0 <= i < |w|
        ensures w[i] != rs[j]
      {
        assert w[i] == rs[|rs| - 1 - i];
      }
    }
  }
}
