/** The three-way quicksort of the sorting benchmark. */
module JavaSort {

  predicate Sorted(s: seq<int>, lo: int, hi: int)
    requires 0 <= lo <= hi <= |s|
  {
    forall i, j | lo <= i < j < hi :: s[i] <= s[j]
  }

  /** The same elements in another order between `lo` and `hi`, and nothing else changed. */
  predicate Rearranged(s: seq<int>, t: seq<int>, lo: int, hi: int) {
    && |s| == |t| && 0 <= lo <= hi <= |s|
    && s[..lo] == t[..lo] && s[hi..] == t[hi..]
    && multiset(s[lo..hi]) == multiset(t[lo..hi])
  }

  lemma Unmoved(s: seq<int>, lo: int, hi: int)
    requires 0 <= lo <= hi <= |s|
    ensures Rearranged(s, s, lo, hi)
  {
  }

  lemma RearrangedTwice(s: seq<int>, t: seq<int>, u: seq<int>, lo: int, hi: int)
    requires Rearranged(s, t, lo, hi) && Rearranged(t, u, lo, hi)
    ensures Rearranged(s, u, lo, hi)
  {
  }

  lemma RearrangedLength(s: seq<int>, t: seq<int>, lo: int, hi: int)
    requires Rearranged(s, t, lo, hi)
    ensures |s| == |t| && 0 <= lo <= hi <= |s|
    ensures forall i | 0 <= i < |s| && (i < lo || i >= hi) :: s[i] == t[i]
  {
    forall i | 0 <= i < lo ensures s[i] == t[i] { assert s[..lo][i] == t[..lo][i]; }
    forall i | hi <= i < |s| ensures s[i] == t[i] { assert s[hi..][i - hi] == t[hi..][i - hi]; }
  }

  lemma RearrangedWithin(s: seq<int>, t: seq<int>, lo: int, hi: int, from: int, to: int)
    requires Rearranged(s, t, from, to) && 0 <= lo <= from <= to <= hi <= |s|
    ensures Rearranged(s, t, lo, hi)
  {
    assert s[..lo] == s[..from][..lo] && s[hi..] == s[to..][hi - to..];
    assert t[..lo] == t[..from][..lo] && t[hi..] == t[to..][hi - to..];
    assert s[lo..from] == s[..from][lo..] && s[to..hi] == s[to..][..hi - to];
    assert t[lo..from] == t[..from][lo..] && t[to..hi] == t[to..][..hi - to];
    assert s[lo..hi] == s[lo..from] + s[from..to] + s[to..hi];
    assert t[lo..hi] == t[lo..from] + t[from..to] + t[to..hi];
  }

  function Exchanged(s: seq<int>, i: int, j: int): seq<int>
    requires 0 <= i < |s| && 0 <= j < |s|
  {
    s[i := s[j]][j := s[i]]
  }

  lemma ExchangeRearranges(s: seq<int>, i: int, j: int, lo: int, hi: int)
    requires 0 <= lo <= i <= j < hi <= |s|
    ensures Rearranged(s, Exchanged(s, i, j), lo, hi)
  {
    var t, u := Exchanged(s, i, j), s[lo..hi];
    assert t[lo..hi] == Exchanged(u, i - lo, j - lo);
    ExchangeSameElements(u, i - lo, j - lo);
  }

  lemma ExchangeSameElements(s: seq<int>, i: int, j: int)
    requires 0 <= i < |s| && 0 <= j < |s|
    ensures multiset(Exchanged(s, i, j)) == multiset(s)
  {
  }

  /** What holds of all elements still does. */
  lemma RearrangedKeeps(s: seq<int>, t: seq<int>, lo: int, hi: int, p: int -> bool)
    requires Rearranged(s, t, lo, hi) && forall i | lo <= i < hi :: p(s[i])
    ensures forall i | lo <= i < hi :: p(t[i])
  {
    forall i | lo <= i < hi ensures p(t[i]) {
      assert t[i] == t[lo..hi][i - lo];
      assert t[i] in multiset(s[lo..hi]);
      assert t[i] in s[lo..hi];
    }
  }

  method Swap(x: array<int>, a: int, b: int, ghost lo: int, ghost hi: int)
    requires 0 <= lo <= a < hi <= x.Length && lo <= b < hi
    modifies x
    ensures x[..] == Exchanged(old(x[..]), a, b)
    ensures Rearranged(old(x[..]), x[..], lo, hi)
  {
    var t := x[a];
    x[a] := x[b];
    x[b] := t;
    assert Exchanged(old(x[..]), a, b) == Exchanged(old(x[..]), b, a);
    if a <= b { ExchangeRearranges(old(x[..]), a, b, lo, hi); } else { ExchangeRearranges(old(x[..]), b, a, lo, hi); }
  }

  /** The `n` elements from `a` on trade places with those from `b` on. */
  function BlocksExchanged(s: seq<int>, a: int, b: int, n: int): (r: seq<int>)
    requires 0 <= a <= a + n <= b && b + n <= |s| && n >= 0
    ensures |r| == |s|
  {
    s[..a] + s[b..b + n] + s[a + n..b] + s[a..a + n] + s[b + n..]
  }

  lemma OneMoreExchanged(s: seq<int>, a: int, b: int, i: int)
    requires 0 <= i && 0 <= a <= a + i < b && b + i < |s|
    ensures BlocksExchanged(s, a, b, i + 1) == Exchanged(BlocksExchanged(s, a, b, i), a + i, b + i)
  {
    hide BlocksExchanged;
    var before, after := BlocksExchanged(s, a, b, i), BlocksExchanged(s, a, b, i + 1);
    BlockAt(s, a, b, i, a + i);
    BlockAt(s, a, b, i, b + i);
    forall k | 0 <= k < |s| ensures after[k] == Exchanged(before, a + i, b + i)[k] {
      BlockAt(s, a, b, i, k);
      BlockAt(s, a, b, i + 1, k);
    }
  }

  lemma BlockAt(s: seq<int>, a: int, b: int, n: int, k: int)
    requires 0 <= a <= a + n <= b && b + n <= |s| && n >= 0 && 0 <= k < |s|
    ensures BlocksExchanged(s, a, b, n)[k] ==
      if a <= k < a + n then s[k - a + b] else if b <= k < b + n then s[k - b + a] else s[k]
  {
  }

  method VecSwap(x: array<int>, a0: int, b0: int, n: int, ghost lo: int, ghost hi: int)
    requires 0 <= lo <= a0 <= a0 + n <= b0 && b0 + n <= hi <= x.Length && n >= 0
    modifies x
    ensures x[..] == BlocksExchanged(old(x[..]), a0, b0, n)
    ensures Rearranged(old(x[..]), x[..], lo, hi)
  {
    hide Rearranged, Exchanged, BlocksExchanged;
    ghost var was := x[..];
    Unmoved(was, lo, hi);
    NoneExchanged(was, a0, b0);
    var a, b := a0, b0;
    for i := 0 to n
      invariant a == a0 + i && b == b0 + i && Rearranged(was, x[..], lo, hi)
      invariant x[..] == BlocksExchanged(was, a0, b0, i)
    {
      ghost var before := x[..];
      Swap(x, a, b, lo, hi);
      OneMoreExchanged(was, a0, b0, i);
      RearrangedTwice(was, before, x[..], lo, hi);
      a, b := a + 1, b + 1;
    }
  }

  lemma NoneExchanged(s: seq<int>, a: int, b: int)
    requires 0 <= a <= b <= |s|
    ensures BlocksExchanged(s, a, b, 0) == s
  {
  }

  /** One of the three; another one is not greater, and the third not smaller. */
  method Med3(x: array<int>, a: int, b: int, c: int) returns (m: int)
    requires 0 <= a < x.Length && 0 <= b < x.Length && 0 <= c < x.Length
    ensures (m == a && (x[b] <= x[a] <= x[c] || x[c] <= x[a] <= x[b]))
      || (m == b && (x[a] <= x[b] <= x[c] || x[c] <= x[b] <= x[a]))
      || (m == c && (x[a] <= x[c] <= x[b] || x[b] <= x[c] <= x[a]))
  {
    m := if x[a] < x[b] then (if x[b] < x[c] then b else if x[a] < x[c] then c else a)
         else (if x[b] > x[c] then b else if x[a] > x[c] then c else a);
  }

  method ChoosePartition(x: array<int>, off: int, len: int) returns (m: int)
    requires 0 <= off <= off + len <= x.Length && off < x.Length
    ensures 0 <= m < x.Length && (len > 0 ==> off <= m < off + len)
  {
    m := off + len / 2;
    if len > 7 {
      var l, n := off, off + len - 1;
      if len > 40 {
        var s := len / 8;
        l := Med3(x, l, l + s, l + 2 * s);
        m := Med3(x, m - s, m, m + s);
        n := Med3(x, n - 2 * s, n - s, n);
      }
      m := Med3(x, l, m, n);
    }
  }

  /** v* (<v)* unseen (>v)* v* */
  predicate Zones(x: seq<int>, v: int, off: int, a: int, b: int, c: int, d: int, n: int) {
    && 0 <= off <= a <= b <= c + 1 <= d + 1 <= n <= |x|
    && (forall i | off <= i < a :: x[i] == v) && (forall i | a <= i < b :: x[i] < v)
    && (forall i | c < i <= d :: x[i] > v) && (forall i | d < i < n :: x[i] == v)
  }

  lemma ZonesInOrder(x: seq<int>, v: int, off: int, a: int, b: int, c: int, d: int, n: int)
    requires Zones(x, v, off, a, b, c, d, n)
    ensures 0 <= off <= a <= b <= c + 1 <= d + 1 <= n <= |x|
  {
  }

  lemma SmallerZones(x: seq<int>, v: int, off: int, a: int, b: int, c: int, d: int, n: int)
    requires Zones(x, v, off, a, b, c, d, n) && b <= c
    ensures x[b] < v ==> Zones(x, v, off, a, b + 1, c, d, n)
    ensures x[b] == v ==> Zones(Exchanged(x, a, b), v, off, a + 1, b + 1, c, d, n)
  {
  }

  lemma GreaterZones(x: seq<int>, v: int, off: int, a: int, b: int, c: int, d: int, n: int)
    requires Zones(x, v, off, a, b, c, d, n) && b <= c
    ensures x[c] > v ==> Zones(x, v, off, a, b, c - 1, d, n)
    ensures x[c] == v ==> Zones(Exchanged(x, c, d), v, off, a, b, c - 1, d - 1, n)
    ensures x[c] == v && b < c ==> Exchanged(x, c, d)[b] == x[b]
  {
  }

  lemma EndsZones(x: seq<int>, v: int, off: int, a: int, b: int, c: int, d: int, n: int)
    requires Zones(x, v, off, a, b, c, d, n) && b <= c && x[c] < v < x[b]
    ensures Zones(Exchanged(x, b, c), v, off, a, b + 1, c - 1, d, n)
  {
  }

  /** Passes elements not greater than v; moves those equal to v to the front. */
  method PassSmaller(x: array<int>, v: int, off: int, a0: int, b0: int, c: int, d: int, n: int) returns (a: int, b: int)
    requires n <= x.Length && Zones(x[..], v, off, a0, b0, c, d, n)
    modifies x
    ensures Zones(x[..], v, off, a, b, c, d, n) && b0 <= b && (b <= c ==> x[b] > v)
    ensures Rearranged(old(x[..]), x[..], off, n)
  {
    hide Rearranged, Zones, Exchanged;
    ghost var was := x[..];
    ZonesInOrder(was, v, off, a0, b0, c, d, n);
    Unmoved(was, off, n);
    a, b := a0, b0;
    while b <= c && x[b] <= v
      invariant Zones(x[..], v, off, a, b, c, d, n) && Rearranged(was, x[..], off, n)
      invariant 0 <= off <= a <= b <= c + 1 && b0 <= b
      decreases c - b
    {
      SmallerZones(x[..], v, off, a, b, c, d, n);
      if x[b] == v {
        ghost var before := x[..];
        Swap(x, a, b, off, n);
        RearrangedTwice(was, before, x[..], off, n);
        a := a + 1;
      }
      b := b + 1;
    }
  }

  /** Passes elements not smaller than v; moves those equal to v to the end. */
  method PassGreater(x: array<int>, v: int, off: int, a: int, b: int, c0: int, d0: int, n: int) returns (c: int, d: int)
    requires n <= x.Length && Zones(x[..], v, off, a, b, c0, d0, n) && (b <= c0 ==> x[b] > v)
    modifies x
    ensures Zones(x[..], v, off, a, b, c, d, n) && c <= c0 && (b <= c ==> x[c] < v < x[b])
    ensures Rearranged(old(x[..]), x[..], off, n)
  {
    hide Rearranged, Zones, Exchanged;
    ghost var was := x[..];
    ZonesInOrder(was, v, off, a, b, c0, d0, n);
    Unmoved(was, off, n);
    c, d := c0, d0;
    while c >= b && x[c] >= v
      invariant Zones(x[..], v, off, a, b, c, d, n) && Rearranged(was, x[..], off, n)
      invariant 0 <= off <= a <= b <= c + 1 <= d + 1 <= n && c <= c0
      invariant b <= c ==> x[b] > v
      decreases c - b
    {
      GreaterZones(x[..], v, off, a, b, c, d, n);
      if x[c] == v {
        ghost var before := x[..];
        Swap(x, c, d, off, n);
        RearrangedTwice(was, before, x[..], off, n);
        d := d - 1;
      }
      c := c - 1;
    }
  }

  lemma NoZones(x: seq<int>, v: int, off: int, n: int)
    requires 0 <= off <= n <= |x|
    ensures Zones(x, v, off, off, off, n - 1, n - 1, n)
  {
  }

  method Partition(x: array<int>, off: int, len: int, v: int) returns (a: int, b: int, c: int, d: int)
    requires 0 <= off <= off + len <= x.Length
    modifies x
    ensures Zones(x[..], v, off, a, b, c, d, off + len) && b == c + 1
    ensures Rearranged(old(x[..]), x[..], off, off + len)
  {
    hide Rearranged, Zones, Exchanged;
    var n := off + len;
    ghost var was := x[..];
    Unmoved(was, off, n);
    a, b, c, d := off, off, n - 1, n - 1;
    NoZones(was, v, off, n);
    while true
      invariant Zones(x[..], v, off, a, b, c, d, n) && Rearranged(was, x[..], off, n)
      decreases c - b
    {
      ghost var before := x[..];
      a, b := PassSmaller(x, v, off, a, b, c, d, n);
      RearrangedTwice(was, before, x[..], off, n);
      before := x[..];
      c, d := PassGreater(x, v, off, a, b, c, d, n);
      RearrangedTwice(was, before, x[..], off, n);
      ZonesInOrder(x[..], v, off, a, b, c, d, n);
      if b > c { break; }
      before := x[..];
      EndsZones(before, v, off, a, b, c, d, n);
      Swap(x, b, c, off, n);
      RearrangedTwice(was, before, x[..], off, n);
      b, c := b + 1, c - 1;
    }
  }

  /** (<v)* v* (>v)* */
  predicate Split(x: seq<int>, v: int, off: int, p: int, q: int, n: int) {
    && 0 <= off <= p <= q <= n <= |x|
    && (forall i | off <= i < p :: x[i] < v) && (forall i | p <= i < q :: x[i] == v)
    && (forall i | q <= i < n :: x[i] > v)
  }

  method PartitionElementsToMiddle(x: array<int>, v: int, off: int, a: int, b: int, c: int, d: int, n: int)
    requires n <= x.Length && Zones(x[..], v, off, a, b, c, d, n) && b == c + 1
    modifies x
    ensures Split(x[..], v, off, off + (b - a), n - (d - c), n)
    ensures Rearranged(old(x[..]), x[..], off, n)
  {
    hide Rearranged, BlocksExchanged;
    ghost var was := x[..];
    var s := if a - off < b - a then a - off else b - a;
    VecSwap(x, off, b - s, s, off, n);
    ghost var mid := x[..];
    LeftMoved(was, mid, v, off, a, b, c, d, n, s);
    s := if d - c < n - d - 1 then d - c else n - d - 1;
    VecSwap(x, b, n - s, s, off, n);
    RightMoved(mid, x[..], v, off, off + (b - a), b, d, n, s);
    RearrangedTwice(was, mid, x[..], off, n);
  }

  lemma LeftMoved(x: seq<int>, y: seq<int>, v: int, off: int, a: int, b: int, c: int, d: int, n: int, s: int)
    requires Zones(x, v, off, a, b, c, d, n) && b == c + 1
    requires s == (if a - off < b - a then a - off else b - a) && y == BlocksExchanged(x, off, b - s, s)
    ensures forall i | off <= i < off + (b - a) :: y[i] < v
    ensures forall i | off + (b - a) <= i < b :: y[i] == v
    ensures forall i | b <= i < n :: y[i] == x[i]
  {
    forall i | off <= i < b ensures if i < off + (b - a) then y[i] < v else y[i] == v {
      if off <= i < off + s {
        assert y[i] == x[b - s + (i - off)];
      } else if i < b - s {
        assert y[i] == x[i];
      } else {
        assert y[i] == x[off + (i - (b - s))];
      }
    }
  }

  lemma RightMoved(x: seq<int>, y: seq<int>, v: int, off: int, p: int, b: int, d: int, n: int, s: int)
    requires 0 <= off <= p <= b <= d + 1 <= n <= |x|
    requires (forall i | off <= i < p :: x[i] < v) && (forall i | p <= i < b :: x[i] == v)
    requires (forall i | b <= i <= d :: x[i] > v) && (forall i | d < i < n :: x[i] == v)
    requires s == (if d + 1 - b < n - d - 1 then d + 1 - b else n - d - 1) && y == BlocksExchanged(x, b, n - s, s)
    ensures Split(y, v, off, p, n - (d + 1 - b), n)
  {
    forall i | b <= i < n ensures if i < n - (d + 1 - b) then y[i] == v else y[i] > v {
      if b <= i < b + s {
        assert y[i] == x[n - s + (i - b)];
      } else if i < n - s {
        assert y[i] == x[i];
      } else {
        assert y[i] == x[b + (i - (n - s))];
      }
    }
    forall i | off <= i < b ensures y[i] == x[i] {}
  }

  /** Some element equals the partition element, so both other parts are smaller than the whole. */
  lemma SomeInMiddle(s: seq<int>, t: seq<int>, v: int, off: int, p: int, q: int, n: int, m: int)
    requires Rearranged(s, t, off, n) && Split(t, v, off, p, q, n) && off <= m < n && s[m] == v
    ensures p < q
  {
    if p >= q {
      RearrangedKeeps(t, s, off, n, (e: int) => e != v);
    }
  }

  /** Sorting the two outer parts sorts the whole. */
  lemma SplitSorted(x: seq<int>, y: seq<int>, z: seq<int>, v: int, off: int, p: int, q: int, n: int)
    requires Split(x, v, off, p, q, n) && Rearranged(x, y, off, p) && Rearranged(y, z, q, n)
    requires Sorted(y, off, p) && Sorted(z, q, n)
    ensures Sorted(z, off, n) && Rearranged(x, z, off, n)
  {
    hide Rearranged;
    RearrangedWithin(x, y, off, n, off, p);
    RearrangedWithin(y, z, off, n, q, n);
    RearrangedTwice(x, y, z, off, n);
    RearrangedLength(x, y, off, p);
    RearrangedLength(y, z, q, n);
    RearrangedKeeps(x, y, off, p, (e: int) => e < v);
    RearrangedKeeps(y, z, q, n, (e: int) => e > v);
    forall i | off <= i < n ensures if i < p then z[i] < v && z[i] == y[i] else if i < q then z[i] == v else z[i] > v {}
  }

  lemma ShortSorted(s: seq<int>, lo: int, hi: int)
    requires 0 <= lo <= hi <= |s| && hi - lo <= 1
    ensures Sorted(s, lo, hi) && Rearranged(s, s, lo, hi)
  {
  }

  /** Sorts the part; nothing else changes. An empty part is accepted where there is an element to look at. */
  method Sort1(x: array<int>, off: int, len: int)
    requires 0 <= off <= off + len <= x.Length && off < x.Length && len >= 0
    modifies x
    ensures Sorted(x[..], off, off + len) && Rearranged(old(x[..]), x[..], off, off + len)
    decreases len, 1
  {
    hide Rearranged, Split, Sorted, Zones;
    ghost var s0 := x[..];
    var m := ChoosePartition(x, off, len);
    var v := x[m];
    var a, b, c, d := Partition(x, off, len, v);
    ghost var s1 := x[..];
    var n := off + len;
    ZonesInOrder(s1, v, off, a, b, c, d, n);
    PartitionElementsToMiddle(x, v, off, a, b, c, d, n);
    ghost var s2 := x[..];
    RearrangedTwice(s0, s1, s2, off, n);
    if len > 0 { SomeInMiddle(s0, s2, v, off, off + (b - a), n - (d - c), n, m); }
    SortPart(x, off, b - a, len);
    ghost var s3 := x[..];
    SortPart(x, n - (d - c), d - c, len);
    SplitSorted(s2, s3, x[..], v, off, off + (b - a), n - (d - c), n);
    RearrangedTwice(s0, s2, x[..], off, n);
  }

  /** Sorts a part by recursion, unless it is too short to be out of order. */
  method SortPart(x: array<int>, off: int, s: int, ghost whole: int)
    requires 0 <= off <= off + s <= x.Length && 0 <= s && (s < whole || s == whole == 0)
    modifies x
    ensures Sorted(x[..], off, off + s) && Rearranged(old(x[..]), x[..], off, off + s)
    decreases whole, 0
  {
    ShortSorted(x[..], off, off + if s <= 1 then s else 0);
    if s > 1 {
      Sort1(x, off, s);
    }
  }

  /** run: sorts any array but the empty one, in which there is no element to look at. */
  method Run(x: array<int>)
    requires x.Length > 0
    modifies x
    ensures Sorted(x[..], 0, x.Length) && multiset(x[..]) == multiset(old(x[..]))
  {
    ghost var was := x[..];
    Sort1(x, 0, x.Length);
    assert was[0..x.Length] == was && x[0..x.Length] == x[..];
  }
}
