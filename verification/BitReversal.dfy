/** The bit-reversal permutation of the fast Fourier transform benchmark. */
module BitReversal {
  import opened Powers

  function Bit(i: nat, p: nat): nat {
    if p == 0 then i % 2 else Bit(i / 2, p - 1)
  }

  /** The bit t at place m. */
  function AtPlace(t: nat, m: nat): nat { if t == 0 then 0 else Pow2(m) }

  /** The lowest b bits of i, the other way round. */
  function Reversal(i: nat, b: nat): (r: nat)
    ensures r < Pow2(b)
  {
    if b == 0 then 0 else AtPlace(i % 2, b - 1) + Reversal(i / 2, b - 1)
  }

  lemma {:induction false} BitsOfSum(t: nat, r: nat, m: nat, p: nat)
    requires t < 2 && r < Pow2(m) && p <= m
    ensures Bit(AtPlace(t, m) + r, p) == if p == m then t else Bit(r, p)
  {
    if p > 0 {
      assert (AtPlace(t, m) + r) / 2 == AtPlace(t, m - 1) + r / 2;
      BitsOfSum(t, r / 2, m - 1, p - 1);
    }
  }

  /** Bit p of the reversal is bit b - 1 - p of the number. */
  lemma {:induction false} ReversalReversesBits(i: nat, b: nat, p: nat)
    requires p < b
    ensures Bit(Reversal(i, b), p) == Bit(i, b - 1 - p)
  {
    BitsOfSum(i % 2, Reversal(i / 2, b - 1), b - 1, p);
    if p < b - 1 { ReversalReversesBits(i / 2, b - 1, p); }
  }

  lemma {:induction false} ReversalOfSum(t: nat, r: nat, m: nat)
    requires t < 2 && r < Pow2(m)
    ensures Reversal(AtPlace(t, m) + r, m + 1) == 2 * Reversal(r, m) + t
  {
    if m == 0 {
      assert AtPlace(t, 0) == t && r == 0;
    } else {
      hide Pow2, AtPlace;
      HalfOfSum(t, r, m);
      ReversalOfSum(t, r / 2, m - 1);
    }
  }

  lemma HalfOfSum(t: nat, r: nat, m: nat)
    requires t < 2 && 0 < m && r < Pow2(m)
    ensures var i := AtPlace(t, m) + r;
      i / 2 == AtPlace(t, m - 1) + r / 2 && i % 2 == r % 2 && r / 2 < Pow2(m - 1)
    ensures AtPlace(r % 2, m) == 2 * AtPlace(r % 2, m - 1)
  {
  }

  lemma {:induction false} ReversalTwice(i: nat, b: nat)
    requires i < Pow2(b)
    ensures Reversal(Reversal(i, b), b) == i
  {
    if b > 0 {
      ReversalOfSum(i % 2, Reversal(i / 2, b - 1), b - 1);
      ReversalTwice(i / 2, b - 1);
    }
  }

  lemma {:induction false} ReversalOfLast(b: nat)
    ensures Reversal(Pow2(b) - 1, b) == Pow2(b) - 1
  {
    if b > 0 {
      assert (Pow2(b) - 1) / 2 == Pow2(b - 1) - 1 && (Pow2(b) - 1) % 2 == 1;
      ReversalOfLast(b - 1);
    }
  }

  /** Adding one to an odd number carries. */
  lemma OddStep(q: nat, m: nat)
    requires m >= 1 && q % 2 == 1 && q + 1 < Pow2(m)
    ensures Reversal(q, m) == Pow2(m - 1) + Reversal(q / 2, m - 1)
    ensures Reversal(q + 1, m) == Reversal(q / 2 + 1, m - 1)
    ensures m >= 2 && q / 2 + 1 < Pow2(m - 1) && Pow2(m - 1) == 2 * Pow2(m - 2)
  {
    assert (q + 1) / 2 == q / 2 + 1 && (q + 1) % 2 == 0;
  }

  lemma EvenStep(q: nat, m: nat)
    requires m >= 1 && q % 2 == 0
    ensures Reversal(q, m) == Reversal(q / 2, m - 1) < Pow2(m - 1)
    ensures Reversal(q + 1, m) == Pow2(m - 1) + Reversal(q, m)
  {
    assert (q + 1) / 2 == q / 2 && (q + 1) % 2 == 1;
  }

  /** Adds one to the bits read from the other end. */
  method Advance(n: nat, j0: nat, ghost i: nat, ghost b: nat) returns (j: nat)
    requires n == Pow2(b) && i + 1 < n && j0 == Reversal(i, b)
    ensures j == Reversal(i + 1, b)
  {
    hide Reversal;
    j := j0;
    var k := n / 2;
    ghost var q: nat, m: nat := i, b;
    while k <= j
      invariant m >= 1 && k == Pow2(m - 1) && q + 1 < Pow2(m)
      invariant j == Reversal(q, m) && Reversal(q + 1, m) == Reversal(i + 1, b)
      decreases j
    {
      if q % 2 == 0 { EvenStep(q, m); }
      OddStep(q, m);
      j := j - k;
      k := k / 2;
      q, m := q / 2, m - 1;
    }
    if q % 2 == 1 { OddStep(q, m); }
    EvenStep(q, m);
    j := j + k;
  }

  /** Where a number has been put once the exchanges before `i` are done. */
  function Place(h: nat, b: nat, i: nat): nat {
    var r := Reversal(h, b);
    if h < i || r < i then r else h
  }

  lemma ExchangedPlaces(b: nat, i: nat, h: nat)
    requires i < Pow2(b) && h < Pow2(b)
    ensures var j := Reversal(i, b);
      Place(h, b, i + 1) ==
        if i < j && h == i then Place(j, b, i)
        else if i < j && h == j then Place(i, b, i)
        else Place(h, b, i)
  {
    ReversalTwice(i, b);
    ReversalTwice(h, b);
  }

  lemma EverythingPlaced(b: nat, h: nat)
    requires h < Pow2(b)
    ensures Place(h, b, Pow2(b) - 1) == Reversal(h, b)
  {
    ReversalOfLast(b);
  }

  function Rearranged(s: seq<real>, b: nat): (r: seq<real>)
    requires |s| == 2 * Pow2(b)
    ensures |r| == |s|
  {
    seq(|s|, k requires 0 <= k < |s| => s[2 * Reversal(k / 2, b) + k % 2])
  }

  lemma Halves(h: nat, t: nat)
    requires t < 2
    ensures (2 * h + t) / 2 == h && (2 * h + t) % 2 == t
  {
  }

  /** The rearrangement is its own inverse, so it loses nothing. */
  lemma RearrangedTwice(s: seq<real>, b: nat)
    requires |s| == 2 * Pow2(b)
    ensures Rearranged(Rearranged(s, b), b) == s
  {
    hide Reversal, Pow2;
    var t := Rearranged(s, b);
    forall k | 0 <= k < |s| ensures Rearranged(t, b)[k] == s[k] {
      var h := k / 2;
      ReversalTwice(h, b);
      Halves(Reversal(h, b), k % 2);
      assert Rearranged(t, b)[k] == t[2 * Reversal(h, b) + k % 2];
    }
  }

  /** Complex number h: real and imaginary part lie side by side. */
  function Element(s: seq<real>, h: nat): (real, real)
    requires 2 * h + 1 < |s|
  {
    (s[2 * h], s[2 * h + 1])
  }

  /** The state of the data once the exchanges before `i` are done. */
  predicate Placed(s: seq<real>, was: seq<real>, b: nat, i: nat) {
    && |s| == |was| == 2 * Pow2(b)
    && (forall h | 0 <= h < Pow2(b) :: Place(h, b, i) < Pow2(b))
    && (forall h | 0 <= h < Pow2(b) :: Element(s, h) == Element(was, Place(h, b, i)))
  }

  lemma NothingPlaced(s: seq<real>, b: nat)
    requires |s| == 2 * Pow2(b)
    ensures Placed(s, s, b, 0)
  {
  }

  function ElementsExchanged(s: seq<real>, i: nat, j: nat): seq<real>
    requires 2 * i + 1 < |s| && 2 * j + 1 < |s|
  {
    s[2 * i := s[2 * j]][2 * i + 1 := s[2 * j + 1]][2 * j := s[2 * i]][2 * j + 1 := s[2 * i + 1]]
  }

  lemma ExchangedElement(s: seq<real>, i: nat, j: nat, h: nat)
    requires 2 * i + 1 < |s| && 2 * j + 1 < |s| && 2 * h + 1 < |s|
    ensures |ElementsExchanged(s, i, j)| == |s|
    ensures Element(ElementsExchanged(s, i, j), h) ==
      if h == i then Element(s, j) else if h == j then Element(s, i) else Element(s, h)
  {
  }

  lemma PlacedNext(s: seq<real>, was: seq<real>, b: nat, i: nat)
    requires Placed(s, was, b, i) && i < Pow2(b)
    ensures var j := Reversal(i, b);
      Placed(if i < j then ElementsExchanged(s, i, j) else s, was, b, i + 1)
  {
    hide Place, Reversal, ElementsExchanged, Element, Pow2;
    var j, next := Reversal(i, b), i + 1;
    ExchangedElement(s, i, j, i);
    var t := if i < j then ElementsExchanged(s, i, j) else s;
    forall h: nat | h < Pow2(b)
      ensures Place(h, b, next) < Pow2(b)
      ensures Element(t, h) == Element(was, Place(h, b, next))
    {
      ExchangedPlaces(b, i, h);
      ExchangedElement(s, i, j, h);
      assert Place(i, b, i) < Pow2(b) && Place(j, b, i) < Pow2(b);
    }
  }

  lemma AllPlaced(s: seq<real>, was: seq<real>, b: nat)
    requires Placed(s, was, b, Pow2(b) - 1)
    ensures s == Rearranged(was, b)
  {
    forall k | 0 <= k < |s| ensures s[k] == Rearranged(was, b)[k] {
      var h := k / 2;
      EverythingPlaced(b, h);
      assert k == 2 * h + k % 2 && Element(s, h) == Element(was, Reversal(h, b));
    }
  }

  /** Complex number i is where its reversal was. */
  method BitReverse(data: array<real>, ghost b: nat)
    requires data.Length == 2 * Pow2(b)
    modifies data
    ensures data[..] == Rearranged(old(data[..]), b)
  {
    hide Placed, Place, Reversal, Rearranged;
    ghost var was := data[..];
    var n := data.Length / 2;
    var nm1 := n - 1;
    var i, j := 0, 0;
    NothingPlaced(was, b);
    ReversalOfZero(b);
    while i < nm1
      invariant 0 <= i <= nm1 && j == Reversal(i, b) < n
      invariant Placed(data[..], was, b, i)
    {
      var ii, jj := 2 * i, 2 * j;
      PlacedNext(data[..], was, b, i);
      ghost var before := data[..];
      if i < j {
        var tmp_real, tmp_imag := data[ii], data[ii + 1];
        data[ii] := data[jj];
        data[ii + 1] := data[jj + 1];
        data[jj] := tmp_real;
        data[jj + 1] := tmp_imag;
        assert data[..] == ElementsExchanged(before, i, j);
      }
      j := Advance(n, j, i, b);
      i := i + 1;
    }
    AllPlaced(data[..], was, b);
  }

  lemma {:induction false} ReversalOfZero(b: nat)
    ensures Reversal(0, b) == 0
  {
    if b > 0 { ReversalOfZero(b - 1); }
  }
}
