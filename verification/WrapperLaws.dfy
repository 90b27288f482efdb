/** What the methods of a wrapper, and the instructions that they replace, compute. */
module WrapperLaws {
  import opened Collections
  import opened Reals
  import opened Remainders
  import opened WrapperBasic
  import opened Jvm

  lemma TwoOfType(a: Value, b: Value, t: Ty)
    requires TypeOf(a) == TypeOf(b) == t
    ensures HasTypes([a], [t]) && HasTypes([a, b], [t, t])
  {
  }

  lemma ImagesOfTypes()
    ensures Map(ImageTy, [TDouble, TDouble]) == [TWrapper, TWrapper] && Map(ImageTy, [TDouble]) == [TWrapper]
  {
  }

  lemma Typed(op: CalcOp, a: real, b: real)
    requires SignatureOf(op).args == [TDouble, TDouble] || SignatureOf(op).args == [TDouble]
    ensures SignatureOf(op).args == [TDouble, TDouble] ==>
      HasTypes([Wrapper(a), Wrapper(b)], WrapperSignature(Operation(op)).args)
      && HasTypes([Double(a), Double(b)], SignatureOf(op).args)
    ensures SignatureOf(op).args == [TDouble] ==>
      HasTypes([Wrapper(a)], WrapperSignature(Operation(op)).args) && HasTypes([Double(a)], SignatureOf(op).args)
  {
    hide Map, HasTypes, SignatureOf;
    TwoOfType(Wrapper(a), Wrapper(b), TWrapper);
    TwoOfType(Double(a), Double(b), TDouble);
    ImagesOfTypes();
  }

  /** What the method of the wrapper returns, and what the instruction leaves. */
  function ByWrapper(op: CalcOp, a: real, b: real): Option<Value>
    requires SignatureOf(op).args == [TDouble, TDouble]
  {
    Typed(op, a, b);
    WrapperResult(Operation(op), [Wrapper(a), Wrapper(b)])
  }

  function ByInstruction(op: CalcOp, a: real, b: real): Option<Value>
    requires SignatureOf(op).args == [TDouble, TDouble]
  {
    Typed(op, a, b);
    Evaluate(op, [Double(a), Double(b)])
  }

  predicate HasSign(n: int, a: real, b: real) {
    (n < 0 <==> a < b) && (n == 0 <==> a == b) && (n > 0 <==> a > b)
  }

  /** Branches on a comparison go the way the numbers say, for wrappers as for doubles. */
  lemma Comparisons(op: CalcOp, a: real, b: real)
    requires op == DCMPL || op == DCMPG
    ensures var u := if op == DCMPL then -1 else 1;
      && ByWrapper(op, a, b) == Some(Int(WrapperCompare(Finite(a), Finite(b), u)))
      && ByInstruction(op, a, b) == Some(Int(Compare(Finite(a), Finite(b), u)))
    ensures HasSign(ByWrapper(op, a, b).value.i, a, b) && HasSign(ByInstruction(op, a, b).value.i, a, b)
  {
    hide HasTypes, Map;
    Typed(op, a, b);
    OrderOfNumbers(a, b, NaN, 0);
  }

  lemma Sums(a: real, b: real)
    ensures var w, d := ByWrapper(DADD, a, b), ByInstruction(DADD, a, b);
      w.Some? && w.value.Wrapper? && w.value.w - b == a && d.Some? && d.value.Double? && d.value.d - b == a
    ensures var w, d := ByWrapper(DSUB, a, b), ByInstruction(DSUB, a, b);
      w.Some? && w.value.Wrapper? && w.value.w + b == a && d.Some? && d.value.Double? && d.value.d + b == a
  {
    hide HasTypes, Map;
    Typed(DADD, a, b);
    Typed(DSUB, a, b);
  }

  /** The second operand is the divisor; there is no quotient and no remainder exactly for the divisor 0. */
  lemma Quotients(a: real, b: real)
    ensures var w, d := ByWrapper(DDIV, a, b), ByInstruction(DDIV, a, b);
      if b == 0.0 then w == d == None
      else w.Some? && d.Some? && d.value.Double? && w.value == Wrapper(d.value.d) && Times(d.value.d, b) == a
    ensures var w, d := ByWrapper(DREM, a, b), ByInstruction(DREM, a, b);
      if b == 0.0 then w == d == None
      else w.Some? && d.Some? && d.value.Double? && w.value == Wrapper(d.value.d) && RemainderOf(d.value.d, a, b)
  {
    hide HasTypes, Map, Quotient, Remainder, RemainderOf, Times;
    Typed(DDIV, a, b);
    Typed(DREM, a, b);
    if b != 0.0 {
      QuotientTimes(a, b);
      RemainderMeets(a, b);
    }
  }

  lemma QuotientTimes(a: real, b: real)
    requires b != 0.0
    ensures Times(Quotient(a, b), b) == a
  {
  }

  lemma Products(a: real, b: real)
    ensures ByWrapper(DMUL, a, b) == Some(Wrapper(Times(a, b)))
      && ByInstruction(DMUL, a, b) == Some(Double(Times(a, b)))
  {
    hide HasTypes, Map, Times;
    Typed(DMUL, a, b);
  }

  //---------------------------------------------------------------- conversions

  /** Towards zero where the type has such a number, else its nearest end. */
  predicate Narrowed(n: int, a: real, half: int) {
    && -half <= n < half
    && (-half as real <= a < half as real ==> Abs(n as real - a) < 1.0 && Abs(n as real) <= Abs(a))
    && (a >= half as real ==> n == half - 1) && (a <= -half as real ==> n == -half)
  }

  lemma NarrowsRight(a: real, half: int)
    requires half > 0
    ensures Narrowed(NarrowTo(a, half), a, half)
  {
  }

  lemma Conversions(a: real)
    ensures forall op | op in {D2I, D2L, DNEG} ::
      HasTypes([Wrapper(a)], WrapperSignature(Operation(op)).args) && HasTypes([Double(a)], SignatureOf(op).args)
    ensures var w, d := WrapperResult(Operation(D2I), [Wrapper(a)]), Evaluate(D2I, [Double(a)]);
      w == d && w.Some? && w.value.Int? && Narrowed(w.value.i, a, 0x8000_0000)
    ensures var w, d := WrapperResult(Operation(D2L), [Wrapper(a)]), Evaluate(D2L, [Double(a)]);
      w == d && w.Some? && w.value.Long? && Narrowed(w.value.l, a, 0x8000_0000_0000_0000)
    ensures WrapperResult(Operation(DNEG), [Wrapper(a)]) == Some(Wrapper(0.0 - a))
    ensures Evaluate(DNEG, [Double(a)]) == Some(Double(0.0 - a))
  {
    hide HasTypes, Map, NarrowTo, Narrowed;
    Typed(D2I, a, a);
    Typed(D2L, a, a);
    Typed(DNEG, a, a);
    NarrowsRight(a, 0x8000_0000);
    NarrowsRight(a, 0x8000_0000_0000_0000);
  }

  /** Whole numbers keep their value. */
  lemma Widenings(n: int)
    ensures HasTypes([Int(n)], WrapperSignature(Operation(I2D)).args) && HasTypes([Int(n)], SignatureOf(I2D).args)
    ensures HasTypes([Long(n)], WrapperSignature(Operation(L2D)).args) && HasTypes([Long(n)], SignatureOf(L2D).args)
    ensures WrapperResult(Operation(I2D), [Int(n)]) == Some(Wrapper(n as real))
    ensures Evaluate(I2D, [Int(n)]) == Some(Double(n as real))
    ensures WrapperResult(Operation(L2D), [Long(n)]) == Some(Wrapper(n as real))
    ensures Evaluate(L2D, [Long(n)]) == Some(Double(n as real))
  {
    TwoOfType(Int(n), Int(n), TInt);
    TwoOfType(Long(n), Long(n), TLong);
    assert Map(ImageTy, [TInt]) == [TInt] && Map(ImageTy, [TLong]) == [TLong];
  }
}
