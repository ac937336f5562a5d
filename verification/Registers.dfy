/** Shift registers in general: facts about repeated steps that need nothing but the algebra of one step. */
module Registers {
  function Iterate<R>(step: R -> R, x: R, n: nat): R
    decreases n, x
  {
    if n == 0 then x else Iterate(step, step(x), n - 1)
  }

  lemma IterateUnfold<R>(step: R -> R, x: R, n: nat)
    requires n > 0
    ensures Iterate(step, x, n) == Iterate(step, step(x), n - 1)
  {
  }

  function Fold<R, B>(feed: (R, B) -> R, r: R, s: seq<B>): R
    decreases |s|
  {
    if s == [] then r else Fold(feed, feed(r, s[0]), s[1..])
  }

  function Zip<A, B, C>(f: (A, B) -> C, a: seq<A>, b: seq<B>): (c: seq<C>)
    requires |a| == |b|
    ensures |c| == |a| && forall i :: 0 <= i < |a| ==> c[i] == f(a[i], b[i])
  {
    seq(|a|, i requires 0 <= i < |a| => f(a[i], b[i]))
  }

  lemma {:induction false} FoldConcat<R, B>(feed: (R, B) -> R, r: R, a: seq<B>, b: seq<B>)
    ensures Fold(feed, r, a + b) == Fold(feed, Fold(feed, r, a), b)
    decreases |a|
  {
    if a == [] {
      assert a + b == b;
    } else {
      FoldConcat(feed, feed(r, a[0]), a[1..], b);
      assert (a + b)[1..] == a[1..] + b;
    }
  }

  ghost predicate Additive<R(!new)>(step: R -> R, mix: (R, R) -> R) {
    forall x, y :: step(mix(x, y)) == mix(step(x), step(y))
  }

  lemma {:induction false} IterateIsAdditive<R(!new)>(step: R -> R, mix: (R, R) -> R, x: R, y: R, n: nat)
    requires Additive(step, mix)
    ensures Iterate(step, mix(x, y), n) == mix(Iterate(step, x, n), Iterate(step, y, n))
    decreases n
  {
    if n > 0 {
      IterateIsAdditive(step, mix, step(x), step(y), n - 1);
    }
  }

  /** Feeding mixed input to a mixed register mixes the results. */
  ghost predicate Bilinear<R(!new), B(!new)>(feed: (R, B) -> R, mix: (R, R) -> R, combine: (B, B) -> B) {
    forall x, y, a, b :: feed(mix(x, y), combine(a, b)) == mix(feed(x, a), feed(y, b))
  }

  lemma {:induction false} FoldIsLinear<R(!new), B(!new)>(
      feed: (R, B) -> R, mix: (R, R) -> R, combine: (B, B) -> B, x: R, y: R, a: seq<B>, b: seq<B>)
    requires |a| == |b| && Bilinear(feed, mix, combine)
    ensures Fold(feed, mix(x, y), Zip(combine, a, b)) == mix(Fold(feed, x, a), Fold(feed, y, b))
    decreases |a|
  {
    if a != [] {
      FoldIsLinear(feed, mix, combine, feed(x, a[0]), feed(y, b[0]), a[1..], b[1..]);
      assert Zip(combine, a, b)[1..] == Zip(combine, a[1..], b[1..]);
    }
  }

  /** The first n low parts of a value that is halved again and again. */
  function Lows<R, B>(low: R -> B, half: R -> R, x: R, n: nat): (s: seq<B>)
    ensures |s| == n
    decreases n
  {
    if n == 0 then [] else [low(x)] + Lows(low, half, half(x), n - 1)
  }

  /** One step on a register with b mixed in takes the low part of b now and leaves the rest for later. */
  ghost predicate Peels<R(!new), B>(step: R -> R, mix: (R, R) -> R, feed: (R, B) -> R, low: R -> B, half: R -> R) {
    forall c, b :: step(mix(c, b)) == mix(feed(c, low(b)), half(b))
  }

  /** Mixing a value in whole and stepping n times is feeding its first n low parts one at a time. */
  lemma {:induction false} StepsAreSerial<R(!new), B>(
      step: R -> R, mix: (R, R) -> R, feed: (R, B) -> R, low: R -> B, half: R -> R, c: R, b: R, n: nat)
    requires Peels(step, mix, feed, low, half)
    ensures Iterate(step, mix(c, b), n) == mix(Fold(feed, c, Lows(low, half, b, n)), Iterate(half, b, n))
    decreases n
  {
    if n > 0 {
      StepsAreSerial(step, mix, feed, low, half, feed(c, low(b)), half(b), n - 1);
      assert Lows(low, half, b, n)[1..] == Lows(low, half, half(b), n - 1);
    }
  }

  ghost predicate Determined<R(!new), B>(low: R -> B, half: R -> R) {
    forall x, y :: low(x) == low(y) && half(x) == half(y) ==> x == y
  }

  /** A value is determined by its low parts and what remains above them. */
  lemma {:induction false} LowsDetermine<R(!new), B>(low: R -> B, half: R -> R, x: R, y: R, n: nat)
    requires Determined(low, half)
    requires Lows(low, half, x, n) == Lows(low, half, y, n) && Iterate(half, x, n) == Iterate(half, y, n)
    ensures x == y
    decreases n
  {
    if n > 0 {
      assert Lows(low, half, x, n)[1..] == Lows(low, half, half(x), n - 1);
      assert Lows(low, half, y, n)[1..] == Lows(low, half, half(y), n - 1);
      assert Lows(low, half, x, n)[0] == Lows(low, half, y, n)[0];
      LowsDetermine(low, half, half(x), half(y), n - 1);
    }
  }

  /** Equal low parts cancel when mixed, so they leave no feedback. */
  ghost predicate Cancels<R(!new), B>(step: R -> R, mix: (R, R) -> R, low: R -> B, half: R -> R) {
    forall c, b :: low(c) == low(b) ==> step(mix(c, b)) == mix(half(c), half(b))
  }

  lemma {:induction false} LowsCancel<R(!new), B>(
      step: R -> R, mix: (R, R) -> R, low: R -> B, half: R -> R, c: R, b: R, n: nat)
    requires Cancels(step, mix, low, half) && Lows(low, half, c, n) == Lows(low, half, b, n)
    ensures Iterate(step, mix(c, b), n) == mix(Iterate(half, c, n), Iterate(half, b, n))
    decreases n
  {
    if n > 0 {
      assert Lows(low, half, c, n)[1..] == Lows(low, half, half(c), n - 1);
      assert Lows(low, half, b, n)[1..] == Lows(low, half, half(b), n - 1);
      assert Lows(low, half, c, n)[0] == Lows(low, half, b, n)[0];
      LowsCancel(step, mix, low, half, half(c), half(b), n - 1);
    }
  }

  /** Mixing in its own low parts leaves a register with what is above them. */
  lemma LowsLeave<R(!new), B>(
      step: R -> R, mix: (R, R) -> R, low: R -> B, half: R -> R, c: R, b: R, above: R, zero: R, n: nat)
    requires Cancels(step, mix, low, half) && Lows(low, half, c, n) == Lows(low, half, b, n)
    requires Iterate(half, c, n) == above && Iterate(half, b, n) == zero && mix(above, zero) == above
    ensures Iterate(step, mix(c, b), n) == above
  {
    LowsCancel(step, mix, low, half, c, b, n);
  }
}
