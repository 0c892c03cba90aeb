/** Iterating and folding a step function, over any type of register.  What the CRC
    proofs need of the shift register is proved here once, for every step that
    distributes over an operation or is injective. */
module ShiftAlgebra {

  ghost function Iterate<R>(f: R -> R, x: R, n: nat): R
    decreases n
  {
    if n == 0 then x else Iterate(f, f(x), n - 1)
  }

  ghost predicate Distributes<R(!new)>(f: R -> R, op: (R, R) -> R) {
    forall a, b {:trigger f(op(a, b))} :: f(op(a, b)) == op(f(a), f(b))
  }

  ghost predicate Injective<R(!new)>(f: R -> R) {
    forall a, b :: f(a) == f(b) ==> a == b
  }

  lemma {:induction false} IterateDistributes<R(!new)>(f: R -> R, op: (R, R) -> R, x: R, y: R, n: nat)
    requires Distributes(f, op)
    ensures Iterate(f, op(x, y), n) == op(Iterate(f, x, n), Iterate(f, y, n))
    decreases n
  {
    if n > 0 {
      IterateDistributes(f, op, f(x), f(y), n - 1);
    }
  }

  lemma {:induction false} IterateInjective<R(!new)>(f: R -> R, x: R, y: R, n: nat)
    requires Injective(f)
    requires Iterate(f, x, n) == Iterate(f, y, n)
    ensures x == y
    decreases n
  {
    if n > 0 {
      IterateInjective(f, f(x), f(y), n - 1);
    }
  }

  lemma {:induction false} IterateAdd<R>(f: R -> R, x: R, m: nat, n: nat)
    ensures Iterate(f, x, m + n) == Iterate(f, Iterate(f, x, m), n)
    decreases m
  {
    if m > 0 {
      IterateAdd(f, f(x), m - 1, n);
    }
  }

  function Sum8<R>(op: (R, R) -> R, a: R, b: R, c: R, d: R, e: R, f: R, g: R, h: R): R {
    op(op(op(a, b), op(c, d)), op(op(e, f), op(g, h)))
  }

  lemma IterateSum8<R(!new)>(step: R -> R, op: (R, R) -> R, n: nat, a: R, b: R, c: R, d: R, e: R, f: R, g: R, h: R)
    requires Distributes(step, op)
    ensures Iterate(step, Sum8(op, a, b, c, d, e, f, g, h), n)
         == Sum8(op, Iterate(step, a, n), Iterate(step, b, n), Iterate(step, c, n), Iterate(step, d, n),
                 Iterate(step, e, n), Iterate(step, f, n), Iterate(step, g, n), Iterate(step, h, n))
  {
    IterateDistributes(step, op, a, b, n);
    IterateDistributes(step, op, c, d, n);
    IterateDistributes(step, op, e, f, n);
    IterateDistributes(step, op, g, h, n);
    IterateDistributes(step, op, op(a, b), op(c, d), n);
    IterateDistributes(step, op, op(e, f), op(g, h), n);
    IterateDistributes(step, op, op(op(a, b), op(c, d)), op(op(e, f), op(g, h)), n);
  }

  ghost predicate Commutative<R(!new)>(op: (R, R) -> R) {
    && (forall a, b, c {:trigger op(a, op(b, c))} :: op(a, op(b, c)) == op(op(a, b), c))
    && (forall a, b {:trigger op(a, b)} :: op(a, b) == op(b, a))
  }

  lemma Regroup<R(!new)>(op: (R, R) -> R, a: R, b: R, c: R, d: R)
    requires Commutative(op)
    ensures op(op(a, b), op(c, d)) == op(op(a, c), op(b, d))
  {
    assert op(op(a, b), op(c, d)) == op(a, op(b, op(c, d)));
    assert op(b, op(c, d)) == op(op(b, c), d) == op(op(c, b), d) == op(c, op(b, d));
  }

  /** The sum of two functions that distribute distributes. */
  lemma SumDistributes<R(!new)>(sum: R -> R, f: R -> R, g: R -> R, op: (R, R) -> R)
    requires Distributes(f, op) && Distributes(g, op) && Commutative(op) && forall x :: sum(x) == op(f(x), g(x))
    ensures Distributes(sum, op)
  {
    forall a, b ensures sum(op(a, b)) == op(sum(a), sum(b)) {
      Regroup(op, f(a), f(b), g(a), g(b));
    }
  }

  // ---------- Folding an update over a message ----------

  ghost function Fold<R, B>(u: (R, B) -> R, r: R, s: seq<B>): R {
    if s == [] then r else Fold(u, u(r, s[0]), s[1..])
  }

  lemma FoldAt<R, B>(u: (R, B) -> R, r: R, s: seq<B>, p: nat)
    requires p < |s|
    ensures Fold(u, r, s[p..]) == Fold(u, u(r, s[p]), s[p + 1..])
  {
    assert s[p..][1..] == s[p + 1..];
  }

  lemma {:induction false} FoldAppend<R, B>(u: (R, B) -> R, r: R, s: seq<B>, t: seq<B>)
    ensures Fold(u, r, s + t) == Fold(u, Fold(u, r, s), t)
    decreases s
  {
    if s == [] {
      assert s + t == t;
    } else {
      assert (s + t)[1..] == s[1..] + t;
      FoldAppend(u, u(r, s[0]), s[1..], t);
    }
  }

  function Zip<B>(op: (B, B) -> B, s: seq<B>, t: seq<B>): (z: seq<B>)
    requires |s| == |t|
    ensures |z| == |s|
    ensures forall i :: 0 <= i < |s| ==> z[i] == op(s[i], t[i])
  {
    seq(|s|, i requires 0 <= i < |s| => op(s[i], t[i]))
  }

  ghost predicate DistributesOver<R(!new), B(!new)>(u: (R, B) -> R, opR: (R, R) -> R, opB: (B, B) -> B) {
    forall a, b, c, d {:trigger u(opR(a, b), opB(c, d))} :: u(opR(a, b), opB(c, d)) == opR(u(a, c), u(b, d))
  }

  lemma {:induction false} FoldDistributes<R(!new), B(!new)>(
      u: (R, B) -> R, opR: (R, R) -> R, opB: (B, B) -> B, q: R, r: R, s: seq<B>, t: seq<B>)
    requires DistributesOver(u, opR, opB) && |s| == |t|
    ensures Fold(u, opR(q, r), Zip(opB, s, t)) == opR(Fold(u, q, s), Fold(u, r, t))
    decreases s
  {
    if s != [] {
      assert Zip(opB, s, t)[1..] == Zip(opB, s[1..], t[1..]);
      FoldDistributes(u, opR, opB, u(q, s[0]), u(r, t[0]), s[1..], t[1..]);
    }
  }

  ghost predicate KeepsApart<R(!new), B(!new)>(u: (R, B) -> R) {
    forall a, b, c :: u(a, c) == u(b, c) ==> a == b
  }

  /** Two registers that differ still differ after any common message. */
  lemma {:induction false} FoldInjective<R(!new), B(!new)>(u: (R, B) -> R, q: R, r: R, s: seq<B>)
    requires KeepsApart(u)
    requires Fold(u, q, s) == Fold(u, r, s)
    ensures q == r
    decreases s
  {
    if s != [] {
      FoldInjective(u, u(q, s[0]), u(r, s[0]), s[1..]);
    }
  }

  /** Sequences of one length that agree outside w consecutive places. */
  ghost predicate DifferWithin<B(!new)>(x: seq<B>, y: seq<B>, p: nat, w: nat) {
    |x| == |y| && forall i :: 0 <= i < |x| && !(p <= i < p + w) ==> x[i] == y[i]
  }

  lemma SamePrefix<B(!new)>(a: seq<B>, x: seq<B>, y: seq<B>, p: nat, w: nat)
    requires DifferWithin(x, y, p, w)
    ensures DifferWithin(a + x, a + y, |a| + p, w)
  {
  }

  lemma OtherPrefix<B(!new)>(a: seq<B>, b: seq<B>, x: seq<B>, y: seq<B>, w: nat)
    requires |a| == |b| && DifferWithin(x, y, 0, w)
    ensures DifferWithin(a + x, b + y, 0, |a| + w)
  {
  }

  /** What follows a window cannot hide a difference that the window made. */
  lemma FoldWindow<R(!new), B(!new)>(u: (R, B) -> R, r: R, x: seq<B>, y: seq<B>, p: nat, w: nat)
    requires KeepsApart(u) && DifferWithin(x, y, p, w) && p + w <= |x|
    requires Fold(u, r, x) == Fold(u, r, y)
    ensures Fold(u, Fold(u, r, x[..p]), x[p..p + w]) == Fold(u, Fold(u, r, x[..p]), y[p..p + w])
  {
    var head, tail, a, b := x[..p], x[p + w..], x[p..p + w], y[p..p + w];
    var q := Fold(u, r, head);
    assert x == head + (a + tail) && y == head + (b + tail);
    FoldAppend(u, r, head, a + tail);
    FoldAppend(u, r, head, b + tail);
    FoldAppend(u, q, a, tail);
    FoldAppend(u, q, b, tail);
    FoldInjective(u, Fold(u, q, a), Fold(u, q, b), tail);
  }

  ghost predicate TellsApart<R(!new), B(!new)>(u: (R, B) -> R, w: nat) {
    forall q, a, b :: |a| == |b| == w && Fold(u, q, a) == Fold(u, q, b) ==> a == b
  }

  lemma SameWindow<B(!new)>(x: seq<B>, y: seq<B>, p: nat, w: nat)
    requires DifferWithin(x, y, p, w) && p + w <= |x| && x[p..p + w] == y[p..p + w]
    ensures x == y
  {
    forall i | p <= i < p + w ensures x[i] == y[i] {
      assert x[p..p + w][i - p] == y[p..p + w][i - p];
    }
  }

  lemma PaddedApart<R(!new), B(!new)>(u: (R, B) -> R, r: R, x: seq<B>, y: seq<B>, p: nat, w: nat)
    requires KeepsApart(u) && TellsApart(u, w) && p + w <= |x|
    requires DifferWithin(x, y, p, w) && Fold(u, r, x) == Fold(u, r, y)
    ensures x == y
  {
    FoldWindow(u, r, x, y, p, w);
    var q, a, b := Fold(u, r, x[..p]), x[p..p + w], y[p..p + w];
    assert |a| == |b| == w && Fold(u, q, a) == Fold(u, q, b);
    SameWindow(x, y, p, w);
  }

  /** An update that keeps registers apart and tells windows of w apart tells any two
      sequences apart that differ within w places; the window may run past the end. */
  lemma FoldTellsApart<R(!new), B(!new)>(u: (R, B) -> R, r: R, x: seq<B>, y: seq<B>, p: nat, w: nat, pad: seq<B>)
    requires KeepsApart(u) && TellsApart(u, w) && |pad| == w
    requires DifferWithin(x, y, p, w) && Fold(u, r, x) == Fold(u, r, y)
    ensures x == y
  {
    if p < |x| {
      FoldAppend(u, r, x, pad);
      FoldAppend(u, r, y, pad);
      PaddedApart(u, r, x + pad, y + pad, p, w);
      assert x == (x + pad)[..|x|] && y == (y + pad)[..|x|];
    }
  }
}
