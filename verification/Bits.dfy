/**
 Bit strings, and the bit operations of 32-bit and 8-bit machine words on unsigned values.

 RFC 4648 defines its encodings on the bit string of the input, cut into groups.  The two hand-written
 codecs work with shifts in a machine word; the lemmas here say which bits such a step moves.
 */
module Bits {
  import opened Sequences

  type Byte = n: nat | n < 256

  // ----- Numbers as bit strings, most significant bit first ---------------------------

  function Pow2(w: nat): (p: nat)
    ensures p > 0
  {
    if w == 0 then 1 else 2 * Pow2(w - 1)
  }

  /** The low `w` bits of `v`. */
  function ToBits(v: nat, w: nat): (bits: seq<bool>)
    ensures |bits| == w
  {
    if w == 0 then [] else ToBits(v / 2, w - 1) + [v % 2 == 1]
  }

  function FromBits(bits: seq<bool>): nat {
    if bits == [] then 0
    else FromBits(bits[..|bits| - 1]) * 2 + (if bits[|bits| - 1] then 1 else 0)
  }

  lemma {:induction false} FromToBits(v: nat, w: nat)
    requires v < Pow2(w)
    ensures FromBits(ToBits(v, w)) == v
  {
    if w > 0 {
      FromToBits(v / 2, w - 1);
      var bits := ToBits(v, w);
      assert bits[..|bits| - 1] == ToBits(v / 2, w - 1);
    }
  }

  lemma {:induction false} ToFromBits(bits: seq<bool>)
    ensures ToBits(FromBits(bits), |bits|) == bits
    ensures FromBits(bits) < Pow2(|bits|)
  {
    if bits != [] {
      var n := |bits| - 1;
      ToFromBits(bits[..n]);
      assert bits == bits[..n] + [bits[n]];
    }
  }

  // ----- Shifts, or, wrap-around --------------------------------------------------------

  /** `v << n` without a width. */
  function Shl(v: nat, n: nat): nat {
    if n == 0 then v else 2 * Shl(v, n - 1)
  }

  /** `v >> n` */
  function Shr(v: nat, n: nat): nat {
    if n == 0 then v else Shr(v / 2, n - 1)
  }

  /** Bitwise or. */
  function Or(a: nat, b: nat): nat {
    if a == 0 then b
    else if b == 0 then a
    else 2 * Or(a / 2, b / 2) + (if a % 2 == 1 || b % 2 == 1 then 1 else 0)
  }

  lemma OrHalves(a: nat, b: nat)
    ensures Or(a, b) / 2 == Or(a / 2, b / 2)
    ensures Or(a, b) % 2 == (if a % 2 == 1 || b % 2 == 1 then 1 else 0)
  {
  }

  lemma {:induction false} OrFits(a: nat, b: nat, w: nat)
    requires a < Pow2(w) && b < Pow2(w)
    ensures Or(a, b) < Pow2(w)
  {
    if w > 0 {
      OrHalves(a, b);
      OrFits(a / 2, b / 2, w - 1);
    }
  }

  lemma WrapHalves(v: nat, n: nat)
    requires n > 0
    ensures (v % (2 * n)) / 2 == (v / 2) % n
    ensures (v % (2 * n)) % 2 == v % 2
  {
    var q, r := v / (2 * n), v % (2 * n);
    assert v == (2 * n) * q + r;
    assert (2 * n) * q == 2 * (n * q);
    assert v / 2 == n * q + r / 2;
    assert (n * q + r / 2) % n == r / 2 by {
      DivModUnique(n * q + r / 2, n, q, r / 2);
    }
  }

  lemma MulGrows(a: nat, b: nat, n: nat)
    requires a < b
    ensures n * a + n <= n * b
  {
    assert n * b == n * a + n * (b - a);
    assert n * (b - a) == n + n * (b - a - 1);
  }

  lemma DivModUnique(x: nat, n: nat, q: nat, r: nat)
    requires n > 0 && x == n * q + r && r < n
    ensures x / n == q && x % n == r
  {
    var q', r' := x / n, x % n;
    assert x == n * q' + r';
    if q < q' {
      MulGrows(q, q', n);
    } else if q' < q {
      MulGrows(q', q, n);
    }
  }

  /** A word as wide as the bits one looks at loses none of them. */
  lemma {:induction false} WrapKeepsBits(v: nat, k: nat, w: nat)
    requires w <= k
    ensures ToBits(v % Pow2(k), w) == ToBits(v, w)
  {
    if w > 0 {
      WrapHalves(v, Pow2(k - 1));
      WrapKeepsBits(v / 2, k - 1, w - 1);
    }
  }

  lemma {:induction false} WrapInOr(v: nat, b: nat, k: nat, w: nat)
    requires w <= k
    ensures ToBits(Or(v % Pow2(k), b), w) == ToBits(Or(v, b), w)
  {
    if w > 0 {
      OrHalves(v % Pow2(k), b);
      OrHalves(v, b);
      WrapHalves(v, Pow2(k - 1));
      WrapInOr(v / 2, b / 2, k - 1, w - 1);
    }
  }

  /** The low bits of a value are the low bits of its right shift followed by the bits shifted out. */
  lemma {:induction false} SplitBits(v: nat, n: nat, m: nat)
    ensures ToBits(v, n + m) == ToBits(Shr(v, m), n) + ToBits(v, m)
  {
    if m > 0 {
      SplitBits(v / 2, n, m - 1);
    }
  }

  /** Shifting left and or-ing in a value that fits the gap appends its bits. */
  lemma {:induction false} AppendBits(v: nat, n: nat, b: nat, m: nat)
    requires b < Pow2(m)
    ensures ToBits(Or(Shl(v, m), b), n + m) == ToBits(v, n) + ToBits(b, m)
  {
    if m > 0 {
      OrHalves(Shl(v, m), b);
      AppendBits(v, n, b / 2, m - 1);
    }
  }

  /** As `AppendBits`, in a word of `k` bits. */
  lemma AppendBitsWrapped(v: nat, n: nat, b: nat, m: nat, k: nat)
    requires b < Pow2(m) && n + m <= k
    ensures ToBits(Or(Shl(v, m) % Pow2(k), b), n + m) == ToBits(v, n) + ToBits(b, m)
  {
    WrapInOr(Shl(v, m), b, k, n + m);
    AppendBits(v, n, b, m);
  }

  // ----- Regrouping -----------------------------------------------------------------------

  /** The concatenated `w`-bit strings of the values. */
  function Concat(vs: seq<nat>, w: nat): seq<bool> {
    if vs == [] then [] else ToBits(vs[0], w) + Concat(vs[1..], w)
  }

  predicate Fit(vs: seq<nat>, w: nat) {
    forall i | 0 <= i < |vs| :: vs[i] < Pow2(w)
  }

  predicate Zeros(bits: seq<bool>) {
    forall i | 0 <= i < |bits| :: !bits[i]
  }

  /** The groups of `w` bits of RFC 4648: zero bits fill the last one. */
  function Groups(bits: seq<bool>, w: nat): seq<nat>
    requires w > 0
  {
    if bits == [] then []
    else if |bits| < w then [FromBits(bits + seq(w - |bits|, _ => false))]
    else [FromBits(bits[..w])] + Groups(bits[w..], w)
  }

  /** The whole groups of `w` bits; what is left over is dropped. */
  function Whole(bits: seq<bool>, w: nat): seq<nat>
    requires w > 0
  {
    if |bits| < w then [] else [FromBits(bits[..w])] + Whole(bits[w..], w)
  }

  lemma {:induction false} ConcatSnoc(vs: seq<nat>, v: nat, w: nat)
    ensures Concat(vs + [v], w) == Concat(vs, w) + ToBits(v, w)
  {
    if vs == [] {
      assert [] + [v] == [v] && [v][1..] == [];
    } else {
      ConcatSnoc(vs[1..], v, w);
      assert (vs + [v])[1..] == vs[1..] + [v];
      ConcatAssociates(ToBits(vs[0], w), Concat(vs[1..], w), ToBits(v, w));
    }
  }

  lemma TakeDrop(a: seq<bool>, b: seq<bool>)
    ensures (a + b)[..|a|] == a && (a + b)[|a|..] == b
  {
  }

  /** Whole groups come off the front one after the other. */
  lemma {:induction false} WholeAppend(vs: seq<nat>, w: nat, rest: seq<bool>)
    requires w > 0 && Fit(vs, w)
    ensures Whole(Concat(vs, w) + rest, w) == vs + Whole(rest, w)
  {
    if vs == [] {
      assert [] + rest == rest;
    } else {
      var head, tail := ToBits(vs[0], w), Concat(vs[1..], w);
      calc {
        Whole(Concat(vs, w) + rest, w);
        { ConcatAssociates(head, tail, rest); }
        Whole(head + (tail + rest), w);
        { TakeDrop(head, tail + rest); }
        [FromBits(head)] + Whole(tail + rest, w);
        { FromToBits(vs[0], w); WholeAppend(vs[1..], w, rest); }
        [vs[0]] + (vs[1..] + Whole(rest, w));
        vs + Whole(rest, w);
      }
    }
  }

  /** Whole groups of concatenated groups, with less than one more group behind them. */
  lemma WholeOfConcat(vs: seq<nat>, w: nat, rest: seq<bool>)
    requires Fit(vs, w) && |rest| < w
    ensures Whole(Concat(vs, w) + rest, w) == vs
  {
    WholeAppend(vs, w, rest);
  }

  lemma {:induction false} ConcatAppend(a: seq<nat>, b: seq<nat>, w: nat)
    ensures Concat(a + b, w) == Concat(a, w) + Concat(b, w)
  {
    if a == [] {
      assert [] + b == b;
    } else {
      ConcatAppend(a[1..], b, w);
      assert (a + b)[1..] == a[1..] + b;
      ConcatAssociates(ToBits(a[0], w), Concat(a[1..], w), Concat(b, w));
    }
  }

  /** Filled-up groups, from their concatenation. */
  lemma {:induction false} GroupsOfConcat(vs: seq<nat>, w: nat, bits: seq<bool>, fill: seq<bool>)
    requires Fit(vs, w) && Concat(vs, w) == bits + fill && Zeros(fill) && |fill| < w
    ensures Groups(bits, w) == vs
  {
    if vs == [] {
      assert bits == [];
    } else {
      var head, tail := ToBits(vs[0], w), Concat(vs[1..], w);
      TakeDrop(head, tail);
      FromToBits(vs[0], w);
      if |bits| < w {
        LastGroup(vs, w, bits, fill);
      } else {
        assert (bits + fill)[..w] == bits[..w] && (bits + fill)[w..] == bits[w..] + fill;
        GroupsOfConcat(vs[1..], w, bits[w..], fill);
      }
    }
  }

  lemma LastGroup(vs: seq<nat>, w: nat, bits: seq<bool>, fill: seq<bool>)
    requires vs != [] && Fit(vs, w) && Concat(vs, w) == bits + fill && Zeros(fill) && |fill| < w && |bits| < w
    ensures vs[1..] == [] && bits != [] && bits + seq(w - |bits|, _ => false) == ToBits(vs[0], w)
  {
    var head, tail := ToBits(vs[0], w), Concat(vs[1..], w);
    assert |bits + fill| == w + |tail|;
    assert vs[1..] != [] ==> |tail| >= w;
    assert head + [] == head;
    assert fill == seq(w - |bits|, _ => false);
  }

  /** Concatenating the groups gives the bits back, and some zero bits. */
  lemma {:induction false} ConcatGroups(bits: seq<bool>, w: nat) returns (fill: seq<bool>)
    requires w > 0
    ensures Fit(Groups(bits, w), w) && Concat(Groups(bits, w), w) == bits + fill
    ensures Zeros(fill) && |fill| < w
  {
    if bits == [] {
      fill := [];
    } else if |bits| < w {
      fill := seq(w - |bits|, _ => false);
      ToFromBits(bits + fill);
      assert Concat([FromBits(bits + fill)], w) == bits + fill + [];
    } else {
      fill := ConcatGroups(bits[w..], w);
      ToFromBits(bits[..w]);
      ConcatAssociates(bits[..w], bits[w..], fill);
      assert bits[..w] + bits[w..] == bits;
      var vs := Groups(bits, w);
      assert vs[0] == FromBits(bits[..w]) && vs[1..] == Groups(bits[w..], w);
    }
  }

  lemma GroupsFit(bits: seq<bool>, w: nat)
    requires w > 0
    ensures Fit(Groups(bits, w), w)
  {
    var _ := ConcatGroups(bits, w);
  }

  /**
   Regrouping bytes into groups of at most eight bits with zero fill, and the groups
   back into bytes with the rest dropped, gives the bytes back.
   */
  lemma Regroup(bytes: seq<nat>, w: nat)
    requires 1 <= w <= 8 && Fit(bytes, 8)
    ensures Whole(Concat(Groups(Concat(bytes, 8), w), w), 8) == bytes
  {
    var fill := ConcatGroups(Concat(bytes, 8), w);
    WholeOfConcat(bytes, 8, fill);
  }

  lemma {:induction false} ConcatLength(vs: seq<nat>, w: nat)
    ensures |Concat(vs, w)| == |vs| * w
  {
    if vs != [] {
      ConcatLength(vs[1..], w);
    }
  }
}
