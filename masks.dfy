/** Presence masks. A `u32` mask is modelled as the set of positions of its 1-bits, all below
    `Width`; `Value` gives back the number. Under this reading `m | b` is `m + b`, `m & b` is
    `m * b`, `m ^ b` is the symmetric difference, `0` is `{}` and `2_u32.pow(k)` is `{k}`. */
module Masks {

  /** Number of bits in a mask, hence the largest number of kinds that can be registered. */
  const Width: nat := 32

  type Mask = set<nat>

  /** `m` fits in a `u32`. */
  predicate IsWord(m: Mask)
  {
    forall k :: k in m ==> k < Width
  }

  function Pow2(n: nat): nat
  {
    if n == 0 then 1 else 2 * Pow2(n - 1)
  }

  /** The numeric value of the bits of `m` below position `n`. */
  function ValueBelow(m: Mask, n: nat): nat
  {
    if n == 0 then 0 else ValueBelow(m, n - 1) + (if n - 1 in m then Pow2(n - 1) else 0)
  }

  /** The `u32` that `m` stands for. */
  function Value(m: Mask): nat
  {
    ValueBelow(m, Width)
  }

  /** The mask of the kind registered `k`-th: `2_u32.pow(k)`. */
  function Bit(k: nat): (b: Mask)
    requires k < Width
    ensures IsWord(b) && k in b && |b| == 1
  {
    {k}
  }

  /** `a ^ b`. */
  function Xor(a: Mask, b: Mask): (r: Mask)
    ensures forall k :: k in r <==> (k in a) != (k in b)
  {
    (a - b) + (b - a)
  }

  /** `m ^ 2^k` clears bit `k` when it is set, but sets it when it is clear: toggling removes a
      kind only behind a `has_component` guard. */
  lemma XorBit(m: Mask, k: nat)
    requires k < Width
    ensures k in m ==> Xor(m, Bit(k)) == m - Bit(k)
    ensures k !in m ==> Xor(m, Bit(k)) == m + Bit(k)
  {
    // A corollary of the contract of `Xor`.
  }

  lemma {:induction false} ValueBelowBound(m: Mask, n: nat)
    ensures ValueBelow(m, n) < Pow2(n)
  {
    if n > 0 {
      ValueBelowBound(m, n - 1);
    }
  }

  lemma {:induction false} ValueBelowInjective(a: Mask, b: Mask, n: nat)
    requires ValueBelow(a, n) == ValueBelow(b, n)
    ensures forall k :: k < n ==> (k in a <==> k in b)
  {
    if n > 0 {
      ValueBelowBound(a, n - 1);
      ValueBelowBound(b, n - 1);
      assert (n - 1 in a) == (n - 1 in b);
      ValueBelowInjective(a, b, n - 1);
    }
  }

  /** Two `u32` masks are the same number exactly when they have the same bits, so comparing
      masks as sets (`== {}`, `m * mask == mask`) is comparing the source's numbers. */
  lemma ValueInjective(a: Mask, b: Mask)
    requires IsWord(a) && IsWord(b)
    ensures Value(a) == Value(b) <==> a == b
  {
    if Value(a) == Value(b) {
      ValueBelowInjective(a, b, Width);
    }
  }

  lemma {:induction false} ValueBelowAdd(m: Mask, k: nat, n: nat)
    requires k !in m
    ensures ValueBelow(m + {k}, n) == ValueBelow(m, n) + (if k < n then Pow2(k) else 0)
  {
    if n > 0 {
      ValueBelowAdd(m, k, n - 1);
    }
  }

  /** Setting an absent bit `k` adds 2^k to the value; the masks handed out are 1, 2, 4, ... */
  lemma ValueAddBit(m: Mask, k: nat)
    requires k < Width && k !in m
    ensures Value(m + Bit(k)) == Value(m) + Pow2(k)
    ensures Value(Bit(k)) == Pow2(k)
  {
    ValueBelowAdd(m, k, Width);
    ValueBelowAdd({}, k, Width);
    ValueBelowZero({}, Width);
    assert {} + {k} == Bit(k);
  }

  /** The mask values that the source's tests compare against. */
  lemma SmallValues()
    ensures Value({}) == 0 && Value({0}) == 1 && Value({1}) == 2 && Value({0, 1}) == 3
  {
    ValueZero({});
    ValueAddBit({}, 0);
    ValueAddBit({}, 1);
    ValueAddBit({0}, 1);
    assert {0} + Bit(1) == {0, 1};
  }

  lemma {:induction false} ValueBelowZero(m: Mask, n: nat)
    ensures ValueBelow(m, n) == 0 <==> forall k :: k in m ==> k >= n
  {
    if n > 0 {
      ValueBelowZero(m, n - 1);
      ValueBelowBound(m, n - 1);
    }
  }

  /** A `u32` mask is 0 exactly when no bit is set: the test `mask == 0` for a tombstone. */
  lemma ValueZero(m: Mask)
    requires IsWord(m)
    ensures Value(m) == 0 <==> m == {}
  {
    ValueBelowZero(m, Width);
  }

  /** Every kind listed in `ks` is below `n`. */
  predicate AllBelow(ks: seq<nat>, n: nat)
  {
    forall i :: 0 <= i < |ks| ==> ks[i] < n
  }

  /** `m` holds every kind listed in `ks`. */
  predicate HasAll(m: Mask, ks: seq<nat>)
  {
    forall c :: 0 <= c < |ks| ==> ks[c] in m
  }

  /** The query mask of a list of kinds: the OR of their bits, in the order they were added. */
  function MaskOf(ks: seq<nat>): Mask
    requires AllBelow(ks, Width)
  {
    if ks == [] then {} else MaskOf(ks[..|ks| - 1]) + Bit(ks[|ks| - 1])
  }

  /** The query mask holds exactly the bits of the listed kinds, so it fits in a `u32`, and the
      AND filter `m & mask == mask` means: `m` holds every listed kind. */
  lemma {:induction false} MaskOfKinds(m: Mask, ks: seq<nat>)
    requires AllBelow(ks, Width)
    ensures forall k :: k in MaskOf(ks) <==> k in ks
    ensures IsWord(MaskOf(ks))
    ensures m * MaskOf(ks) == MaskOf(ks) <==> HasAll(m, ks)
  {
    if ks != [] {
      var init := ks[..|ks| - 1];
      MaskOfKinds(m, init);
      assert ks == init + [ks[|ks| - 1]];
    }
  }
}
