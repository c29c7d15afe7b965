/** The fixed-width arithmetic the source relies on, written out. */
module Machine {

  datatype Option<+T> = None | Some(value: T)

  const U64_MAX: nat := 0xFFFF_FFFF_FFFF_FFFF
  const U32_MAX: nat := 0xFFFF_FFFF

  function Max(a: nat, b: nat): nat { if a < b then b else a }

  function Min(a: nat, b: nat): nat { if a < b then a else b }

  function Saturate(x: nat): nat { Min(x, U64_MAX) }

  /** `u64::saturating_add`. */
  function SaturatingAdd(a: nat, b: nat): nat { Saturate(a + b) }

  /** `u64::saturating_mul`. */
  function SaturatingMul(a: nat, b: nat): nat { Saturate(a * b) }

  /** `vec![x; n]`. */
  function Repeat<T>(n: nat, x: T): (s: seq<T>)
    ensures |s| == n && forall i :: 0 <= i < n ==> s[i] == x
  {
    seq(n, _ => x)
  }

  /** The slicing steps of a loop over `s`. */
  lemma SliceStep<T>(s: seq<T>, i: nat)
    requires i < |s|
    ensures s[i..] == [s[i]] + s[i + 1..]
    ensures s[i..][0] == s[i] && s[i..][1..] == s[i + 1..] && s[i] in s[i..]
    ensures s[..i + 1] == s[..i] + [s[i]]
    ensures s[i] in multiset(s[i..]) && multiset(s[i..]) - multiset{s[i]} == multiset(s[i + 1..])
  {
    assert s[i..] == [s[i]] + s[i + 1..];
  }
}
