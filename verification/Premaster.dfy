/** Selecting the RSA premaster secret without branching on the decrypted block. */
module Premaster {
  // The constant-time operations of crypto/internal.h on 64-bit words.

  /** constant_time_msb_w: the top bit copied to all bits. */
  function MsbW(a: bv64): bv64 {
    0 - (a >> 63)
  }

  function IsZeroW(a: bv64): bv64 {
    MsbW(!a & (a - 1))
  }

  function EqW(a: bv64, b: bv64): bv64 {
    IsZeroW(a ^ b)
  }

  function SelectW(mask: bv64, a: bv64, b: bv64): bv64 {
    (mask & a) | (!mask & b)
  }

  /** (uint8_t)w. */
  function Low8(w: bv64): bv8 {
    (w & 0xff) as bv8
  }

  function Wide(b: bv8): bv64 {
    b as bv64
  }

  function IsZero8(a: bv64): bv8 {
    Low8(IsZeroW(a))
  }

  function Eq8(a: bv64, b: bv64): bv8 {
    Low8(EqW(a, b))
  }

  function Select8(mask: bv8, a: bv8, b: bv8): bv8 {
    Low8(SelectW(Wide(mask), Wide(a), Wide(b)))
  }

  function And8(a: bv8, b: bv8): bv8 {
    a & b
  }

  function Not8(a: bv8): bv8 {
    !a
  }

  // What they compute: masks of all ones or all zeros.

  function Mask8(c: bool): bv8 {
    if c then 0xff else 0
  }

  lemma IsZeroIsMask(a: bv64)
    ensures IsZeroW(a) == if a == 0 then 0xffff_ffff_ffff_ffff else 0
    ensures IsZero8(a) == Mask8(a == 0)
  {
  }

  lemma EqIsMask(a: bv64, b: bv64)
    ensures Eq8(a, b) == Mask8(a == b)
  {
    hide IsZeroW, Low8;
    XorZero(a, b);
    IsZeroIsMask(a ^ b);
  }

  lemma XorZero(a: bv64, b: bv64)
    ensures a ^ b == 0 <==> a == b
  {
  }

  lemma SelectIsChoice(c: bool, a: bv8, b: bv8)
    ensures Select8(Mask8(c), a, b) == if c then a else b
  {
  }

  lemma MasksCombine(c: bool, d: bool)
    ensures And8(Mask8(c), Mask8(d)) == Mask8(c && d) && And8(Mask8(c), Not8(Mask8(d))) == Mask8(c && !d)
  {
  }

  lemma WideIsInjective(a: bv8, b: bv8)
    ensures Wide(a) == Wide(b) <==> a == b
    ensures Wide(a) == 0 <==> a == 0
  {
  }

  // The padding check.

  const MASTER_KEY_LENGTH: nat := 48

  /** The block is 00 02, nonzero bytes, 00, and then a secret: section 7.2.2 of RFC 3447. */
  predicate Padded(block: seq<bv8>)
    requires |block| >= 11 + MASTER_KEY_LENGTH
  {
    var n := |block| - MASTER_KEY_LENGTH;
    block[0] == 0 && block[1] == 2 && NonZero(block, 2, n - 1) && block[n - 1] == 0
  }

  predicate NonZero(block: seq<bv8>, from: nat, to: nat)
    requires to <= |block|
  {
    forall i: nat | from <= i < to :: block[i] != 0
  }

  /** The secret begins with the version the client offered: section 7.4.7.1 of RFC 5246. */
  predicate BeginsWithVersion(block: seq<bv8>, major: bv8, minor: bv8)
    requires |block| >= 11 + MASTER_KEY_LENGTH
  {
    block[|block| - MASTER_KEY_LENGTH] == major && block[|block| - MASTER_KEY_LENGTH + 1] == minor
  }

  /** `good` stands for the condition checked so far; one more condition is and-ed in. */
  lemma AndEq(c: bool, a: bv8, b: bv8)
    ensures And8(Mask8(c), Eq8(Wide(a), Wide(b))) == Mask8(c && a == b)
    ensures And8(Mask8(c), IsZero8(Wide(a))) == Mask8(c && a == 0)
    ensures And8(Mask8(c), Not8(IsZero8(Wide(a)))) == Mask8(c && a != 0)
  {
    hide Mask8, Eq8, IsZero8, Wide, IsZeroW, And8, Not8;
    EqIsMask(Wide(a), Wide(b));
    IsZeroIsMask(Wide(a));
    WideIsInjective(a, b);
    MasksCombine(c, a == b);
    MasksCombine(c, a == 0);
  }

  /** The padding check and selection of do_read_client_key_exchange. `premaster` holds a random
      fallback. Without a data-dependent branch it becomes the block's tail exactly when the padding
      and the version are right, and otherwise stays the fallback. */
  method SelectPremaster(block: array<bv8>, major: bv8, minor: bv8, premaster: array<bv8>) returns (ok: bool)
    requires premaster.Length == MASTER_KEY_LENGTH && block != premaster
    modifies premaster
    ensures ok <==> block.Length >= 11 + MASTER_KEY_LENGTH
    ensures ok ==>
              premaster[..] == if Padded(block[..]) && BeginsWithVersion(block[..], major, minor)
                               then block[block.Length - MASTER_KEY_LENGTH..] else old(premaster[..])
    ensures !ok ==> premaster[..] == old(premaster[..])
  {
    if block.Length < 11 + premaster.Length {
      return false;
    }
    var good := CheckPadding(block, major, minor);
    ghost var c := Padded(block[..]) && BeginsWithVersion(block[..], major, minor);
    hide Padded, BeginsWithVersion, Mask8, Select8;
    var paddingLen := block.Length - premaster.Length;
    for i := 0 to premaster.Length
      invariant forall j: nat | j < i :: premaster[j] == if c then block[paddingLen + j] else old(premaster[j])
      invariant forall j: nat | i <= j < premaster.Length :: premaster[j] == old(premaster[j])
      invariant block[..] == old(block[..])
    {
      SelectIsChoice(c, block[paddingLen + i], premaster[i]);
      premaster[i] := Select8(good, block[paddingLen + i], premaster[i]);
    }
    return true;
  }

  method CheckPadding(block: array<bv8>, major: bv8, minor: bv8) returns (good: bv8)
    requires block.Length >= 11 + MASTER_KEY_LENGTH
    ensures good == Mask8(Padded(block[..]) && BeginsWithVersion(block[..], major, minor))
  {
    hide Mask8, Eq8, IsZero8, Wide, And8, Not8;
    var paddingLen := block.Length - MASTER_KEY_LENGTH;
    EqIsMask(Wide(block[0]), Wide(0));
    WideIsInjective(block[0], 0);
    AndEq(block[0] == 0, block[1], 2);
    good := And8(Eq8(Wide(block[0]), Wide(0)), Eq8(Wide(block[1]), Wide(2)));
    ghost var start := block[0] == 0 && block[1] == 2;
    for i := 2 to paddingLen - 1
      invariant good == Mask8(start && NonZero(block[..], 2, i))
    {
      AndEq(start && NonZero(block[..], 2, i), block[i], 0);
      good := And8(good, Not8(IsZero8(Wide(block[i]))));
    }
    ghost var c := start && NonZero(block[..], 2, paddingLen - 1);
    AndEq(c, block[paddingLen - 1], 0);
    good := And8(good, IsZero8(Wide(block[paddingLen - 1])));
    AndEq(c && block[paddingLen - 1] == 0, block[paddingLen], major);
    good := And8(good, Eq8(Wide(block[paddingLen]), Wide(major)));
    AndEq(Padded(block[..]) && block[paddingLen] == major, block[paddingLen + 1], minor);
    good := And8(good, Eq8(Wide(block[paddingLen + 1]), Wide(minor)));
  }
}
