/** MaskUtil: option flags packed into a Java `long`, manipulated with bit masks. A `Mask`
    contributes only its `getMask()` value, so masks are 64-bit vectors here, like the flags. */
module MaskUtil {
  import opened Jdk

  /** `hasMask(flags, mask)`: no bit of the mask is missing from the flags. */
  function HasMask(flags: bv64, mask: bv64): (r: bool)
    ensures r <==> mask & !flags == 0
  {
    flags & mask == mask
  }

  /** Every flag word has the empty mask. */
  lemma HasEmptyMask(flags: bv64)
    ensures HasMask(flags, 0)
  {
  }

  /** `setMask(flags, mask)`: afterwards every bit of the mask is set. */
  function SetMask(flags: bv64, mask: bv64): (r: bv64)
    ensures r & mask == mask
  {
    flags | mask
  }

  /** setMask leaves the bits outside the mask as they were. */
  lemma SetMaskKeepsOthers(flags: bv64, mask: bv64)
    ensures SetMask(flags, mask) & !mask == flags & !mask
  {
  }

  /** setMask clears nothing: the result still has every bit the flags had. */
  lemma SetMaskKeepsFlags(flags: bv64, mask: bv64)
    ensures HasMask(SetMask(flags, mask), flags)
  {
  }

  /** `removeMask(flags, mask)`: afterwards no bit of the mask is set. */
  function RemoveMask(flags: bv64, mask: bv64): (r: bv64)
    ensures r & mask == 0
  {
    flags & !mask
  }

  /** removeMask leaves the bits outside the mask as they were. */
  lemma RemoveMaskKeepsOthers(flags: bv64, mask: bv64)
    ensures RemoveMask(flags, mask) & !mask == flags & !mask
  {
  }

  /** After removing a non-empty mask the flags no longer have it. */
  lemma RemoveMaskLosesMask(flags: bv64, mask: bv64)
    requires mask != 0
    ensures !HasMask(RemoveMask(flags, mask), mask)
  {
  }

  /** Setting a mask twice is setting it once. */
  lemma SetMaskIdempotent(flags: bv64, mask: bv64)
    ensures SetMask(SetMask(flags, mask), mask) == SetMask(flags, mask)
  {
  }

  /** Removing a mask twice is removing it once. */
  lemma RemoveMaskIdempotent(flags: bv64, mask: bv64)
    ensures RemoveMask(RemoveMask(flags, mask), mask) == RemoveMask(flags, mask)
  {
  }

  /** `toggleMask(flags, mask, value)`: the mask's bits end up all set when `value` holds and
      all clear otherwise. */
  function ToggleMask(flags: bv64, mask: bv64, value: bool): (r: bv64)
    ensures r & mask == (if value then mask else 0)
  {
    if value then SetMask(flags, mask) else RemoveMask(flags, mask)
  }

  /** toggleMask leaves the bits outside the mask as they were. */
  lemma ToggleMaskKeepsOthers(flags: bv64, mask: bv64, value: bool)
    ensures ToggleMask(flags, mask, value) & !mask == flags & !mask
  {
    if value {
      SetMaskKeepsOthers(flags, mask);
    } else {
      RemoveMaskKeepsOthers(flags, mask);
    }
  }

  /** Two flag words are equal when they agree inside and outside a mask. */
  lemma AgreeInsideAndOutside(x: bv64, y: bv64, mask: bv64)
    requires x & mask == y & mask
    requires x & !mask == y & !mask
    ensures x == y
  {
  }

  /** toggleMask is determined by its contract: any word that agrees with the flags outside the
      mask and has the mask's bits set exactly when `value` holds is its result. */
  lemma ToggleMaskUnique(flags: bv64, mask: bv64, value: bool, r: bv64)
    requires r & !mask == flags & !mask
    requires r & mask == (if value then mask else 0)
    ensures r == ToggleMask(flags, mask, value)
  {
    ToggleMaskKeepsOthers(flags, mask, value);
    AgreeInsideAndOutside(r, ToggleMask(flags, mask, value), mask);
  }

  /** The flags have the toggled mask exactly when `value` holds or the mask is empty. */
  lemma ToggleMaskHas(flags: bv64, mask: bv64, value: bool)
    ensures HasMask(ToggleMask(flags, mask, value), mask) <==> value || mask == 0
  {
  }

  // ---------------------------------------------------------------------------
  // setMasks

  /** The OR of the masks, folded from the left from 0. */
  function OrAll(masks: seq<bv64>): (flags: bv64)
    ensures masks == [] ==> flags == 0
    ensures |masks| == 1 ==> flags == masks[0]
    decreases |masks|
  {
    if masks == [] then 0 else OrAll(masks[..|masks| - 1]) | masks[|masks| - 1]
  }

  /** The OR of all masks has every mask. */
  lemma {:induction false} OrAllHasEach(masks: seq<bv64>, k: nat)
    requires k < |masks|
    ensures HasMask(OrAll(masks), masks[k])
    decreases |masks|
  {
    if k < |masks| - 1 {
      OrAllHasEach(masks[..|masks| - 1], k);
    }
  }

  /** ... and it is the least such value: any flags that have every mask have their OR. */
  lemma {:induction false} OrAllLeast(masks: seq<bv64>, flags: bv64)
    requires forall k :: 0 <= k < |masks| ==> HasMask(flags, masks[k])
    ensures HasMask(flags, OrAll(masks))
    decreases |masks|
  {
    if masks != [] {
      var front := masks[..|masks| - 1];
      assert forall k :: 0 <= k < |front| ==> front[k] == masks[k];
      OrAllLeast(front, flags);
      assert HasMask(flags, masks[|masks| - 1]);
    }
  }

  /** Two flag words that each have the other are equal. */
  lemma HasMaskAntisymmetric(x: bv64, y: bv64)
    requires HasMask(x, y) && HasMask(y, x)
    ensures x == y
  {
  }

  /** Flags that have every element of `b`, where each element of `b` occurs in `a`, have the OR of `b`. */
  lemma OrAllCovered(a: seq<bv64>, b: seq<bv64>)
    requires forall y :: y in b ==> y in a
    ensures HasMask(OrAll(a), OrAll(b))
  {
    forall k | 0 <= k < |b| ensures HasMask(OrAll(a), b[k]) {
      assert b[k] in a;
      var i :| 0 <= i < |a| && a[i] == b[k];
      OrAllHasEach(a, i);
    }
    OrAllLeast(b, OrAll(a));
  }

  /** The order of the masks does not matter: permuted lists have the same OR. */
  lemma OrAllPermutation(a: seq<bv64>, b: seq<bv64>)
    requires multiset(a) == multiset(b)
    ensures OrAll(a) == OrAll(b)
  {
    assert forall y :: y in a <==> y in multiset(a);
    assert forall y :: y in b <==> y in multiset(b);
    OrAllCovered(a, b);
    OrAllCovered(b, a);
    HasMaskAntisymmetric(OrAll(a), OrAll(b));
  }

  /** `setMasks(masks...)`: ORs the masks into a word that starts at 0. The result has every
      mask, is the OR of them all, and is 0 for no masks. */
  method SetMasks(masks: seq<bv64>) returns (result: bv64)
    ensures result == OrAll(masks)
    ensures masks == [] ==> result == 0
    ensures forall k :: 0 <= k < |masks| ==> HasMask(result, masks[k])
  {
    result := 0;
    for i := 0 to |masks|
      invariant result == OrAll(masks[..i])
    {
      assert masks[..i + 1][..i] == masks[..i];
      result := SetMask(result, masks[i]);
    }
    assert masks[..|masks|] == masks;
    forall k | 0 <= k < |masks| ensures HasMask(result, masks[k]) {
      OrAllHasEach(masks, k);
    }
  }

  // ---------------------------------------------------------------------------
  // setOptionFlags

  /** ASCII lower case of one character. */
  function Lower(c: char): char {
    if 'A' <= c <= 'Z' then (c as int + 32) as char else c
  }

  /** Every character of `s` in ASCII lower case. */
  function LowerAll(s: string): (r: string)
    ensures |r| == |s| && forall k :: 0 <= k < |s| ==> r[k] == Lower(s[k])
  {
    seq(|s|, k requires 0 <= k < |s| => Lower(s[k]))
  }

  /** `Boolean.valueOf(s)` for a non-null `s`: "true" ignoring case. No character outside ASCII
      case-maps onto t, r, u or e, so ASCII lower-casing decides it. */
  function ParseBoolean(s: string): (b: bool)
    ensures b <==> LowerAll(s) == "true"
  {
    |s| == 4 && Lower(s[0]) == 't' && Lower(s[1]) == 'r' && Lower(s[2]) == 'u' && Lower(s[3]) == 'e'
  }

  /** A few readings of Boolean.valueOf. */
  lemma ParseBooleanExamples()
    ensures ParseBoolean("true") && ParseBoolean("TRUE") && ParseBoolean("True")
    ensures !ParseBoolean("yes") && !ParseBoolean("") && !ParseBoolean(" true") && !ParseBoolean("truee")
  {
  }

  /** `setOptionFlags(flags, mask, value)`: a null value leaves the flags as they are; otherwise
      the mask is set when the value reads as true and cleared when it does not, which is
      toggleMask driven by `Boolean.valueOf`. */
  function SetOptionFlags(flags: bv64, mask: bv64, value: Nullable<string>): (r: bv64)
    ensures value.Null? ==> r == flags
    ensures value.NonNull? ==> r == ToggleMask(flags, mask, ParseBoolean(value.value))
  {
    match value
    case Null => flags
    case NonNull(s) => if ParseBoolean(s) then SetMask(flags, mask) else RemoveMask(flags, mask)
  }
}
