/**
 * The private allocator: `map_to_private` turns a font-local glyph code into a
 * codepoint of one of Unicode's three Private Use Areas, spilling from one area
 * into the next when it overflows.
 */
module PrivateUse {
  import opened Types

  /** Basic Multilingual Plane Private Use Area. */
  const Area1First: int := 0xE000
  const Area1Last: int := 0xF8FF
  /** Supplementary Private Use Area-A (plane 15). */
  const Area2First: int := 0xF0000
  const Area2Last: int := 0xFFFFD
  /** Supplementary Private Use Area-B (plane 16). */
  const Area3First: int := 0x100000
  const Area3Last: int := 0x10FFFD

  /** The largest glyph code whose private codepoint still lies in a Private Use Area. */
  const LastAllocatableCode: int := 0x218F9

  /** Unicode's Private Use Areas. */
  predicate InPrivateUseArea(p: Unicode) {
    Area1First <= p <= Area1Last || Area2First <= p <= Area2Last || Area3First <= p <= Area3Last
  }

  /**
   * The codepoints the allocator actually hands out: each re-base lands one slot
   * past the start of the next area, so the first codepoint of areas 2 and 3 is skipped.
   */
  predicate Allocatable(p: Unicode) {
    Area1First <= p <= Area1Last || Area2First < p <= Area2Last || Area3First < p <= Area3Last
  }

  /**
   * Reference definition of the allocator as a per-code offset, then 32-bit wrap.
   * Codes 0..0x18FF go to area 1 (offset 0xE000); the following 65533 codes go to
   * area 2 starting at 0xF0001 (offset 0xEE701); the rest go to area 3 starting at
   * 0x100001 (offset 0xEE704) and beyond it once area 3 is full. The two extra
   * guards describe codes so large that an intermediate unsigned sum wraps past 2^32.
   */
  function PrivateOffset(code: CharCode): int {
    if code <= 0x18FF || code >= TwoTo32 - 0xE000 then 0xE000
    else if code <= 0x118FC || code >= TwoTo32 - 0xEE701 then 0xEE701
    else 0xEE704
  }

  function PrivateCodepoint(code: CharCode): Unicode {
    Wrap(code + PrivateOffset(code))
  }

  /**
   * `map_to_private`: the private-use codepoint of `code`, computed by updating one
   * local step by step, with each intermediate value truncated to 32 bits.
   * `exhausted` is true exactly where the source prints its "all private use
   * unicode are used" warning; the (out-of-area) value is still returned.
   */
  method MapToPrivate(code: CharCode) returns (privateMapping: Unicode, exhausted: bool)
    ensures privateMapping == PrivateCodepoint(code)
    ensures exhausted <==> privateMapping > Area3Last
  {
    exhausted := false;
    privateMapping := Wrap(code + 0xE000);
    if privateMapping > Area1Last {
      privateMapping := Wrap((privateMapping - Area1Last) + Area2First);
      if privateMapping > Area2Last {
        privateMapping := Wrap((privateMapping - Area2Last) + Area3First);
        if privateMapping > Area3Last {
          exhausted := true;
        }
      }
    }
  }

  /** The inverse of the allocator over the codepoints it hands out. */
  function CodeOfPrivate(p: Unicode): (r: Option<CharCode>)
    ensures r.Some? <==> Allocatable(p)
  {
    if Area1First <= p <= Area1Last then Some(p - 0xE000)
    else if Area2First < p <= Area2Last then Some(p - 0xEE701)
    else if Area3First < p <= Area3Last then Some(p - 0xEE704)
    else None
  }

  /** Codes in the first 6400 slots are simply shifted into area 1. */
  lemma FirstAreaIsShift(code: CharCode)
    requires code <= 0x18FF
    ensures PrivateCodepoint(code) == code + 0xE000
  {
  }

  /** The exact values at the three area boundaries. */
  lemma BoundaryValues()
    ensures PrivateCodepoint(0) == 0xE000
    ensures PrivateCodepoint(0x18FF) == 0xF8FF
    ensures PrivateCodepoint(0x1900) == 0xF0001
    ensures PrivateCodepoint(0x118FC) == 0xFFFFD
    ensures PrivateCodepoint(0x118FD) == 0x100001
    ensures PrivateCodepoint(LastAllocatableCode) == Area3Last
    ensures PrivateCodepoint(LastAllocatableCode + 1) == Area3Last + 1
  {
  }

  /** Every code up to 0x218F9 is given a codepoint in one of the three areas. */
  lemma AllocatedInPrivateUse(code: CharCode)
    requires code <= LastAllocatableCode
    ensures Allocatable(PrivateCodepoint(code))
    ensures InPrivateUseArea(PrivateCodepoint(code))
  {
  }

  /** The first codepoint of areas 2 and 3 is never handed out, for any code. */
  lemma AreaStartsSkipped(code: CharCode)
    ensures PrivateCodepoint(code) != Area2First
    ensures PrivateCodepoint(code) != Area3First
  {
  }

  /** Over the allocatable codes the allocator is strictly increasing ... */
  lemma StrictlyIncreasing(a: CharCode, b: CharCode)
    requires a < b <= LastAllocatableCode
    ensures PrivateCodepoint(a) < PrivateCodepoint(b)
  {
  }

  /** ... hence collision-free. */
  lemma Injective(a: CharCode, b: CharCode)
    requires a <= LastAllocatableCode && b <= LastAllocatableCode
    requires PrivateCodepoint(a) == PrivateCodepoint(b)
    ensures a == b
  {
    if a < b {
      StrictlyIncreasing(a, b);
    } else if b < a {
      StrictlyIncreasing(b, a);
    }
  }

  /** Round trip: the code can be recovered from its private codepoint ... */
  lemma CodeOfPrivateRoundTrip(code: CharCode)
    requires code <= LastAllocatableCode
    ensures CodeOfPrivate(PrivateCodepoint(code)) == Some(code)
  {
  }

  /** ... and every allocatable codepoint is the image of exactly that code (the allocator is onto). */
  lemma PrivateCodepointOnto(p: Unicode)
    requires Allocatable(p)
    ensures CodeOfPrivate(p).Some?
    ensures CodeOfPrivate(p).value <= LastAllocatableCode
    ensures PrivateCodepoint(CodeOfPrivate(p).value) == p
  {
  }

  /** The warning fires exactly for the codes past 0x218F9 whose sums do not wrap. */
  lemma ExhaustedCodes(code: CharCode)
    ensures PrivateCodepoint(code) > Area3Last <==> LastAllocatableCode < code < TwoTo32 - 0xEE704
    ensures LastAllocatableCode < code < TwoTo32 - 0xEE704 ==> PrivateCodepoint(code) == code + 0xEE704
  {
  }

  /**
   * Over the whole 32-bit domain the allocator is not collision-free: two huge
   * codes wrap to codepoint 0, and neither triggers the exhaustion warning.
   */
  lemma WrapCollision()
    ensures PrivateCodepoint(TwoTo32 - 0xE000) == 0
    ensures PrivateCodepoint(TwoTo32 - 0xEE701) == 0
  {
  }

  /**
   * Codes just below 2^32-0xE000 wrap at the second sum and land on area-1
   * codepoints already handed out: the code c + 2^32 - 0xE0701 gets the codepoint
   * of c, for every c in area 1, with no warning. Code 0xFFF1F8FF collides with code 0.
   */
  lemma WrapShadowsFirstArea(c: CharCode)
    requires c <= 0x18FF
    ensures c + (TwoTo32 - 0xE0701) > LastAllocatableCode
    ensures PrivateCodepoint(c + (TwoTo32 - 0xE0701)) == PrivateCodepoint(c)
    ensures PrivateCodepoint(c + (TwoTo32 - 0xE0701)) <= Area3Last
    ensures PrivateCodepoint(0xFFF1F8FF) == PrivateCodepoint(0) == 0xE000
  {
  }

  /** The largest code wraps to a non-private codepoint, again without a warning. */
  lemma WrapEscapes()
    ensures PrivateCodepoint(TwoTo32 - 1) == 0xDFFF
    ensures !InPrivateUseArea(PrivateCodepoint(TwoTo32 - 1))
  {
  }
}
