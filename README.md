# Glyph-to-Unicode resolution (pdf2htmlEX `src/util/unicode.cc`)

This project models how pdf2htmlEX picks the one Unicode codepoint it writes for a
glyph, and proves properties of that model. The source does this in four parts:

- `ligature_map`: a fixed table from two- and three-letter ASCII spellings to one
  precomposed codepoint (module `Ligatures`). It is an `std::unordered_map` built
  from an initializer list that repeats some keys. The C++ standard leaves open which
  of several equal keys such a constructor inserts; libstdc++ and libc++ insert entry
  by entry and keep the first value listed, and the model follows them. The model keeps the list as a `seq` of entries, in source
  order and with its duplicates. `InsertAll` models the constructor's insert-if-absent
  loop, and `FirstMatch` is a first-match reference lookup; a lemma proves the two
  agree.
- `map_to_private`: 32-bit unsigned arithmetic that puts a glyph code into the
  Private Use Areas U+E000..U+F8FF, U+F0000..U+FFFFD and U+100000..U+10FFFD, spilling
  into the next area on overflow (module `PrivateUse`). `MapToPrivate` updates one
  local step by step, truncating every intermediate value to 32 bits. It is proved
  equal to `PrivateCodepoint`, a closed-form reference that adds a per-area offset.
  Its `exhausted` output is true exactly where the source prints its warning.
- `unicode_from_font`: the font-name fallback (`Resolver.UnicodeFromFont`).
- `check_unicode`: the decision procedure over the candidate codepoints
  (`Resolver.CheckUnicode`). The method builds the lookup key in a loop from each
  candidate's low byte, as the `(char)` cast does, and is proved equal to the
  specification function `ResolvedCodepoint`.

Integers are unbounded in Dafny. `Unicode` and `CharCode` are the 32-bit unsigned
range, and `Types.Wrap` makes the source's wrap-around explicit. The font and the
global name database are passed in as parameters (`Resolver.Font`,
`Resolver.Externals`), and so is the illegal-codepoint predicate. Their definitions
are outside this code: `unicode.h` (where `is_illegal_unicode` is declared), Poppler's
`GfxFont` and `Gfx8BitFont`, and `GlobalParams` are not part of this model.

Facts about the allocator that the proofs make precise:

- The allocator hands out 137,466 codepoints (codes 0..0x218F9). Each re-base skips
  the first slot of areas 2 and 3, so U+F0000 and U+100000 are never produced.
- For codes from 0x218FA to 2^32-0xEE705 the source only warns and returns code +
  0xEE704, a value beyond U+10FFFD (`ExhaustedCodes`).
- For larger codes one of the unsigned sums wraps past 2^32 and no warning is printed.
  Codes from 2^32-0xEE704 to 2^32-0xEE702 wrap at the third sum and get 0, 1 or 2.
  Codes from 2^32-0xEE701 to 2^32-0xE001 wrap at the second sum and land in
  [0, 0xE0701), which covers all of area 1: code 0xFFF1F8FF gets U+E000, the
  codepoint of code 0, so it collides with a codepoint the allocator really hands out
  (`WrapShadowsFirstArea`). Codes from 2^32-0xE000 up wrap at the first sum and fall
  below U+E000 (`WrapEscapes`). Codes 2^32-0xE000 and 2^32-0xEE701 both get
  codepoint 0 (`WrapCollision`).

## Model

| member | source | states |
|---|---|---|
| Types.Wrap | src/util/unicode.cc:75-81 | the unsigned 32-bit additions: a value in range is kept, one in the next 2^32 block loses 2^32 |
| PrivateUse.PrivateCodepoint | src/util/unicode.cc:73-88 | reference definition of the allocator: the code plus 0xE000 in area 1, 0xEE701 in area 2 and 0xEE704 in area 3 and beyond, with the offsets of the wrapping codes, all modulo 2^32 |
| PrivateUse.MapToPrivate | src/util/unicode.cc:73-89 | the step-by-step computation equals the per-area reference `PrivateCodepoint`; the warning flag is set exactly when the final value exceeds U+10FFFD |
| PrivateUse.FirstAreaIsShift | src/util/unicode.cc:75-76 | codes 0..0x18FF map to code + 0xE000 |
| PrivateUse.BoundaryValues | src/util/unicode.cc:75-82 | 0→U+E000, 0x18FF→U+F8FF, 0x1900→U+F0001, 0x118FC→U+FFFFD, 0x118FD→U+100001, 0x218F9→U+10FFFD, 0x218FA→U+10FFFE |
| PrivateUse.AllocatedInPrivateUse | src/util/unicode.cc:73-88 | every code up to 0x218F9 lands in a Private Use Area, in the part the allocator hands out |
| PrivateUse.AreaStartsSkipped | src/util/unicode.cc:78-81 | no code at all maps to U+F0000 or U+100000 |
| PrivateUse.StrictlyIncreasing | src/util/unicode.cc:73-88 | the allocator is strictly increasing on codes 0..0x218F9 |
| PrivateUse.Injective | src/util/unicode.cc:73-88 | two codes up to 0x218F9 never share a private codepoint |
| PrivateUse.CodeOfPrivate | src/util/unicode.cc:73-88 | the inverse of the allocator is defined exactly on the codepoints it hands out |
| PrivateUse.CodeOfPrivateRoundTrip | src/util/unicode.cc:73-88 | the code is recovered from its private codepoint, for every code up to 0x218F9 |
| PrivateUse.PrivateCodepointOnto | src/util/unicode.cc:73-88 | every codepoint the allocator hands out is the image of a code up to 0x218F9 |
| PrivateUse.ExhaustedCodes | src/util/unicode.cc:82-85 | the result exceeds U+10FFFD exactly for codes above 0x218F9 whose sums do not wrap, and is then code + 0xEE704, returned unchanged |
| PrivateUse.WrapCollision | src/util/unicode.cc:75-81 | codes 2^32-0xE000 and 2^32-0xEE701 both wrap to codepoint 0 |
| PrivateUse.WrapShadowsFirstArea | src/util/unicode.cc:75-81 | every area-1 codepoint of a code c is also given, without a warning, to the wrapping code c + 2^32 - 0xE0701; for c = 0 that is code 0xFFF1F8FF |
| PrivateUse.WrapEscapes | src/util/unicode.cc:75-76 | code 0xFFFFFFFF wraps to U+DFFF, outside every Private Use Area, with no warning |
| Ligatures.InsertAll | src/util/unicode.cc:25-71 | the initializer-list constructor applied to `LigatureEntries` (the 45 entries of lines 26-70 in order) gives `LigatureMap`: each entry is inserted unless its key is already present |
| Ligatures.LookupLigature | src/util/unicode.cc:126-130 | `ligature_map.find`: Some of the stored value when the key is in `LigatureMap`, None otherwise |
| Ligatures.FirstMatchFinds | src/util/unicode.cc:25-71 | a first-match lookup misses exactly when no entry has the key; a hit is the value of the first entry that has it |
| Ligatures.InsertAllKeepsFirst | src/util/unicode.cc:25-71 | the initializer-list constructor keeps keys already present and otherwise stores the first value listed for a key |
| Ligatures.LookupIsFirstMatch | src/util/unicode.cc:25-71 | `ligature_map.find` on the constructed map answers as the first entry of the list with that key |
| Ligatures.LookupListed | src/util/unicode.cc:25-71 | a lookup hits exactly when some entry has the key, and then returns a value listed for that key |
| Ligatures.OnlyShortKeysHit | src/util/unicode.cc:25-71 | a key that is not two or three characters long misses |
| Ligatures.CaseSensitive | src/util/unicode.cc:26-29 | "AE"→198 and "ae"→230; "ss"→223 and "SS"→7838 |
| Ligatures.ThreeLetterLigature | src/util/unicode.cc:67 | "ffi"→64259 |
| Ligatures.UpperCaseMisses | src/util/unicode.cc:25-71 | "FFI" and "Ll" are not in the table |
| Ligatures.DzDuplicatesFirstWins | src/util/unicode.cc:38-54 | "DZ"→452, "Dz"→453 and "dz"→454, although later entries list 497, 498 and, for "dz", 499, 675 and 677 |
| Ligatures.DuplicatesFirstWins | src/util/unicode.cc:26-70 | "OE"→338, "AE"→198, "th"→254 and "st"→64261, although 630, 7425, 7546 and 64262 are listed later |
| Ligatures.LigatureValues | src/util/unicode.cc:25-71 | every value the table returns lies in 198..7931 or U+FB00..U+FB06 |
| Resolver.LowByte | src/util/unicode.cc:123 | the `(char)` cast keeps a candidate's low byte, `x % 256` |
| Resolver.NoneIllegal | src/util/unicode.cc:119 | `none_of`: no candidate is illegal |
| Resolver.LigatureKey | src/util/unicode.cc:121-124 | the key has one character per candidate: that candidate's low byte |
| Resolver.UnicodeFromFont | src/util/unicode.cc:91-106 | the fallback returns a legal codepoint or the private codepoint of the glyph |
| Resolver.FontNameUsed | src/util/unicode.cc:93-105 | the glyph name's translation is returned when the font is not CID-keyed, the name exists and the translation is legal; in every other case the private codepoint is returned |
| Resolver.ResolvedCodepoint | src/util/unicode.cc:108-138 | specification of `check_unicode`, branch by branch: no candidates, one legal candidate, two or three legal candidates looked up by their low-byte key, everything else through `UnicodeFromFont` |
| Resolver.CheckUnicode | src/util/unicode.cc:108-138 | the method, with its key-building loop, returns exactly `ResolvedCodepoint` |
| Resolver.NoCandidates | src/util/unicode.cc:110-111 | no candidates gives the private codepoint |
| Resolver.SingleLegalCandidate | src/util/unicode.cc:113-117 | one legal candidate is returned unchanged |
| Resolver.LigatureCandidates | src/util/unicode.cc:119-135 | two or three legal candidates: a table hit on the low-byte key gives the table value, a miss gives the private codepoint |
| Resolver.NoPartialTrust | src/util/unicode.cc:119-135 | with two or three legal candidates, a result equal to a candidate is a table value or the private codepoint |
| Resolver.FontFallback | src/util/unicode.cc:113-137 | one illegal candidate, two or three candidates with an illegal one, or four or more candidates go to the font-name path |
| Resolver.ResolvedOrigins | src/util/unicode.cc:108-138 | every result is the private codepoint, the single legal candidate, the ligature of two or three legal candidates, or a legal translation of the glyph name |
| Resolver.LigatureHitNotPrivate | src/util/unicode.cc:126-129 | a ligature hit never lies in a Private Use Area |
| Resolver.FfiResolves | src/util/unicode.cc:119-129 | candidates U+0066 U+0066 U+0069 resolve to U+FB03 when 'f' and 'i' are legal |
| Resolver.LowByteAliasing | src/util/unicode.cc:121-129 | candidates U+0166 U+0066 U+0069 also resolve to U+FB03, because only low bytes form the key |
| Resolver.UnknownPairIsPrivate | src/util/unicode.cc:131-134 | two legal candidates spelling "ab" give the private codepoint |

## Left out

- The warning written to `cerr` (src/util/unicode.cc:84) is console output. `MapToPrivate` reports it as its `exhausted` result. `CheckUnicode` and `UnicodeFromFont` do not pass that flag on.
- `is_illegal_unicode` is declared in `unicode.h`, which is not part of this model. It is a parameter (`Externals.isIllegal`).
- `GfxFont::isCIDFont`, the `dynamic_cast` to `Gfx8BitFont`, `getCharName` and `globalParams->mapNameToUnicodeText` are Poppler calls. They are fields of the `Font` and `Externals` parameters.
- Hashing and buckets of `std::unordered_map` are not modelled. Only the key-to-value function the constructor produces is modelled.
- The raw pointer `u` and the `int len` are a sequence. So a negative `len`, which the C++ signature allows and which would reach `unicode_from_font`, cannot be expressed.
- The `(char)` cast may yield a negative `char` for bytes 0x80..0xFF. The key character is the byte value instead. Key equality is the same either way.
