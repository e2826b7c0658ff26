/**
 * The decision procedure `check_unicode`, together with the font-name fallback
 * `unicode_from_font`: one output codepoint for a glyph, chosen among the
 * candidate hint codepoints, the ligature table, the font's glyph name and the
 * private allocator.
 */
module Resolver {
  import opened Types
  import opened PrivateUse
  import opened Ligatures

  /**
   * What the resolver asks of a font: whether it is CID-keyed (`isCIDFont`) and,
   * for a simple 8-bit font, the PostScript name of a glyph (`getCharName`; a
   * null name is None).
   */
  datatype Font = Font(isCIDFont: bool, charName: CharCode -> Option<string>)

  /**
   * The collaborators outside this component: the `is_illegal_unicode`
   * classification and the global name-to-Unicode database (`mapNameToUnicodeText`).
   */
  datatype Externals = Externals(isIllegal: Unicode -> bool, mapNameToUnicode: string -> Unicode)

  /** The character a candidate contributes to the ligature key: its low byte, as the `(char)` cast keeps it. */
  function LowByte(x: Unicode): char {
    (x % 256) as char
  }

  /** The ligature key: the candidates' low bytes, appended one by one. */
  function LigatureKey(u: seq<Unicode>): (key: string)
    ensures |key| == |u|
    ensures forall i :: 0 <= i < |u| ==> key[i] == LowByte(u[i]) && key[i] < 256 as char
  {
    if u == [] then [] else LigatureKey(u[..|u| - 1]) + [LowByte(u[|u| - 1])]
  }

  /** `none_of(u, u + len, is_illegal_unicode)`. */
  predicate NoneIllegal(u: seq<Unicode>, ext: Externals) {
    forall i :: 0 <= i < |u| ==> !ext.isIllegal(u[i])
  }

  /**
   * `unicode_from_font`: for a non-CID font whose glyph has a name, that name's
   * translation when it is legal; the private codepoint of `code` otherwise.
   */
  function UnicodeFromFont(code: CharCode, font: Font, ext: Externals): (r: Unicode)
    ensures r == PrivateCodepoint(code) || !ext.isIllegal(r)
  {
    if !font.isCIDFont then
      match font.charName(code)
      case Some(name) =>
        var ou := ext.mapNameToUnicode(name);
        if !ext.isIllegal(ou) then ou else PrivateCodepoint(code)
      case None => PrivateCodepoint(code)
    else PrivateCodepoint(code)
  }

  /** The result of `check_unicode` for candidates `u` of glyph `code` in `font`. */
  function ResolvedCodepoint(u: seq<Unicode>, code: CharCode, font: Font, ext: Externals): Unicode {
    if |u| == 0 then PrivateCodepoint(code)
    else if |u| == 1 && !ext.isIllegal(u[0]) then u[0]
    else if (|u| == 2 || |u| == 3) && NoneIllegal(u, ext) then
      match LookupLigature(LigatureKey(u))
      case Some(v) => v
      case None => PrivateCodepoint(code)
    else UnicodeFromFont(code, font, ext)
  }

  /**
   * `check_unicode`: decides the codepoint step by step as the source does,
   * building the ligature key in a loop over the candidates.
   */
  method CheckUnicode(u: seq<Unicode>, code: CharCode, font: Font, ext: Externals) returns (r: Unicode)
    ensures r == ResolvedCodepoint(u, code, font, ext)
  {
    if |u| == 0 {
      var exhausted;
      r, exhausted := MapToPrivate(code);
      return;
    }
    if |u| == 1 {
      if !ext.isIllegal(u[0]) {
        return u[0];
      }
    }
    if (|u| == 2 || |u| == 3) && forall i | 0 <= i < |u| :: !ext.isIllegal(u[i]) {
      var c: string := "";
      var i := 0;
      while i < |u|
        invariant 0 <= i <= |u|
        invariant c == LigatureKey(u[..i])
      {
        assert u[..i + 1][..i] == u[..i];
        c := c + [LowByte(u[i])];
        i := i + 1;
      }
      assert u[..i] == u;
      var it := LookupLigature(c);
      if it.Some? {
        return it.value;
      } else {
        var exhausted;
        r, exhausted := MapToPrivate(code);
        return;
      }
    }
    r := UnicodeFromFont(code, font, ext);
  }

  /** The font-name path returns the name's translation exactly when the font is simple, the name exists and it translates legally. */
  lemma FontNameUsed(code: CharCode, font: Font, ext: Externals)
    ensures (!font.isCIDFont && font.charName(code).Some? &&
             !ext.isIllegal(ext.mapNameToUnicode(font.charName(code).value))) ==>
            UnicodeFromFont(code, font, ext) == ext.mapNameToUnicode(font.charName(code).value)
    ensures (font.isCIDFont || font.charName(code).None? ||
             ext.isIllegal(ext.mapNameToUnicode(font.charName(code).value))) ==>
            UnicodeFromFont(code, font, ext) == PrivateCodepoint(code)
  {
  }

  /** No candidates: always the private codepoint. */
  lemma NoCandidates(code: CharCode, font: Font, ext: Externals)
    ensures ResolvedCodepoint([], code, font, ext) == PrivateCodepoint(code)
  {
  }

  /** A single legal candidate is returned unchanged. */
  lemma SingleLegalCandidate(x: Unicode, code: CharCode, font: Font, ext: Externals)
    requires !ext.isIllegal(x)
    ensures ResolvedCodepoint([x], code, font, ext) == x
  {
  }

  /**
   * Two or three legal candidates: a table hit on their low-byte key gives the
   * table's codepoint, a miss gives the private codepoint.
   */
  lemma LigatureCandidates(u: seq<Unicode>, code: CharCode, font: Font, ext: Externals)
    requires 2 <= |u| <= 3 && NoneIllegal(u, ext)
    ensures LookupLigature(LigatureKey(u)).Some? ==>
              ResolvedCodepoint(u, code, font, ext) == LookupLigature(LigatureKey(u)).value
    ensures LookupLigature(LigatureKey(u)).None? ==>
              ResolvedCodepoint(u, code, font, ext) == PrivateCodepoint(code)
  {
  }

  /**
   * Multi-codepoint hints are never partially trusted: with two or three legal
   * candidates the result is a table value or the private codepoint, so it is one
   * of the candidates only when it coincides with one of those.
   */
  lemma NoPartialTrust(u: seq<Unicode>, code: CharCode, font: Font, ext: Externals)
    requires 2 <= |u| <= 3 && NoneIllegal(u, ext)
    ensures var r := ResolvedCodepoint(u, code, font, ext);
            r in u ==> (exists key :: LookupLigature(key) == Some(r)) || r == PrivateCodepoint(code)
  {
  }

  /** Every other input goes to the font-name path. */
  lemma FontFallback(u: seq<Unicode>, code: CharCode, font: Font, ext: Externals)
    requires (|u| == 1 && ext.isIllegal(u[0])) || ((|u| == 2 || |u| == 3) && !NoneIllegal(u, ext)) || |u| >= 4
    ensures ResolvedCodepoint(u, code, font, ext) == UnicodeFromFont(code, font, ext)
  {
  }

  /**
   * Where a result can come from: the private codepoint, the one legal
   * candidate, a ligature of two or three legal candidates, or a legal
   * translation of the glyph's name. In particular the resolver never returns
   * an illegal codepoint except as a table value or a private codepoint.
   */
  lemma ResolvedOrigins(u: seq<Unicode>, code: CharCode, font: Font, ext: Externals)
    ensures var r := ResolvedCodepoint(u, code, font, ext);
            r == PrivateCodepoint(code)
            || (|u| == 1 && r == u[0] && !ext.isIllegal(r))
            || (2 <= |u| <= 3 && NoneIllegal(u, ext) && LookupLigature(LigatureKey(u)) == Some(r))
            || (!font.isCIDFont && font.charName(code).Some? &&
                r == ext.mapNameToUnicode(font.charName(code).value) && !ext.isIllegal(r))
  {
  }

  /** A ligature hit never lands in a Private Use Area, so it cannot be confused with a fallback. */
  lemma LigatureHitNotPrivate(u: seq<Unicode>, code: CharCode, font: Font, ext: Externals)
    requires 2 <= |u| <= 3 && NoneIllegal(u, ext) && LookupLigature(LigatureKey(u)).Some?
    ensures !InPrivateUseArea(ResolvedCodepoint(u, code, font, ext))
  {
    LigatureValues(LigatureKey(u));
  }

  /** The candidates U+0066 U+0066 U+0069 ("ffi") resolve to U+FB03 when 'f' and 'i' are legal. */
  lemma FfiResolves(code: CharCode, font: Font, ext: Externals)
    requires !ext.isIllegal(0x66) && !ext.isIllegal(0x69)
    ensures ResolvedCodepoint([0x66, 0x66, 0x69], code, font, ext) == 64259
  {
    assert LigatureKey([0x66, 0x66, 0x69]) == "ffi";
    ThreeLetterLigature();
  }

  /**
   * The key keeps only each candidate's low byte, so U+0166 U+0066 U+0069
   * ("Ŧfi") is taken for the "ffi" ligature too.
   */
  lemma LowByteAliasing(code: CharCode, font: Font, ext: Externals)
    requires !ext.isIllegal(0x166) && !ext.isIllegal(0x66) && !ext.isIllegal(0x69)
    ensures ResolvedCodepoint([0x166, 0x66, 0x69], code, font, ext) == 64259
  {
    assert LigatureKey([0x166, 0x66, 0x69]) == "ffi";
    ThreeLetterLigature();
  }

  /** Two legal candidates that spell no ligature ("ab") give the private codepoint, neither 'a' nor 'b'. */
  lemma UnknownPairIsPrivate(code: CharCode, font: Font, ext: Externals)
    requires !ext.isIllegal(0x61) && !ext.isIllegal(0x62)
    ensures ResolvedCodepoint([0x61, 0x62], code, font, ext) == PrivateCodepoint(code)
  {
    assert LigatureKey([0x61, 0x62]) == "ab";
    assert LookupLigature("ab") == None by {
      LookupMiss("ab");
    }
    LigatureCandidates([0x61, 0x62], code, font, ext);
  }
}
