/**
 * The ligature/digraph table `ligature_map`: two- and three-letter ASCII
 * spellings mapped to one precomposed codepoint. The C++ table is an
 * `unordered_map` built from an initializer list that repeats some keys. The C++
 * standard leaves open which of several equal keys that constructor inserts;
 * libstdc++ and libc++ insert entry by entry and keep the first value for each
 * key, and this model follows them.
 */
module Ligatures {
  import opened Types

  type Entry = (string, Unicode)

  /**
   * The initializer list in source order, duplicates included, written in rows
   * of five entries (source lines 26-30, 31-35, ..., 66-70) so that each row can
   * be searched on its own.
   */
  const Row0: seq<Entry> := [("AE", 198), ("TH", 222), ("ss", 223), ("ae", 230), ("th", 254)]
  const Row1: seq<Entry> := [("IJ", 306), ("ij", 307), ("OE", 338), ("oe", 339), ("hv", 405)]
  const Row2: seq<Entry> := [("OI", 418), ("oi", 419), ("DZ", 452), ("Dz", 453), ("dz", 454)]
  const Row3: seq<Entry> := [("LJ", 455), ("Lj", 456), ("lj", 457), ("NJ", 458), ("Nj", 459)]
  const Row4: seq<Entry> := [("nj", 460), ("DZ", 497), ("Dz", 498), ("dz", 499), ("db", 568)]
  const Row5: seq<Entry> := [("qp", 569), ("OE", 630), ("dz", 675), ("dz", 677), ("ts", 678)]
  const Row6: seq<Entry> := [("ls", 682), ("lz", 683), ("AE", 7425), ("ue", 7531), ("th", 7546)]
  const Row7: seq<Entry> := [("SS", 7838), ("LL", 7930), ("ll", 7931), ("ff", 64256), ("fi", 64257)]
  const Row8: seq<Entry> := [("fl", 64258), ("ffi", 64259), ("ffl", 64260), ("st", 64261), ("st", 64262)]

  const LigatureEntries: seq<Entry> :=
    Row0 + (Row1 + (Row2 + (Row3 + (Row4 + (Row5 + (Row6 + (Row7 + Row8)))))))

  /** The first of two lookups that hits. */
  function OrElse(a: Option<Unicode>, b: Option<Unicode>): Option<Unicode> {
    if a.Some? then a else b
  }

  /**
   * Reference lookup: the value of the first entry whose key equals `key`
   * exactly (case-sensitive), or None when no entry has that key.
   */
  function FirstMatch(entries: seq<Entry>, key: string): Option<Unicode> {
    if entries == [] then None
    else if entries[0].0 == key then Some(entries[0].1)
    else FirstMatch(entries[1..], key)
  }

  /** No entry of `entries` carries `key`. */
  predicate KeyAbsent(entries: seq<Entry>, key: string) {
    forall j :: 0 <= j < |entries| ==> entries[j].0 != key
  }

  /**
   * The initializer-list constructor of `std::unordered_map` as libstdc++ and
   * libc++ implement it: insert each entry in order, leaving the map unchanged
   * when its key is already present.
   */
  function InsertAll(m: map<string, Unicode>, entries: seq<Entry>): map<string, Unicode>
    decreases |entries|
  {
    if entries == [] then m
    else
      var (k, v) := entries[0];
      InsertAll(if k in m then m else m[k := v], entries[1..])
  }

  /** `ligature_map` as constructed at start-up. */
  const LigatureMap: map<string, Unicode> := InsertAll(map[], LigatureEntries)

  /** `ligature_map.find(key)`: exact-match lookup, None for "not a ligature". */
  function LookupLigature(key: string): Option<Unicode> {
    if key in LigatureMap then Some(LigatureMap[key]) else None
  }

  /**
   * FirstMatch misses exactly when no entry carries the key, and a hit is the
   * value of the first entry that does.
   */
  lemma {:induction false} FirstMatchFinds(entries: seq<Entry>, key: string)
    ensures FirstMatch(entries, key).None? <==> KeyAbsent(entries, key)
    ensures FirstMatch(entries, key).Some? ==>
              exists i :: 0 <= i < |entries| && entries[i] == (key, FirstMatch(entries, key).value) &&
                          KeyAbsent(entries[..i], key)
  {
    if entries != [] && entries[0].0 != key {
      var tail := entries[1..];
      FirstMatchFinds(tail, key);
      assert forall j :: 1 <= j < |entries| ==> entries[j] == tail[j - 1];
      if FirstMatch(tail, key).Some? {
        var i :| 0 <= i < |tail| && tail[i] == (key, FirstMatch(tail, key).value) && KeyAbsent(tail[..i], key);
        assert entries[..i + 1] == [entries[0]] + tail[..i];
        assert entries[i + 1] == tail[i];
      }
    } else if entries != [] {
      assert entries[..0] == [];
    }
  }

  /** When every entry before index `i` carries another key, the entry at `i` decides the lookup. */
  lemma {:induction false} FirstMatchAt(entries: seq<Entry>, key: string, i: nat)
    requires i < |entries| && entries[i].0 == key && KeyAbsent(entries[..i], key)
    ensures FirstMatch(entries, key) == Some(entries[i].1)
  {
    if i > 0 {
      assert entries[0] == entries[..i][0];
      assert entries[1..][..i - 1] == entries[..i][1..];
      FirstMatchAt(entries[1..], key, i - 1);
    }
  }

  /** Inserting entries keeps the keys already present and otherwise adds the first value listed. */
  lemma {:induction false} InsertAllKeepsFirst(m: map<string, Unicode>, entries: seq<Entry>, key: string)
    ensures key in m ==> key in InsertAll(m, entries) && InsertAll(m, entries)[key] == m[key]
    ensures key !in m ==> (key in InsertAll(m, entries) <==> FirstMatch(entries, key).Some?)
    ensures key !in m && key in InsertAll(m, entries) ==>
              InsertAll(m, entries)[key] == FirstMatch(entries, key).value
    decreases |entries|
  {
    if entries != [] {
      var (k, v) := entries[0];
      var m' := if k in m then m else m[k := v];
      InsertAllKeepsFirst(m', entries[1..], key);
    }
  }

  /** The map built by the constructor answers every lookup as the first matching entry does. */
  lemma LookupIsFirstMatch(key: string)
    ensures LookupLigature(key) == FirstMatch(LigatureEntries, key)
  {
    InsertAllKeepsFirst(map[], LigatureEntries, key);
  }

  /** A hit returns a value the table lists for exactly that key; a miss means no entry has the key. */
  lemma LookupListed(key: string)
    ensures LookupLigature(key).None? <==> KeyAbsent(LigatureEntries, key)
    ensures LookupLigature(key).Some? ==> (key, LookupLigature(key).value) in LigatureEntries
  {
    LookupIsFirstMatch(key);
    FirstMatchFinds(LigatureEntries, key);
  }

  /** Searching a concatenation searches the first part, then the second. */
  lemma {:induction false} FirstMatchAppend(a: seq<Entry>, b: seq<Entry>, key: string)
    ensures FirstMatch(a + b, key) == OrElse(FirstMatch(a, key), FirstMatch(b, key))
  {
    if a != [] {
      assert (a + b)[1..] == a[1..] + b;
      FirstMatchAppend(a[1..], b, key);
    } else {
      assert a + b == b;
    }
  }

  /** The table lookup, row by row. */
  lemma LookupByRows(key: string)
    ensures LookupLigature(key) ==
      OrElse(FirstMatch(Row0, key), OrElse(FirstMatch(Row1, key), OrElse(FirstMatch(Row2, key),
      OrElse(FirstMatch(Row3, key), OrElse(FirstMatch(Row4, key), OrElse(FirstMatch(Row5, key),
      OrElse(FirstMatch(Row6, key), OrElse(FirstMatch(Row7, key), FirstMatch(Row8, key)))))))))
  {
    LookupIsFirstMatch(key);
    FirstMatchAppend(Row7, Row8, key);
    FirstMatchAppend(Row6, Row7 + Row8, key);
    FirstMatchAppend(Row5, Row6 + (Row7 + Row8), key);
    FirstMatchAppend(Row4, Row5 + (Row6 + (Row7 + Row8)), key);
    FirstMatchAppend(Row3, Row4 + (Row5 + (Row6 + (Row7 + Row8))), key);
    FirstMatchAppend(Row2, Row3 + (Row4 + (Row5 + (Row6 + (Row7 + Row8)))), key);
    FirstMatchAppend(Row1, Row2 + (Row3 + (Row4 + (Row5 + (Row6 + (Row7 + Row8))))), key);
    FirstMatchAppend(Row0, Row1 + (Row2 + (Row3 + (Row4 + (Row5 + (Row6 + (Row7 + Row8)))))), key);
  }

  /** Row `r` of the table. */
  function RowAt(r: nat): seq<Entry>
    requires r < 9
  {
    [Row0, Row1, Row2, Row3, Row4, Row5, Row6, Row7, Row8][r]
  }

  /**
   * A key found at position `k` of row `r`, and absent from everything before
   * it, is answered with that entry's value.
   */
  lemma LookupHit(key: string, r: nat, k: nat)
    requires r < 9 && k < |RowAt(r)| && RowAt(r)[k].0 == key && KeyAbsent(RowAt(r)[..k], key)
    requires r > 0 ==> KeyAbsent(Row0, key)
    requires r > 1 ==> KeyAbsent(Row1, key)
    requires r > 2 ==> KeyAbsent(Row2, key)
    requires r > 3 ==> KeyAbsent(Row3, key)
    requires r > 4 ==> KeyAbsent(Row4, key)
    requires r > 5 ==> KeyAbsent(Row5, key)
    requires r > 6 ==> KeyAbsent(Row6, key)
    requires r > 7 ==> KeyAbsent(Row7, key)
    ensures LookupLigature(key) == Some(RowAt(r)[k].1)
  {
    LookupByRows(key);
    FirstMatchAt(RowAt(r), key, k);
    if r > 0 { FirstMatchFinds(Row0, key); }
    if r > 1 { FirstMatchFinds(Row1, key); }
    if r > 2 { FirstMatchFinds(Row2, key); }
    if r > 3 { FirstMatchFinds(Row3, key); }
    if r > 4 { FirstMatchFinds(Row4, key); }
    if r > 5 { FirstMatchFinds(Row5, key); }
    if r > 6 { FirstMatchFinds(Row6, key); }
    if r > 7 { FirstMatchFinds(Row7, key); }
  }

  /** A key absent from every row misses. */
  lemma LookupMiss(key: string)
    requires KeyAbsent(Row0, key) && KeyAbsent(Row1, key) && KeyAbsent(Row2, key)
    requires KeyAbsent(Row3, key) && KeyAbsent(Row4, key) && KeyAbsent(Row5, key)
    requires KeyAbsent(Row6, key) && KeyAbsent(Row7, key) && KeyAbsent(Row8, key)
    ensures LookupLigature(key) == None
  {
    LookupByRows(key);
    FirstMatchFinds(Row0, key);
    FirstMatchFinds(Row1, key);
    FirstMatchFinds(Row2, key);
    FirstMatchFinds(Row3, key);
    FirstMatchFinds(Row4, key);
    FirstMatchFinds(Row5, key);
    FirstMatchFinds(Row6, key);
    FirstMatchFinds(Row7, key);
    FirstMatchFinds(Row8, key);
  }

  /** Every key is two or three characters long, so a key of any other length misses. */
  lemma OnlyShortKeysHit(key: string)
    requires |key| != 2 && |key| != 3
    ensures LookupLigature(key) == None
  {
    LookupMiss(key);
  }

  /** Lookup is case-sensitive: spellings that differ only in case give different codepoints. */
  lemma CaseSensitive()
    ensures LookupLigature("AE") == Some(198) && LookupLigature("ae") == Some(230)
    ensures LookupLigature("ss") == Some(223) && LookupLigature("SS") == Some(7838)
  {
    LookupHit("AE", 0, 0);
    LookupHit("ae", 0, 3);
    LookupHit("ss", 0, 2);
    LookupHit("SS", 7, 0);
  }

  /** A three-letter key is matched whole: "ffi" gives U+FB03, not the "ff" or "fi" ligature. */
  lemma ThreeLetterLigature()
    ensures LookupLigature("ffi") == Some(64259)
  {
    LookupHit("ffi", 8, 1);
  }

  /** An upper-case spelling of a lower-case-only ligature is not a ligature. */
  lemma UpperCaseMisses()
    ensures LookupLigature("FFI") == None && LookupLigature("Ll") == None
  {
    LookupMiss("FFI");
    LookupMiss("Ll");
  }

  /** The DZ digraphs are listed twice or more; the first listed value wins. */
  lemma DzDuplicatesFirstWins()
    ensures ("DZ", 497) in LigatureEntries && LookupLigature("DZ") == Some(452)
    ensures ("Dz", 498) in LigatureEntries && LookupLigature("Dz") == Some(453)
    ensures ("dz", 499) in LigatureEntries && ("dz", 675) in LigatureEntries
    ensures ("dz", 677) in LigatureEntries && LookupLigature("dz") == Some(454)
  {
    assert LigatureEntries[23] == ("dz", 499);
    assert LigatureEntries[27] == ("dz", 675);
    assert LigatureEntries[21] == ("DZ", 497);
    assert LigatureEntries[22] == ("Dz", 498);
    assert LigatureEntries[28] == ("dz", 677);
    LookupHit("DZ", 2, 2);
    LookupHit("Dz", 2, 3);
    LookupHit("dz", 2, 4);
  }

  /** The other repeated keys: again the first listed value wins. */
  lemma DuplicatesFirstWins()
    ensures ("OE", 630) in LigatureEntries && LookupLigature("OE") == Some(338)
    ensures ("AE", 7425) in LigatureEntries && LookupLigature("AE") == Some(198)
    ensures ("th", 7546) in LigatureEntries && LookupLigature("th") == Some(254)
    ensures ("st", 64262) in LigatureEntries && LookupLigature("st") == Some(64261)
  {
    assert LigatureEntries[26] == ("OE", 630);
    assert LigatureEntries[32] == ("AE", 7425);
    assert LigatureEntries[34] == ("th", 7546);
    assert LigatureEntries[44] == ("st", 64262);
    LookupHit("OE", 1, 2);
    LookupHit("AE", 0, 0);
    LookupHit("th", 0, 4);
    LookupHit("st", 8, 3);
  }

  /**
   * Every value the table can return is a standard codepoint below the Private
   * Use Areas or one of the Alphabetic Presentation Forms ligatures U+FB00..U+FB06.
   */
  lemma LigatureValues(key: string)
    requires LookupLigature(key).Some?
    ensures var v := LookupLigature(key).value; 198 <= v <= 7931 || 0xFB00 <= v <= 0xFB06
  {
    LookupListed(key);
  }
}
