/**
 Identifiers as a reader of the volume spells them: what the names on the disk promise to look like,
 without the functions that the builder makes them with.
 */
module Spelling {
  import opened Bytes
  import opened FolderTree

  /** `id` is the first `n` bytes of `s` in capitals. */
  predicate Capitals(s: seq<Byte>, n: nat, id: seq<Byte>) {
    && |id| == Min(|s|, n)
    && forall i :: 0 <= i < |id| ==> !(97 <= id[i] <= 122) && (id[i] == s[i] || (97 <= s[i] <= 122 && s[i] as int == id[i] as int + 32))
  }

  /** The number that bytes `2 * i` and `2 * i + 1` of `id` spell, most significant byte first. */
  function Unit(id: seq<Byte>, i: nat): int
    requires 2 * i + 1 < |id|
  {
    0x100 * id[2 * i] as int + id[2 * i + 1] as int
  }

  /** `id` has the first `n` code units of `units`, most significant byte first. */
  predicate Units(units: seq<U16>, n: nat, id: seq<Byte>) {
    && |id| == 2 * Min(|units|, n)
    && forall i :: 0 <= i < Min(|units|, n) ==> Unit(id, i) == units[i]
  }

  /** `id` spells a directory called `n`, in the ISO or in the Joliet tree. */
  predicate SpellsDir(n: Name, joliet: bool, id: seq<Byte>) {
    if joliet then Units(n.units, 127, id) else Capitals(n.bytes, 254, id)
  }

  /** `id` spells a file called `n`: its name and a version, ";1". */
  predicate SpellsFile(n: Name, joliet: bool, id: seq<Byte>) {
    if joliet then Units(n.units + [59, 49], 103, id)
    else |id| >= 2 && id[|id| - 2] == 59 && id[|id| - 1] == 49 && Capitals(n.bytes, 204, id[..|id| - 2])
  }

  /** Exactly one sequence of bytes is a name in capitals, the one the builder writes. */
  lemma CapitalsIs(s: seq<Byte>, n: nat, id: seq<Byte>)
    ensures Capitals(s, n, id) <==> id == UpperCopy(s, n)
  {
    var r := UpperCopy(s, n);
    assert forall i :: 0 <= i < |r| ==> r[i] == if 97 <= s[i] <= 122 then s[i] - 32 else s[i];
  }

  lemma UnitsIs(units: seq<U16>, n: nat, id: seq<Byte>)
    ensures Units(units, n, id) <==> id == UnitBytes(units, n)
  {
    hide UnitBytes;
    var r, m := UnitBytes(units, n), Min(|units|, n);
    if |id| == |r| {
      forall i | 0 <= i < m ensures Unit(id, i) == units[i] <==> id[2 * i] == r[2 * i] && id[2 * i + 1] == r[2 * i + 1] {
        UnitIs(units, n, id, i);
      }
      if Units(units, n, id) { PairByPair(units, n, id, r); }
    }
  }

  lemma UnitIs(units: seq<U16>, n: nat, id: seq<Byte>, i: nat)
    requires |id| == 2 * Min(|units|, n) && i < Min(|units|, n)
    ensures var r := UnitBytes(units, n); Unit(id, i) == units[i] <==> id[2 * i] == r[2 * i] && id[2 * i + 1] == r[2 * i + 1]
  {
    Digits(id[2 * i], id[2 * i + 1], units[i]);
  }

  lemma Digits(a: Byte, b: Byte, u: U16)
    ensures 0x100 * a as int + b as int == u <==> a == u / 0x100 && b == u % 0x100
  {
  }

  lemma PairByPair(units: seq<U16>, n: nat, id: seq<Byte>, r: seq<Byte>)
    requires |id| == |r| == 2 * Min(|units|, n)
    requires forall i :: 0 <= i < Min(|units|, n) ==> id[2 * i] == r[2 * i] && id[2 * i + 1] == r[2 * i + 1]
    ensures id == r
  {
    forall k | 0 <= k < |id| ensures id[k] == r[k] {
      assert k == 2 * (k / 2) || k == 2 * (k / 2) + 1;
    }
  }

  /** A directory is spelled by the identifier the builder gives it and by no other. */
  lemma DirSpelling(n: Name, joliet: bool, id: seq<Byte>)
    ensures SpellsDir(n, joliet, id) <==> id == DirId(n, joliet)
  {
    hide Capitals, Units, UpperCopy, UnitBytes;
    CapitalsIs(n.bytes, 254, id);
    UnitsIs(n.units, 127, id);
  }

  /** So is a file. */
  lemma FileSpelling(n: Name, joliet: bool, id: seq<Byte>)
    ensures SpellsFile(n, joliet, id) <==> id == FileId(n, joliet)
  {
    hide Capitals, Units, UpperCopy, UnitBytes;
    UnitsIs(n.units + [59, 49], 103, id);
    if |id| >= 2 {
      var stem := id[..|id| - 2];
      CapitalsIs(n.bytes, 204, stem);
      assert id == stem + [id[|id| - 2], id[|id| - 1]];
    }
    var r := UpperCopy(n.bytes, 204) + [59, 49];
    assert r[..|r| - 2] == UpperCopy(n.bytes, 204);
  }

  predicate SameLetter(a: Byte, b: Byte) {
    a == b || (97 <= a <= 122 && a as int == b as int + 32) || (97 <= b <= 122 && b as int == a as int + 32)
  }

  /** The two names are the same letter by letter, capital or not. */
  predicate SameButCase(s: seq<Byte>, t: seq<Byte>) {
    |s| == |t| && forall i :: 0 <= i < |s| ==> SameLetter(s[i], t[i])
  }

  /**
   Two names within the limit clash in the ISO tree if and only if they differ in case only, as files and
   as directories; in the Joliet tree case makes them different.
   */
  lemma CaseClash(n: Name, m: Name)
    requires |n.bytes| <= 204 && |m.bytes| <= 204 && |n.units| <= 101 && |m.units| <= 101
    ensures FileId(n, false) == FileId(m, false) <==> SameButCase(n.bytes, m.bytes)
    ensures DirId(n, false) == DirId(m, false) <==> SameButCase(n.bytes, m.bytes)
    ensures FileId(n, true) == FileId(m, true) <==> n.units == m.units
    ensures DirId(n, true) == DirId(m, true) <==> n.units == m.units
  {
    hide SameButCase, UpperCopy, UnitBytes;
    CapitalsClash(n.bytes, m.bytes, 204);
    CapitalsClash(n.bytes, m.bytes, 254);
    var a, b := UpperCopy(n.bytes, 204), UpperCopy(m.bytes, 204);
    assert (a + [59, 49])[..|a|] == a && (b + [59, 49])[..|b|] == b;
    UnitsClash(n.units, m.units, 127);
    UnitsClash(n.units + [59, 49], m.units + [59, 49], 103);
    assert (n.units + [59, 49])[..|n.units|] == n.units && (m.units + [59, 49])[..|m.units|] == m.units;
  }

  lemma CapitalsClash(s: seq<Byte>, t: seq<Byte>, n: nat)
    requires |s| <= n && |t| <= n
    ensures UpperCopy(s, n) == UpperCopy(t, n) <==> SameButCase(s, t)
  {
    var a, b := UpperCopy(s, n), UpperCopy(t, n);
    if |s| == |t| {
      forall i | 0 <= i < |s|
        ensures a[i] == b[i] <==> SameLetter(s[i], t[i])
      {
      }
    }
  }

  lemma UnitsClash(s: seq<U16>, t: seq<U16>, n: nat)
    requires |s| <= n && |t| <= n
    ensures UnitBytes(s, n) == UnitBytes(t, n) <==> s == t
  {
    hide UnitBytes;
    var id := UnitBytes(s, n);
    UnitsIs(s, n, id);
    UnitsIs(t, n, id);
    if id == UnitBytes(t, n) {
      forall i | 0 <= i < |s| ensures s[i] == t[i] { assert Unit(id, i) == s[i]; }
    }
  }

  /** The file "readme.txt" is called "README.TXT;1" in the ISO tree. */
  lemma ReadMe(units: seq<U16>)
    ensures FileId(Name([114, 101, 97, 100, 109, 101, 46, 116, 120, 116], units), false) == [82, 69, 65, 68, 77, 69, 46, 84, 88, 84, 59, 49]
  {
  }
}
