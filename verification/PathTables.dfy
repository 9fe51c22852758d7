/** ISO 9660 path tables (ECMA-119 section 9.4): encoding, parsing, and rebasing in place. */
module PathTables {
  import opened Bytes

  datatype Entry = Entry(loc: U32, parent: U16, id: seq<Byte>)

  predicate EntryOk(e: Entry) {
    1 <= |e.id| <= 254
  }

  predicate EntriesOk(es: seq<Entry>) {
    forall i :: 0 <= i < |es| ==> EntryOk(es[i])
  }

  function EncodeEntry(e: Entry, msb: bool): (s: seq<Byte>)
    requires EntryOk(e)
    ensures |s| == EntryLen(|e.id|)
  {
    [|e.id|, 0] + Word32(e.loc, msb) + Word16(e.parent, msb) + e.id + Zeros(|e.id| % 2)
  }

  /** `8 + len_di`, plus one byte of padding behind an identifier of odd length. */
  function EntryLen(lenDi: nat): (n: nat)
    ensures n >= 8
  {
    8 + lenDi + lenDi % 2
  }

  function Table(es: seq<Entry>, msb: bool): seq<Byte>
    requires EntriesOk(es)
  {
    if es == [] then [] else EncodeEntry(es[0], msb) + Table(es[1..], msb)
  }

  lemma {:induction false} TableConcat(as_: seq<Entry>, bs: seq<Entry>, msb: bool)
    requires EntriesOk(as_) && EntriesOk(bs)
    ensures EntriesOk(as_ + bs) && Table(as_ + bs, msb) == Table(as_, msb) + Table(bs, msb)
  {
    hide EncodeEntry, EntryOk;
    if as_ == [] {
      assert as_ + bs == bs;
    } else {
      assert EntriesOk(as_[1..]);
      TableConcat(as_[1..], bs, msb);
      assert (as_ + bs)[1..] == as_[1..] + bs;
    }
  }

  lemma TableAppend(es: seq<Entry>, e: Entry, msb: bool)
    requires EntriesOk(es) && EntryOk(e)
    ensures EntriesOk(es + [e]) && Table(es + [e], msb) == Table(es, msb) + EncodeEntry(e, msb)
  {
    hide EncodeEntry;
    TableConcat(es, [e], msb);
    assert [e][1..] == [];
    assert Table([e][1..], msb) == [];
  }

  lemma TableEmpty(es: seq<Entry>, msb: bool)
    requires EntriesOk(es)
    ensures Table(es, msb) == [] <==> es == []
  {
    hide EncodeEntry;
  }

  lemma TableSplit(es: seq<Entry>, i: nat, msb: bool)
    requires EntriesOk(es) && i < |es|
    ensures Table(es[i..], msb) == EncodeEntry(es[i], msb) + Table(es[i + 1..], msb)
  {
    hide EncodeEntry;
    assert es[i..][0] == es[i] && es[i..][1..] == es[i + 1..];
  }

  /** The entries a reader finds when it walks a table from its first byte. */
  function ParseEntries(s: seq<Byte>, msb: bool): seq<Entry> {
    if |s| < 8 || |s| < EntryLen(s[0]) then []
    else
      [Entry(FromWord32(s[2..6], msb), if msb then 0x100 * s[6] as int + s[7] else s[6] + 0x100 * s[7] as int, s[8..8 + s[0]])]
      + ParseEntries(s[EntryLen(s[0])..], msb)
  }

  lemma EntryFields(e: Entry, msb: bool)
    requires EntryOk(e)
    ensures var s := EncodeEntry(e, msb);
      && s[0] == |e.id| && s[2..6] == Word32(e.loc, msb) && s[6..8] == Word16(e.parent, msb) && s[8..8 + |e.id|] == e.id
  {
  }

  /** No extended attribute record, and a zero behind an identifier of odd length. */
  lemma EntryFixedBytes(e: Entry, msb: bool)
    requires EntryOk(e)
    ensures var s := EncodeEntry(e, msb); s[1] == 0 && |s| % 2 == 0 && (|e.id| % 2 == 1 ==> s[8 + |e.id|] == 0)
  {
    hide Word32, Word16;
  }

  lemma {:induction false} ParseTable(es: seq<Entry>, msb: bool)
    requires EntriesOk(es)
    ensures ParseEntries(Table(es, msb), msb) == es
  {
    if es != [] {
      ParseTable(es[1..], msb);
      ParseFirst(es[0], Table(es[1..], msb), msb);
    }
  }

  lemma ParseFirst(e: Entry, rest: seq<Byte>, msb: bool)
    requires EntryOk(e)
    ensures ParseEntries(EncodeEntry(e, msb) + rest, msb) == [e] + ParseEntries(rest, msb)
  {
    var s, t := EncodeEntry(e, msb), EncodeEntry(e, msb) + rest;
    EntryFields(e, msb);
    WordRoundTrip(e.loc);
    hide EncodeEntry, FromLe32, FromBe32, Le32, Be32;
    assert t[EntryLen(t[0])..] == rest;
    assert t[2..6] == s[2..6] && t[8..8 + t[0]] == e.id;
    assert t[6] == s[6..8][0] && t[7] == s[6..8][1];
  }

  // ---------------------------------------------------------------- fixPathTableLba

  function Rebase(e: Entry, dirLba: U32): Entry {
    e.(loc := Wrap32(e.loc + dirLba))
  }

  function RebaseAll(es: seq<Entry>, dirLba: U32): (fs: seq<Entry>)
    ensures |fs| == |es| && forall i :: 0 <= i < |es| ==> fs[i] == Rebase(es[i], dirLba)
    ensures EntriesOk(es) ==> EntriesOk(fs)
  {
    seq(|es|, i requires 0 <= i < |es| => Rebase(es[i], dirLba))
  }

  /** What follows the location in an entry. */
  function Rest(e: Entry, msb: bool): seq<Byte>
    requires EntryOk(e)
  {
    Word16(e.parent, msb) + e.id + Zeros(|e.id| % 2)
  }

  lemma EntryParts(e: Entry, msb: bool)
    requires EntryOk(e)
    ensures EncodeEntry(e, msb) == [|e.id|, 0] + Word32(e.loc, msb) + Rest(e, msb)
  {
    hide Word32, Word16;
  }

  lemma WordBack(x: U32, msb: bool)
    ensures FromWord32(Word32(x, msb), msb) == x
  {
    WordRoundTrip(x);
  }

  lemma MiddleReplaced(a: seq<Byte>, w: seq<Byte>, w': seq<Byte>, z: seq<Byte>)
    requires |w| == |w'|
    ensures Splice(a + w + z, |a|, w') == a + w' + z && (a + w + z)[|a|..|a| + |w|] == w
  {
  }

  lemma FivePieces(a: seq<Byte>, f: seq<Byte>, w: seq<Byte>, r: seq<Byte>, b: seq<Byte>)
    ensures a + (f + w + r + b) == (a + f) + w + (r + b) == (a + (f + w + r)) + b
    ensures |f| > 0 ==> (a + (f + w + r + b))[|a|] == f[0]
  {
  }

  lemma EntryRebased(e: Entry, dirLba: U32, msb: bool, a: seq<Byte>, b: seq<Byte>)
    requires EntryOk(e)
    ensures var t := a + (EncodeEntry(e, msb) + b);
      && |a| + 8 <= |t| && t[|a|] == |e.id|
      && FromWord32(t[|a| + 2..|a| + 6], msb) == e.loc
      && Splice(t, |a| + 2, Word32(Wrap32(e.loc + dirLba), msb)) == (a + EncodeEntry(Rebase(e, dirLba), msb)) + b
  {
    hide EncodeEntry, Word32, FromWord32, Wrap32, Splice, Rest;
    var f, w, w', r := [|e.id|, 0], Word32(e.loc, msb), Word32(Wrap32(e.loc + dirLba), msb), Rest(e, msb);
    EntryParts(e, msb);
    EntryParts(Rebase(e, dirLba), msb);
    RestKept(e, dirLba, msb);
    FivePieces(a, f, w, r, b);
    FivePieces(a, f, w', r, b);
    MiddleReplaced(a + f, w, w', r + b);
    WordBack(e.loc, msb);
  }

  lemma RestKept(e: Entry, dirLba: U32, msb: bool)
    requires EntryOk(e)
    ensures Rest(Rebase(e, dirLba), msb) == Rest(e, msb)
  {
    hide Word16;
  }

  method RebaseEntry(table: array<Byte>, p: nat, dirLba: U32, msb: bool, ghost a: seq<Byte>, ghost e: Entry, ghost b: seq<Byte>)
    returns (q: nat)
    requires EntryOk(e) && table[..] == a + (EncodeEntry(e, msb) + b) && p == |a|
    modifies table
    ensures table[..] == (a + EncodeEntry(Rebase(e, dirLba), msb)) + b
    ensures q == |a + EncodeEntry(Rebase(e, dirLba), msb)|
  {
    hide EncodeEntry, FromWord32, Wrap32, Splice, Word32;
    EntryRebased(e, dirLba, msb, a, b);
    assert table[p + 2..p + 6] == table[..][p + 2..p + 6];
    var lenDi := table[p];
    assert table[..][p] == lenDi;
    Put(table, p + 2, Word32(Wrap32(FromWord32(table[p + 2..p + 6], msb) + dirLba), msb));
    q := p + 8 + lenDi + if lenDi % 2 == 1 then 1 else 0;
  }

  /** Every entry is rebased exactly once, and nothing else changes. */
  method FixPathTableLba(table: array<Byte>, dirLba: U32, msb: bool, ghost es: seq<Entry>)
    requires EntriesOk(es) && table[..] == Table(es, msb)
    modifies table
    ensures table[..] == Table(RebaseAll(es, dirLba), msb)
  {
    hide EncodeEntry, Rebase, Table;
    var p := 0;
    ghost var i := 0;
    ghost var fs := RebaseAll(es, dirLba);
    assert es[0..] == es && fs[..0] == [];
    TableEmpty([], msb);
    while p < table.Length
      invariant i <= |es| && p == |Table(fs[..i], msb)|
      invariant table[..] == Table(fs[..i], msb) + Table(es[i..], msb)
      decreases |es| - i
    {
      TableEmpty(es[i..], msb);
      TableSplit(es, i, msb);
      assert fs[..i + 1] == fs[..i] + [fs[i]];
      TableAppend(fs[..i], fs[i], msb);
      p := RebaseEntry(table, p, dirLba, msb, Table(fs[..i], msb), es[i], Table(es[i + 1..], msb));
      i := i + 1;
    }
    TableEmpty(es[i..], msb);
    assert fs[..i] == fs && es[i..] == [];
  }
}
