/** Both directions of the cipher run one after the other, with the schedules the program computes. */
module AesRoundTrip {
  import opened Bytes
  import opened AesSpec
  import opened AesTables
  import opened AesKeys
  import opened AesBlock
  import opened AesCbc

  /** Key schedule, for either direction, in a context of its own. */
  method Schedule(t: Tables, key: seq<bv8>, decrypt: bool) returns (ctx: Context)
    requires t.Valid() && KeyOk(key)
    ensures fresh(ctx) && fresh(ctx.buf) && t.Valid()
    ensures Usable(ctx, if decrypt then InverseKeys(RoundKeys(key)) else RoundKeys(key))
  {
    hide KeysHeld, Scheduled, SBoxesHeld, TableHeld, XPower;
    ctx := new Context();
    if decrypt {
      var _ := SetKeyDec(t, ctx, key, 8 * |key|);
    } else {
      var _ := SetKeyEnc(t, ctx, key, 8 * |key|);
      ScheduleHeld(ctx.buf, key);
    }
  }

  /** A block encrypted and decrypted in place is the block it was, for every key of the three sizes. */
  method EcbThereAndBack(t: Tables, key: seq<bv8>, block: array<bv8>)
    requires t.Valid() && KeyOk(key) && block.Length == 16 && block !in {t.fsb, t.rsb}
    modifies block
    ensures block[..] == old(block[..])
  {
    hide KeysHeld, SBoxesHeld, TableHeld, XPower, Crypt, RoundKeys, InverseKeys;
    ghost var b := block[..];
    assert block[0..16] == b;
    var enc := Schedule(t, key, false);
    CryptEcb(t, enc, false, block, 0, block, 0, RoundKeys(key));
    assert block[0..16] == block[..] == Crypt(RoundKeys(key), false, b);
    var dec := Schedule(t, key, true);
    CryptEcb(t, dec, true, block, 0, block, 0, InverseKeys(RoundKeys(key)));
    DecryptInvertsEncrypt(key, b);
    assert block[..] == Crypt(InverseKeys(RoundKeys(key)), true, Crypt(RoundKeys(key), false, b));
  }

  /** An IV in memory of its own. */
  method CopyIv(iv: seq<bv8>) returns (a: array<bv8>)
    requires |iv| == 16
    ensures fresh(a) && a[..] == iv
  {
    a := new bv8[16](i requires 0 <= i < 16 => iv[i]);
  }

  /** The same for any number of blocks in CBC mode, under one IV. */
  method CbcThereAndBack(t: Tables, key: seq<bv8>, iv: seq<bv8>, data: array<bv8>) returns (ret: int)
    requires t.Valid() && KeyOk(key) && |iv| == 16 && data !in {t.fsb, t.rsb}
    modifies data
    ensures data[..] == old(data[..])
    ensures ret == if data.Length % 16 == 0 then 0 else INVALID_INPUT_LENGTH
  {
    hide KeysHeld, SBoxesHeld, TableHeld, XPower, Cbc, NextIv, RoundKeys, InverseKeys;
    ghost var x, n := data[..], data.Length;
    assert data[0..n] == x;
    var enc := Schedule(t, key, false);
    var v := CopyIv(iv);
    ret := CryptCbc(t, enc, false, data.Length, v, data, 0, data, 0, RoundKeys(key));
    if ret != 0 { return; }
    assert data[0..n] == data[..] == Cbc(RoundKeys(key), false, iv, x);
    var dec := Schedule(t, key, true);
    v := CopyIv(iv);
    ret := CryptCbc(t, dec, true, data.Length, v, data, 0, data, 0, InverseKeys(RoundKeys(key)));
    assert data[..] == Cbc(InverseKeys(RoundKeys(key)), true, iv, Cbc(RoundKeys(key), false, iv, x));
    CbcInverts(key, iv, x);
  }

  lemma CbcInverts(key: seq<bv8>, iv: seq<bv8>, x: seq<bv8>)
    requires KeyOk(key) && |iv| == 16 && |x| % 16 == 0
    ensures Cbc(InverseKeys(RoundKeys(key)), true, iv, Cbc(RoundKeys(key), false, iv, x)) == x
  {
    hide RoundKeys, InverseKeys, Encrypted, Decrypted;
    DecryptInverts(key, iv, x);
  }
}
