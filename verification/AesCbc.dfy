/** aes_crypt_cbc against section 6.2 of NIST SP 800-38A, in place or from one buffer to another. */
module AesCbc {
  import opened Bytes
  import opened AesSpec
  import opened AesTables
  import opened AesKeys
  import opened AesBlock

  const INVALID_INPUT_LENGTH: int := -0x0022

  function XorBlock(a: seq<bv8>, b: seq<bv8>): (r: seq<bv8>)
    requires |a| == |b| == 16
    ensures |r| == 16
  {
    seq(16, i requires 0 <= i < 16 => a[i] ^ b[i])
  }

  /** The block that is chained into the next one: the last block of `c`, or the IV. */
  function Chained(iv: seq<bv8>, c: seq<bv8>): (r: seq<bv8>)
    requires |iv| == 16 && |c| % 16 == 0
    ensures |r| == 16
  {
    if c == [] then iv else c[|c| - 16..]
  }

  /** Ciphertext block j is the encryption of plaintext block j XOR ciphertext block j - 1. */
  ghost function Encrypted(keys: seq<State>, iv: seq<bv8>, p: seq<bv8>): (c: seq<bv8>)
    requires |keys| >= 2 && |iv| == 16 && |p| % 16 == 0
    ensures |c| == |p|
  {
    if p == [] then []
    else
      var before := Encrypted(keys, iv, p[..|p| - 16]);
      before + Crypt(keys, false, XorBlock(p[|p| - 16..], Chained(iv, before)))
  }

  /** Plaintext block j is the decryption of ciphertext block j XOR ciphertext block j - 1. */
  ghost function Decrypted(keys: seq<State>, iv: seq<bv8>, c: seq<bv8>): (p: seq<bv8>)
    requires |keys| >= 2 && |iv| == 16 && |c| % 16 == 0
    ensures |p| == |c|
  {
    if c == [] then []
    else
      var before := c[..|c| - 16];
      Decrypted(keys, iv, before) + XorBlock(Crypt(keys, true, c[|c| - 16..]), Chained(iv, before))
  }

  lemma XorTwice(a: seq<bv8>, b: seq<bv8>)
    requires |a| == |b| == 16
    ensures XorBlock(XorBlock(a, b), b) == a
  {
    forall i | 0 <= i < 16 ensures (a[i] ^ b[i]) ^ b[i] == a[i] { XorBack(a[i], b[i]); }
  }

  lemma XorBack(a: bv8, b: bv8)
    ensures (a ^ b) ^ b == a
  {
  }

  /** Decryption undoes encryption for every key, IV and number of blocks. */
  lemma {:induction false} DecryptInverts(key: seq<bv8>, iv: seq<bv8>, p: seq<bv8>)
    requires KeyOk(key) && |iv| == 16 && |p| % 16 == 0
    ensures Decrypted(InverseKeys(RoundKeys(key)), iv, Encrypted(RoundKeys(key), iv, p)) == p
  {
    hide Crypt, XorBlock, RoundKeys, InverseKeys, Chained;
    if p != [] {
      var keys := RoundKeys(key);
      var q, last := p[..|p| - 16], p[|p| - 16..];
      var before := Encrypted(keys, iv, q);
      var mixed := XorBlock(last, Chained(iv, before));
      DecryptInverts(key, iv, q);
      DecryptInvertsEncrypt(key, mixed);
      XorTwice(last, Chained(iv, before));
      DecryptedAppend(InverseKeys(keys), iv, before, Crypt(keys, false, mixed));
      assert q + last == p;
    }
  }

  lemma DecryptedAppend(keys: seq<State>, iv: seq<bv8>, c: seq<bv8>, b: seq<bv8>)
    requires |keys| >= 2 && |iv| == |b| == 16 && |c| % 16 == 0
    ensures Decrypted(keys, iv, c + b) == Decrypted(keys, iv, c) + XorBlock(Crypt(keys, true, b), Chained(iv, c))
  {
    hide Crypt, XorBlock, Chained;
    assert (c + b)[..|c + b| - 16] == c && (c + b)[|c + b| - 16..] == b;
  }

  lemma EncryptedAppend(keys: seq<State>, iv: seq<bv8>, p: seq<bv8>, b: seq<bv8>)
    requires |keys| >= 2 && |iv| == |b| == 16 && |p| % 16 == 0
    ensures var c := Encrypted(keys, iv, p); Encrypted(keys, iv, p + b) == c + Crypt(keys, false, XorBlock(b, Chained(iv, c)))
  {
    hide Crypt, XorBlock, Chained;
    assert (p + b)[..|p + b| - 16] == p && (p + b)[|p + b| - 16..] == b;
  }

  /** Block `j` of a message. */
  function BlockAt<T>(x: seq<T>, j: nat): (b: seq<T>)
    requires 16 * (j + 1) <= |x|
    ensures |b| == 16
  {
    x[16 * j..16 * (j + 1)]
  }

  /** What is chained into block `j`: the IV, or the ciphertext block before. */
  function ChainedAt<T>(iv: seq<T>, c: seq<T>, j: nat): (r: seq<T>)
    requires |iv| == 16 && 16 * j <= |c|
    ensures |r| == 16
  {
    if j == 0 then iv else BlockAt(c, j - 1)
  }

  /** A message is its first blocks and its last. */
  lemma FrontAndLast<T>(x: seq<T>) returns (front: seq<T>, last: seq<T>)
    requires |x| > 0 && |x| % 16 == 0
    ensures |front| == |x| - 16 && |front| % 16 == 0 && |last| == 16 && front + last == x
  {
    front, last := x[..|x| - 16], x[|x| - 16..];
  }

  /** The blocks of a message that got one more. */
  lemma MoreBlocks<T>(iv: seq<T>, x: seq<T>, b: seq<T>, j: nat)
    requires |iv| == |b| == 16 && |x| % 16 == 0 && 16 * j <= |x|
    ensures BlockAt(x + b, j) == if 16 * j < |x| then BlockAt(x, j) else b
    ensures ChainedAt(iv, x + b, j) == ChainedAt(iv, x, j)
  {
  }

  lemma ChainedAtEnd(iv: seq<bv8>, x: seq<bv8>, j: nat)
    requires |iv| == 16 && |x| == 16 * j
    ensures ChainedAt(iv, x, j) == Chained(iv, x)
  {
  }

  /** The equations of section 6.2 of NIST SP 800-38A, block by block. */
  lemma {:induction false} EncryptedBlock(keys: seq<State>, iv: seq<bv8>, p: seq<bv8>, j: nat)
    requires |keys| >= 2 && |iv| == 16 && |p| % 16 == 0 && 16 * (j + 1) <= |p|
    ensures var c := Encrypted(keys, iv, p); BlockAt(c, j) == Crypt(keys, false, XorBlock(BlockAt(p, j), ChainedAt(iv, c, j)))
    decreases |p|
  {
    hide Encrypted, Crypt, XorBlock, Chained, BlockAt, ChainedAt;
    var front, last := FrontAndLast(p);
    EncryptedAppend(keys, iv, front, last);
    var c := Encrypted(keys, iv, front);
    MoreBlocks(iv, front, last, j);
    MoreBlocks(iv, c, Crypt(keys, false, XorBlock(last, Chained(iv, c))), j);
    if 16 * j < |front| { EncryptedBlock(keys, iv, front, j); } else { ChainedAtEnd(iv, c, j); }
  }

  lemma {:induction false} DecryptedBlock(keys: seq<State>, iv: seq<bv8>, c: seq<bv8>, j: nat)
    requires |keys| >= 2 && |iv| == 16 && |c| % 16 == 0 && 16 * (j + 1) <= |c|
    ensures BlockAt(Decrypted(keys, iv, c), j) == XorBlock(Crypt(keys, true, BlockAt(c, j)), ChainedAt(iv, c, j))
    decreases |c|
  {
    hide Decrypted, Crypt, XorBlock, Chained, BlockAt, ChainedAt;
    var front, last := FrontAndLast(c);
    DecryptedAppend(keys, iv, front, last);
    MoreBlocks(iv, front, last, j);
    MoreBlocks(iv, Decrypted(keys, iv, front), XorBlock(Crypt(keys, true, last), Chained(iv, front)), j);
    if 16 * j < |front| { DecryptedBlock(keys, iv, front, j); } else { ChainedAtEnd(iv, front, j); }
  }

  /** The bytes of a context that can be used: keys for at least two rounds, an even number of them. */
  ghost predicate Usable(ctx: Context, keys: seq<State>)
    reads ctx, ctx.buf
  {
    |keys| == ctx.nr + 1 && ctx.nr >= 2 && ctx.nr % 2 == 0 && KeysHeld(ctx.buf, keys, |keys|)
  }

  /** What is in the output after a call, for `x` the input. */
  ghost function Cbc(keys: seq<State>, decrypt: bool, iv: seq<bv8>, x: seq<bv8>): (r: seq<bv8>)
    requires |keys| >= 2 && |iv| == 16 && |x| % 16 == 0
    ensures |r| == |x|
  {
    if decrypt then Decrypted(keys, iv, x) else Encrypted(keys, iv, x)
  }

  /** What is in the IV after a call: the last ciphertext block. */
  ghost function NextIv(keys: seq<State>, decrypt: bool, iv: seq<bv8>, x: seq<bv8>): (r: seq<bv8>)
    requires |keys| >= 2 && |iv| == 16 && |x| % 16 == 0
    ensures |r| == 16
  {
    Chained(iv, if decrypt then x else Encrypted(keys, iv, x))
  }

  /** XOR of 16 bytes of `a` and `b` into `output`, byte by byte. */
  method XorInto(a: array<bv8>, ap: nat, b: array<bv8>, output: array<bv8>, op: nat)
    requires ap + 16 <= a.Length && b.Length == 16 && op + 16 <= output.Length && b != output
    requires a != output || ap == op
    modifies output
    ensures output[..] == old(output[..op]) + XorBlock(old(a[ap..ap + 16]), b[..]) + old(output[op + 16..])
  {
    ghost var p := a[ap..ap + 16];
    ghost var x := XorBlock(p, b[..]);
    for i := 0 to 16
      invariant b[..] == old(b[..])
      invariant forall k :: i <= k < 16 ==> a[ap + k] == p[k]
      invariant forall k :: op <= k < op + i ==> output[k] == x[k - op]
      invariant forall k :: 0 <= k < output.Length && !(op <= k < op + i) ==> output[k] == old(output[k])
    {
      assert a[ap + i] == p[i] && b[i] == b[..][i];
      output[op + i] := a[ap + i] ^ b[i];
      assert output[op + i] == x[i];
    }
    assert forall k :: 0 <= k < 16 ==> output[..][op + k] == x[k];
    XoredPieces(old(output[..]), output[..], op, x);
    assert old(output[..])[..op] == old(output[..op]) && old(output[..])[op + 16..] == old(output[op + 16..]);
  }

  lemma XoredPieces<T>(was: seq<T>, now: seq<T>, op: nat, x: seq<T>)
    requires |was| == |now| && |x| == 16 && op + 16 <= |was|
    requires forall k :: 0 <= k < 16 ==> now[op + k] == x[k]
    requires forall k :: 0 <= k < |was| && !(op <= k < op + 16) ==> now[k] == was[k]
    ensures now == was[..op] + x + was[op + 16..]
  {
    var s := was[..op] + x + was[op + 16..];
    forall k | 0 <= k < |now| ensures now[k] == s[k] {
      if op <= k < op + 16 { assert now[op + (k - op)] == x[k - op]; }
    }
  }

  method Copy16(src: array<bv8>, sp: nat, dst: array<bv8>)
    requires sp + 16 <= src.Length && dst.Length == 16 && src != dst
    modifies dst
    ensures dst[..] == src[sp..sp + 16]
  {
    for i := 0 to 16
      invariant dst[..i] == src[sp..sp + i]
    {
      dst[i] := src[sp + i];
    }
  }

  /** What one block becomes, given the block chained into it. */
  ghost function Block(keys: seq<State>, decrypt: bool, iv: seq<bv8>, x: seq<bv8>): (r: seq<bv8>)
    requires |keys| >= 2 && |iv| == |x| == 16
    ensures |r| == 16
  {
    if decrypt then XorBlock(Crypt(keys, true, x), iv) else Crypt(keys, false, XorBlock(x, iv))
  }

  /** One more block at the end. */
  lemma OneMoreBlock(keys: seq<State>, decrypt: bool, iv: seq<bv8>, x: seq<bv8>, b: seq<bv8>)
    requires |keys| >= 2 && |iv| == |b| == 16 && |x| % 16 == 0
    ensures Cbc(keys, decrypt, iv, x + b) == Cbc(keys, decrypt, iv, x) + Block(keys, decrypt, NextIv(keys, decrypt, iv, x), b)
    ensures NextIv(keys, decrypt, iv, x + b) == if decrypt then b else Block(keys, decrypt, NextIv(keys, decrypt, iv, x), b)
  {
    hide Crypt, XorBlock;
    var y := x + b;
    assert y[..|y| - 16] == x && y[|y| - 16..] == b;
  }

  method DecryptBlock(t: Tables, ctx: Context, iv: array<bv8>, input: array<bv8>, ip: nat,
                      output: array<bv8>, op: nat, temp: array<bv8>, ghost keys: seq<State>)
    requires t.Valid() && Usable(ctx, keys) && iv.Length == temp.Length == 16
    requires ip + 16 <= input.Length && op + 16 <= output.Length && (input != output || ip == op)
    requires iv !in {input, output, temp, t.fsb, t.rsb} && output !in {temp, t.fsb, t.rsb} && temp !in {input, t.fsb, t.rsb}
    modifies output, iv, temp
    ensures var x, v := old(input[ip..ip + 16]), old(iv[..]);
      && output[..] == old(output[..op]) + XorBlock(Crypt(keys, true, x), v) + old(output[op + 16..])
      && iv[..] == x
  {
    hide Crypt, XorBlock, KeysHeld, SBoxesHeld, TableHeld, XPower;
    ghost var x, was := input[ip..ip + 16], output[..];
    Copy16(input, ip, temp);
    CryptEcb(t, ctx, true, input, ip, output, op, keys);
    MiddlePiece(was[..op], Crypt(keys, true, x), was[op + 16..], output[..]);
    XorInto(output, op, iv, output, op);
    Copy16(temp, 0, iv);
  }

  method EncryptBlock(t: Tables, ctx: Context, iv: array<bv8>, input: array<bv8>, ip: nat,
                      output: array<bv8>, op: nat, ghost keys: seq<State>)
    requires t.Valid() && Usable(ctx, keys) && iv.Length == 16
    requires ip + 16 <= input.Length && op + 16 <= output.Length && (input != output || ip == op)
    requires iv !in {input, output, t.fsb, t.rsb} && output !in {t.fsb, t.rsb}
    modifies output, iv
    ensures var x, v := old(input[ip..ip + 16]), old(iv[..]);
      var b := Crypt(keys, false, XorBlock(x, v));
      && output[..] == old(output[..op]) + b + old(output[op + 16..])
      && iv[..] == b
  {
    hide Crypt, XorBlock, KeysHeld, SBoxesHeld, TableHeld, XPower;
    ghost var x, v, was := input[ip..ip + 16], iv[..], output[..];
    XorInto(input, ip, iv, output, op);
    MiddlePiece(was[..op], XorBlock(x, v), was[op + 16..], output[..]);
    CryptEcb(t, ctx, false, output, op, output, op, keys);
    MiddlePiece(was[..op], Crypt(keys, false, XorBlock(x, v)), was[op + 16..], output[..]);
    Copy16(output, op, iv);
  }

  /** The pieces that a buffer was put together from. */
  lemma MiddlePiece(a: seq<bv8>, b: seq<bv8>, z: seq<bv8>, s: seq<bv8>)
    requires s == a + b + z
    ensures s[..|a|] == a && s[|a|..|a| + |b|] == b && s[|a| + |b|..] == z
  {
  }

  method CryptBlock(t: Tables, ctx: Context, decrypt: bool, iv: array<bv8>, input: array<bv8>, ip: nat,
                    output: array<bv8>, op: nat, temp: array<bv8>, ghost keys: seq<State>)
    requires t.Valid() && Usable(ctx, keys) && iv.Length == temp.Length == 16
    requires ip + 16 <= input.Length && op + 16 <= output.Length && (input != output || ip == op)
    requires iv !in {input, output, temp, t.fsb, t.rsb} && output !in {temp, t.fsb, t.rsb} && temp !in {input, t.fsb, t.rsb}
    modifies output, iv, temp
    ensures var x, v := old(input[ip..ip + 16]), old(iv[..]);
      && output[..] == old(output[..op]) + Block(keys, decrypt, v, x) + old(output[op + 16..])
      && iv[..] == if decrypt then x else Block(keys, decrypt, v, x)
  {
    hide Crypt, XorBlock, KeysHeld, SBoxesHeld, TableHeld, XPower;
    if decrypt {
      DecryptBlock(t, ctx, iv, input, ip, output, op, temp, keys);
    } else {
      EncryptBlock(t, ctx, iv, input, ip, output, op, keys);
    }
  }

  /** One pass of the loop, after `d` bytes. */
  method NextBlock(t: Tables, ctx: Context, decrypt: bool, iv: array<bv8>, input: array<bv8>, ip: nat, output: array<bv8>, op: nat,
                   temp: array<bv8>, d: nat, ghost keys: seq<State>, ghost v: seq<bv8>, ghost x: seq<bv8>, ghost was: seq<bv8>)
    requires t.Valid() && Usable(ctx, keys) && iv.Length == temp.Length == 16 && |v| == 16
    requires d + 16 <= |x| && ip + |x| <= input.Length && op + |x| <= output.Length && (input != output || ip == op)
    requires iv !in {input, output, temp, t.fsb, t.rsb} && output !in {temp, t.fsb, t.rsb} && temp !in {input, t.fsb, t.rsb}
    requires Progress(keys, decrypt, v, x, was, op, d, output[..], iv[..])
    requires if input == output then x == was[ip..ip + |x|] else input[ip..ip + |x|] == x
    modifies output, iv, temp
    ensures Progress(keys, decrypt, v, x, was, op, d + 16, output[..], iv[..])
  {
    hide Block, KeysHeld, SBoxesHeld, TableHeld, XPower, NextIv, Cbc, Progress;
    ghost var now, chain := output[..], iv[..];
    assert input != output ==> input[ip..ip + |x|] == input[..][ip..ip + |x|];
    StillThere(keys, decrypt, v, x, was, op, d, now, chain, input[..], ip, input == output);
    assert input[ip + d..ip + d + 16] == input[..][ip + d..ip + d + 16];
    CryptBlock(t, ctx, decrypt, iv, input, ip + d, output, op + d, temp, keys);
    ProgressMore(keys, decrypt, v, x, was, op, d, now, chain, output[..], iv[..]);
  }

  /**
   aes_crypt_cbc: a length that is not a multiple of 16 is refused and changes nothing; otherwise the
   output is the CBC form of the input and the IV is left ready for the next call.
   */
  method CryptCbc(t: Tables, ctx: Context, decrypt: bool, length: nat, iv: array<bv8>, input: array<bv8>, ip: nat,
                  output: array<bv8>, op: nat, ghost keys: seq<State>) returns (ret: int)
    requires t.Valid() && Usable(ctx, keys) && iv.Length == 16
    requires ip + length <= input.Length && op + length <= output.Length && (input != output || ip == op)
    requires iv !in {input, output, t.fsb, t.rsb} && output !in {t.fsb, t.rsb}
    modifies output, iv
    ensures length % 16 != 0 ==> ret == INVALID_INPUT_LENGTH && output[..] == old(output[..]) && iv[..] == old(iv[..])
    ensures length % 16 == 0 ==>
      var x, v := old(input[ip..ip + length]), old(iv[..]);
      && ret == 0
      && output[..] == old(output[..op]) + Cbc(keys, decrypt, v, x) + old(output[op + length..])
      && iv[..] == NextIv(keys, decrypt, v, x)
  {
    hide Block, KeysHeld, SBoxesHeld, TableHeld, XPower, NextIv, Cbc, Progress, Encrypted, Decrypted, Chained;
    if length % 16 != 0 { return INVALID_INPUT_LENGTH; }
    var temp := new bv8[16];
    ghost var x, v, was := input[ip..ip + length], iv[..], output[..];
    var d := 0;
    NothingYet(keys, decrypt, v, x, was, op);
    while d < length
      invariant d % 16 == 0 && 0 <= d <= length
      invariant Progress(keys, decrypt, v, x, was, op, d, output[..], iv[..])
      invariant input != output ==> input[..] == old(input[..])
    {
      NextBlock(t, ctx, decrypt, iv, input, ip, output, op, temp, d, keys, v, x, was);
      d := d + 16;
    }
    AllDone(keys, decrypt, v, x, was, op, output[..], iv[..]);
    ret := 0;
  }

  /** The first `d` bytes of the input are done: the output, and the IV that is left. */
  ghost predicate Progress(keys: seq<State>, decrypt: bool, v: seq<bv8>, x: seq<bv8>, was: seq<bv8>, op: nat, d: nat,
                           now: seq<bv8>, chain: seq<bv8>)
    requires |keys| >= 2 && |v| == 16
  {
    && d % 16 == 0 && d <= |x| && op + |x| <= |was|
    && now == was[..op] + Cbc(keys, decrypt, v, x[..d]) + was[op + d..]
    && chain == NextIv(keys, decrypt, v, x[..d])
  }

  lemma NothingYet(keys: seq<State>, decrypt: bool, v: seq<bv8>, x: seq<bv8>, was: seq<bv8>, op: nat)
    requires |keys| >= 2 && |v| == 16 && op + |x| <= |was|
    ensures Progress(keys, decrypt, v, x, was, op, 0, was, v)
  {
    hide Crypt, XorBlock;
    assert x[..0] == [];
  }

  lemma ProgressMore(keys: seq<State>, decrypt: bool, v: seq<bv8>, x: seq<bv8>, was: seq<bv8>, op: nat, d: nat,
                     now: seq<bv8>, chain: seq<bv8>, next: seq<bv8>, nextChain: seq<bv8>)
    requires |keys| >= 2 && |v| == 16 && Progress(keys, decrypt, v, x, was, op, d, now, chain) && d + 16 <= |x|
    requires |chain| == 16 && op + d + 16 <= |now|
    requires var b := Block(keys, decrypt, chain, x[d..d + 16]);
      next == now[..op + d] + b + now[op + d + 16..] && nextChain == if decrypt then x[d..d + 16] else b
    ensures Progress(keys, decrypt, v, x, was, op, d + 16, next, nextChain)
  {
    hide Block, Cbc, NextIv;
    OneMoreBlock(keys, decrypt, v, x[..d], x[d..d + 16]);
    assert x[..d + 16] == x[..d] + x[d..d + 16];
    assert now[..op + d] == was[..op] + Cbc(keys, decrypt, v, x[..d]);
    assert now[op + d + 16..] == was[op + d + 16..];
  }

  lemma AllDone(keys: seq<State>, decrypt: bool, v: seq<bv8>, x: seq<bv8>, was: seq<bv8>, op: nat, now: seq<bv8>, chain: seq<bv8>)
    requires |keys| >= 2 && |v| == 16 && |x| % 16 == 0 && Progress(keys, decrypt, v, x, was, op, |x|, now, chain)
    ensures now == was[..op] + Cbc(keys, decrypt, v, x) + was[op + |x|..] && chain == NextIv(keys, decrypt, v, x)
  {
    hide Cbc, NextIv;
    assert x[..|x|] == x;
  }

  /** The input not yet read is unchanged, also when the output overwrites what was read. */
  lemma StillThere(keys: seq<State>, decrypt: bool, v: seq<bv8>, x: seq<bv8>, was: seq<bv8>, op: nat, d: nat,
                   now: seq<bv8>, chain: seq<bv8>, input: seq<bv8>, ip: nat, same: bool)
    requires |keys| >= 2 && |v| == 16 && Progress(keys, decrypt, v, x, was, op, d, now, chain) && d + 16 <= |x|
    requires ip + |x| <= |input|
    requires if same then op == ip && input == now && x == was[ip..ip + |x|] else input[ip..ip + |x|] == x
    ensures input[ip + d..ip + d + 16] == x[d..d + 16]
  {
    hide Cbc, NextIv;
    if same {
      NextPiece(now, was[..op] + Cbc(keys, decrypt, v, x[..d]), was, op + d, 16);
      SliceOfSlice(was, ip, ip + |x|, d, d + 16);
    } else {
      SliceOfSlice(input, ip, ip + |x|, d, d + 16);
    }
  }
}
