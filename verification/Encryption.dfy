/** `encrypt_stream` and `decrypt_stream` over an arbitrary block permutation: cipher block
    chaining (section 6.2 of NIST SP 800-38A), padding (section 6.3 of RFC 5652), and the read
    loops that work chunk by chunk. Base64 and the source of randomness are left out: keys and
    initial vectors are parameters. */
module Encryption {

  type Byte = bv8
  type Bytes = seq<Byte>

  const BLOCK := 16

  /** A family of block permutations, one for each key. */
  datatype Cipher = Cipher(enc: (Bytes, Bytes) -> Bytes, dec: (Bytes, Bytes) -> Bytes) {
    ghost predicate Valid() {
      forall key, b :: |b| == BLOCK ==>
        |enc(key, b)| == BLOCK && |dec(key, b)| == BLOCK && dec(key, enc(key, b)) == b
    }
  }

  // ---------------------------------------------------------------------------
  // Padding

  function Repeat(n: nat, b: Byte): (r: Bytes)
    ensures |r| == n && forall i :: 0 <= i < n ==> r[i] == b
  {
    seq(n, i => b)
  }

  function Pad(v: Bytes): Bytes {
    var k := BLOCK - |v| % BLOCK;
    v + Repeat(k, k as bv8)
  }

  /** The Python slice `v[0:-k]`. */
  function DropLast(v: Bytes, k: nat): Bytes {
    if k == 0 || k >= |v| then [] else v[..|v| - k]
  }

  function Unpad(v: Bytes): Bytes
    requires v != []
  {
    DropLast(v, v[|v| - 1] as nat)
  }

  lemma PadMeans(v: Bytes)
    ensures var p := Pad(v);
            && |p| == BLOCK * (|v| / BLOCK + 1) && p[..|v|] == v
            && 1 <= p[|p| - 1] as nat <= BLOCK && |p| - p[|p| - 1] as nat == |v|
            && forall i :: |v| <= i < |p| ==> p[i] == p[|p| - 1]
  {
    var k := BLOCK - |v| % BLOCK;
    assert 1 <= k <= BLOCK;
    assert (k as bv8) as nat == k;
  }

  /** Padding is undone for every input, the empty one included. */
  lemma UnpadPad(v: Bytes)
    ensures Unpad(Pad(v)) == v
  {
    PadMeans(v);
  }

  // ---------------------------------------------------------------------------
  // Chaining

  function Xor(a: Bytes, b: Bytes): (r: Bytes)
    requires |a| == |b|
    ensures |r| == |a|
  {
    seq(|a|, i requires 0 <= i < |a| => a[i] ^ b[i])
  }

  lemma XorCancels(a: Bytes, b: Bytes)
    requires |a| == |b|
    ensures Xor(a, Xor(a, b)) == b
  {
    forall i | 0 <= i < |a| ensures Xor(a, Xor(a, b))[i] == b[i] {
      assert a[i] ^ (a[i] ^ b[i]) == b[i];
    }
  }

  predicate Whole(data: Bytes) { |data| % BLOCK == 0 }

  ghost function CbcEncrypt(c: Cipher, key: Bytes, prev: Bytes, data: Bytes): (r: Bytes)
    requires c.Valid() && |prev| == BLOCK && Whole(data)
    ensures |r| == |data|
    decreases |data|
  {
    if data == [] then []
    else
      var block := c.enc(key, Xor(prev, data[..BLOCK]));
      block + CbcEncrypt(c, key, block, data[BLOCK..])
  }

  ghost function CbcDecrypt(c: Cipher, key: Bytes, prev: Bytes, data: Bytes): (r: Bytes)
    requires c.Valid() && |prev| == BLOCK && Whole(data)
    ensures |r| == |data|
    decreases |data|
  {
    if data == [] then []
    else Xor(prev, c.dec(key, data[..BLOCK])) + CbcDecrypt(c, key, data[..BLOCK], data[BLOCK..])
  }

  /** The block the next one is chained to. */
  function LastBlock(prev: Bytes, data: Bytes): Bytes
    requires Whole(data)
  {
    if data == [] then prev else data[|data| - BLOCK..]
  }

  lemma {:induction false} CbcInverse(c: Cipher, key: Bytes, prev: Bytes, data: Bytes)
    requires c.Valid() && |prev| == BLOCK && Whole(data)
    ensures CbcDecrypt(c, key, prev, CbcEncrypt(c, key, prev, data)) == data
    decreases |data|
  {
    if data != [] {
      var first := data[..BLOCK];
      var block := c.enc(key, Xor(prev, first));
      var rest := CbcEncrypt(c, key, block, data[BLOCK..]);
      assert (block + rest)[..BLOCK] == block && (block + rest)[BLOCK..] == rest;
      XorCancels(prev, first);
      CbcInverse(c, key, block, data[BLOCK..]);
    }
  }

  lemma Front(a: Bytes, b: Bytes)
    requires |a| >= BLOCK
    ensures (a + b)[..BLOCK] == a[..BLOCK] && (a + b)[BLOCK..] == a[BLOCK..] + b
  {
  }

  lemma Associative(a: Bytes, b: Bytes, c: Bytes)
    ensures a + (b + c) == (a + b) + c
  {
  }

  lemma LastOfRest(prev: Bytes, block: Bytes, rest: Bytes)
    requires |block| == BLOCK && Whole(rest)
    ensures LastBlock(prev, block + rest) == LastBlock(block, rest)
  {
  }

  lemma {:induction false} CbcEncryptConcat(c: Cipher, key: Bytes, prev: Bytes, a: Bytes, b: Bytes)
    requires c.Valid() && |prev| == BLOCK && Whole(a) && Whole(b)
    ensures Whole(a + b) && |LastBlock(prev, CbcEncrypt(c, key, prev, a))| == BLOCK
    ensures CbcEncrypt(c, key, prev, a + b)
            == CbcEncrypt(c, key, prev, a) + CbcEncrypt(c, key, LastBlock(prev, CbcEncrypt(c, key, prev, a)), b)
    decreases |a|
  {
    if a == [] {
      assert a + b == b;
    } else {
      var block := c.enc(key, Xor(prev, a[..BLOCK]));
      var rest := CbcEncrypt(c, key, block, a[BLOCK..]);
      Front(a, b);
      CbcEncryptConcat(c, key, block, a[BLOCK..], b);
      LastOfRest(prev, block, rest);
      Associative(block, rest, CbcEncrypt(c, key, LastBlock(block, rest), b));
    }
  }

  lemma {:induction false} CbcDecryptConcat(c: Cipher, key: Bytes, prev: Bytes, a: Bytes, b: Bytes)
    requires c.Valid() && |prev| == BLOCK && Whole(a) && Whole(b)
    ensures Whole(a + b) && |LastBlock(prev, a)| == BLOCK
    ensures CbcDecrypt(c, key, prev, a + b) == CbcDecrypt(c, key, prev, a) + CbcDecrypt(c, key, LastBlock(prev, a), b)
    decreases |a|
  {
    if a == [] {
      assert a + b == b;
    } else {
      var block, rest := a[..BLOCK], a[BLOCK..];
      assert a == block + rest;
      Front(a, b);
      CbcDecryptConcat(c, key, block, rest, b);
      LastOfRest(prev, block, rest);
      Associative(Xor(prev, c.dec(key, block)), CbcDecrypt(c, key, block, rest),
                  CbcDecrypt(c, key, LastBlock(block, rest), b));
    }
  }

  /** One more block. */
  lemma EncryptBlock(c: Cipher, key: Bytes, iv: Bytes, done: Bytes, first: Bytes)
    requires c.Valid() && |iv| == BLOCK && Whole(done) && |first| == BLOCK
    ensures var out := CbcEncrypt(c, key, iv, done);
            && |LastBlock(iv, out)| == BLOCK && Whole(done + first)
            && var block := c.enc(key, Xor(LastBlock(iv, out), first));
               && CbcEncrypt(c, key, iv, done + first) == out + block
               && LastBlock(iv, out + block) == block
  {
    CbcEncryptConcat(c, key, iv, done, first);
    assert first[..BLOCK] == first && first[BLOCK..] == [];
  }

  lemma DecryptBlock(c: Cipher, key: Bytes, iv: Bytes, done: Bytes, first: Bytes)
    requires c.Valid() && |iv| == BLOCK && Whole(done) && |first| == BLOCK
    ensures && |LastBlock(iv, done)| == BLOCK && Whole(done + first)
            && CbcDecrypt(c, key, iv, done + first)
               == CbcDecrypt(c, key, iv, done) + Xor(LastBlock(iv, done), c.dec(key, first))
            && LastBlock(iv, done + first) == first
  {
    CbcDecryptConcat(c, key, iv, done, first);
    assert first[..BLOCK] == first && first[BLOCK..] == [];
  }

  // ---------------------------------------------------------------------------
  // The wrapped file key: each block on its own

  ghost function EcbEncrypt(c: Cipher, key: Bytes, data: Bytes): (r: Bytes)
    requires c.Valid() && Whole(data)
    ensures |r| == |data|
    decreases |data|
  {
    if data == [] then [] else c.enc(key, data[..BLOCK]) + EcbEncrypt(c, key, data[BLOCK..])
  }

  ghost function EcbDecrypt(c: Cipher, key: Bytes, data: Bytes): (r: Bytes)
    requires c.Valid() && Whole(data)
    ensures |r| == |data|
    decreases |data|
  {
    if data == [] then [] else c.dec(key, data[..BLOCK]) + EcbDecrypt(c, key, data[BLOCK..])
  }

  lemma {:induction false} EcbInverse(c: Cipher, key: Bytes, data: Bytes)
    requires c.Valid() && Whole(data)
    ensures EcbDecrypt(c, key, EcbEncrypt(c, key, data)) == data
    decreases |data|
  {
    if data != [] {
      var block, rest := c.enc(key, data[..BLOCK]), EcbEncrypt(c, key, data[BLOCK..]);
      assert (block + rest)[..BLOCK] == block && (block + rest)[BLOCK..] == rest;
      EcbInverse(c, key, data[BLOCK..]);
    }
  }

  // ---------------------------------------------------------------------------
  // The two modes block by block

  /** Block j of some whole blocks. */
  function Block(data: Bytes, j: nat): (r: Bytes)
    requires BLOCK * (j + 1) <= |data|
    ensures |r| == BLOCK
  {
    data[BLOCK * j..BLOCK * (j + 1)]
  }

  /** What block j is chained to: the cipher block before it, and the initial vector first of all. */
  function ChainedTo(iv: Bytes, text: Bytes, j: nat): Bytes
    requires BLOCK * j <= |text|
  {
    if j == 0 then iv else Block(text, j - 1)
  }

  /** Cipher block j is the encryption of a block that differs from the plain one by what it is chained to. */
  ghost predicate ChainedBlock(c: Cipher, key: Bytes, iv: Bytes, plain: Bytes, text: Bytes, j: nat) {
    && |iv| == BLOCK && |text| == |plain| && BLOCK * (j + 1) <= |plain|
    && exists x: Bytes :: |x| == BLOCK && Block(text, j) == c.enc(key, x) &&
         forall i :: 0 <= i < BLOCK ==> x[i] == ChainedTo(iv, text, j)[i] ^ Block(plain, j)[i]
  }

  /** Plain block j is the decryption of the cipher block, changed by what that is chained to. */
  ghost predicate UnchainedBlock(c: Cipher, key: Bytes, iv: Bytes, text: Bytes, plain: Bytes, j: nat) {
    && |iv| == BLOCK && |text| == |plain| && BLOCK * (j + 1) <= |plain| && |c.dec(key, Block(text, j))| == BLOCK
    && forall i :: 0 <= i < BLOCK ==>
         Block(plain, j)[i] == ChainedTo(iv, text, j)[i] ^ c.dec(key, Block(text, j))[i]
  }

  lemma SliceOfRest(data: Bytes, n: nat, a: nat, b: nat)
    requires a <= b && n + b <= |data|
    ensures data[n..][a..b] == data[n + a..n + b]
  {
  }

  lemma BlockOfRest(data: Bytes, j: nat)
    requires j > 0 && BLOCK * (j + 1) <= |data|
    ensures Block(data, j) == Block(data[BLOCK..], j - 1)
  {
    SliceOfRest(data, BLOCK, BLOCK * (j - 1), BLOCK * j);
  }

  /** The blocks up to number j: those before it, and it. */
  lemma UpToBlock(data: Bytes, j: nat)
    requires Whole(data) && BLOCK * (j + 1) <= |data|
    ensures var n := BLOCK * (j + 1);
            && data == data[..n] + data[n..] && data[..n] == data[..BLOCK * j] + Block(data, j)
            && Whole(data[..n]) && Whole(data[n..]) && Whole(data[..BLOCK * j])
  {
  }

  /** A block at the end of a prefix, and the one before it. */
  lemma BlockAtEnd(text: Bytes, before: Bytes, block: Bytes, rest: Bytes, j: nat, iv: Bytes)
    requires text == (before + block) + rest && |before| == BLOCK * j && |block| == BLOCK
    ensures Block(text, j) == block && ChainedTo(iv, text, j) == LastBlock(iv, before)
  {
    if j > 0 {
      assert text[BLOCK * (j - 1)..BLOCK * j] == before[BLOCK * (j - 1)..];
    }
  }

  lemma XorMeans(a: Bytes, b: Bytes)
    requires |a| == |b|
    ensures forall i :: 0 <= i < |a| ==> Xor(a, b)[i] == a[i] ^ b[i]
  {
  }

  /** Cipher block chaining, block by block. */
  lemma CbcEncryptsBlocks(c: Cipher, key: Bytes, iv: Bytes, data: Bytes, j: nat)
    requires c.Valid() && |iv| == BLOCK && Whole(data) && BLOCK * (j + 1) <= |data|
    ensures ChainedBlock(c, key, iv, data, CbcEncrypt(c, key, iv, data), j)
  {
    var n, text := BLOCK * (j + 1), CbcEncrypt(c, key, iv, data);
    var done, first := data[..BLOCK * j], Block(data, j);
    UpToBlock(data, j);
    var rest := EncryptedTail(c, key, iv, data[..n], data[n..]);
    EncryptBlock(c, key, iv, done, first);
    var out := CbcEncrypt(c, key, iv, done);
    var x := Xor(LastBlock(iv, out), first);
    BlockAtEnd(text, out, c.enc(key, x), rest, j, iv);
    XorMeans(LastBlock(iv, out), first);
  }

  lemma EncryptedTail(c: Cipher, key: Bytes, iv: Bytes, a: Bytes, b: Bytes) returns (rest: Bytes)
    requires c.Valid() && |iv| == BLOCK && Whole(a) && Whole(b)
    ensures Whole(a + b) && CbcEncrypt(c, key, iv, a + b) == CbcEncrypt(c, key, iv, a) + rest
  {
    CbcEncryptConcat(c, key, iv, a, b);
    rest := CbcEncrypt(c, key, LastBlock(iv, CbcEncrypt(c, key, iv, a)), b);
  }

  lemma DecryptedTail(c: Cipher, key: Bytes, iv: Bytes, a: Bytes, b: Bytes) returns (rest: Bytes)
    requires c.Valid() && |iv| == BLOCK && Whole(a) && Whole(b)
    ensures Whole(a + b) && CbcDecrypt(c, key, iv, a + b) == CbcDecrypt(c, key, iv, a) + rest
  {
    CbcDecryptConcat(c, key, iv, a, b);
    rest := CbcDecrypt(c, key, LastBlock(iv, a), b);
  }

  lemma CbcDecryptsBlocks(c: Cipher, key: Bytes, iv: Bytes, data: Bytes, j: nat)
    requires c.Valid() && |iv| == BLOCK && Whole(data) && BLOCK * (j + 1) <= |data|
    ensures UnchainedBlock(c, key, iv, data, CbcDecrypt(c, key, iv, data), j)
  {
    var n, plain := BLOCK * (j + 1), CbcDecrypt(c, key, iv, data);
    var done, first := data[..BLOCK * j], Block(data, j);
    UpToBlock(data, j);
    var rest := DecryptedTail(c, key, iv, data[..n], data[n..]);
    DecryptBlock(c, key, iv, done, first);
    BlockAtEnd(data, done, first, data[n..], j, iv);
    BlockAtEnd(plain, CbcDecrypt(c, key, iv, done), Xor(LastBlock(iv, done), c.dec(key, first)), rest, j, iv);
    XorMeans(LastBlock(iv, done), c.dec(key, first));
  }

  /** The wrapped key: every block on its own. */
  lemma {:induction false} EcbEncryptsBlocks(c: Cipher, key: Bytes, data: Bytes, j: nat)
    requires c.Valid() && Whole(data) && BLOCK * (j + 1) <= |data|
    ensures Block(EcbEncrypt(c, key, data), j) == c.enc(key, Block(data, j))
    decreases j
  {
    var text := EcbEncrypt(c, key, data);
    assert text[..BLOCK] == c.enc(key, data[..BLOCK]) && text[BLOCK..] == EcbEncrypt(c, key, data[BLOCK..]);
    if j == 0 {
      assert Block(text, 0) == text[..BLOCK] && Block(data, 0) == data[..BLOCK];
    } else {
      EcbEncryptsBlocks(c, key, data[BLOCK..], j - 1);
      BlockOfRest(text, j);
      BlockOfRest(data, j);
    }
  }

  lemma {:induction false} EcbDecryptsBlocks(c: Cipher, key: Bytes, data: Bytes, j: nat)
    requires c.Valid() && Whole(data) && BLOCK * (j + 1) <= |data|
    ensures Block(EcbDecrypt(c, key, data), j) == c.dec(key, Block(data, j))
    decreases j
  {
    var plain := EcbDecrypt(c, key, data);
    assert plain[..BLOCK] == c.dec(key, data[..BLOCK]) && plain[BLOCK..] == EcbDecrypt(c, key, data[BLOCK..]);
    if j == 0 {
      assert Block(plain, 0) == plain[..BLOCK] && Block(data, 0) == data[..BLOCK];
    } else {
      EcbDecryptsBlocks(c, key, data[BLOCK..], j - 1);
      BlockOfRest(plain, j);
      BlockOfRest(data, j);
    }
  }

  // ---------------------------------------------------------------------------
  // The cipher contexts: whole blocks come out, the remainder waits

  lemma MoveBlock(all: Bytes, done: Bytes, pending: Bytes)
    requires all == done + pending && |pending| >= BLOCK && Whole(done)
    ensures all == (done + pending[..BLOCK]) + pending[BLOCK..] && Whole(done + pending[..BLOCK])
  {
  }

  lemma AllMoved(all: Bytes, done: Bytes, pending: Bytes)
    requires all == done + pending && |pending| < BLOCK && Whole(done)
    ensures var n := BLOCK * (|all| / BLOCK); all[..n] == done && all[n..] == pending
  {
  }

  class Encryptor {
    const cipher: Cipher
    const key: Bytes
    var prev: Bytes
    var pending: Bytes

    constructor (cipher: Cipher, key: Bytes, iv: Bytes)
      ensures this.cipher == cipher && this.key == key && prev == iv && pending == []
    {
      this.cipher, this.key, this.prev, this.pending := cipher, key, iv, [];
    }

    method Update(data: Bytes) returns (out: Bytes)
      requires cipher.Valid() && |prev| == BLOCK && |pending| < BLOCK
      modifies this
      ensures var all := old(pending) + data;
              var n := BLOCK * (|all| / BLOCK);
              && out == CbcEncrypt(cipher, key, old(prev), all[..n])
              && prev == LastBlock(old(prev), out) && |prev| == BLOCK && pending == all[n..] && |pending| < BLOCK
    {
      pending := pending + data;
      ghost var all := pending;
      ghost var done: Bytes := [];
      out := [];
      while |pending| >= BLOCK
        invariant |prev| == BLOCK && Whole(done) && all == done + pending
        invariant out == CbcEncrypt(cipher, key, old(prev), done) && prev == LastBlock(old(prev), out)
      {
        var first := pending[..BLOCK];
        EncryptBlock(cipher, key, old(prev), done, first);
        MoveBlock(all, done, pending);
        var block := cipher.enc(key, Xor(prev, first));
        out := out + block;
        prev := block;
        done := done + first;
        pending := pending[BLOCK..];
      }
      AllMoved(all, done, pending);
    }
  }

  class Decryptor {
    const cipher: Cipher
    const key: Bytes
    var prev: Bytes
    var pending: Bytes

    constructor (cipher: Cipher, key: Bytes, iv: Bytes)
      ensures this.cipher == cipher && this.key == key && prev == iv && pending == []
    {
      this.cipher, this.key, this.prev, this.pending := cipher, key, iv, [];
    }

    method Update(data: Bytes) returns (out: Bytes)
      requires cipher.Valid() && |prev| == BLOCK && |pending| < BLOCK
      modifies this
      ensures var all := old(pending) + data;
              var n := BLOCK * (|all| / BLOCK);
              && out == CbcDecrypt(cipher, key, old(prev), all[..n])
              && prev == LastBlock(old(prev), all[..n]) && |prev| == BLOCK && pending == all[n..] && |pending| < BLOCK
    {
      pending := pending + data;
      ghost var all := pending;
      ghost var done: Bytes := [];
      out := [];
      while |pending| >= BLOCK
        invariant |prev| == BLOCK && Whole(done) && all == done + pending
        invariant out == CbcDecrypt(cipher, key, old(prev), done) && prev == LastBlock(old(prev), done)
      {
        var first := pending[..BLOCK];
        DecryptBlock(cipher, key, old(prev), done, first);
        MoveBlock(all, done, pending);
        out := out + Xor(prev, cipher.dec(key, first));
        prev := first;
        done := done + first;
        pending := pending[BLOCK..];
      }
      AllMoved(all, done, pending);
    }
  }
}
