/** The read loops of `encrypt_stream` and `decrypt_stream`. */
module EncryptionStreams {
  import opened Options
  import opened Encryption

  /** One read of at most `size` bytes at position `pos`. */
  function Read(src: Bytes, pos: nat, size: nat): (chunk: Bytes)
    requires pos <= |src|
    ensures |chunk| <= size && pos + |chunk| <= |src| && chunk == src[pos..pos + |chunk|]
    ensures chunk == [] <==> size == 0 || pos == |src|
  {
    if pos + size <= |src| then src[pos..pos + size] else src[pos..]
  }

  function PadIfRagged(chunk: Bytes): (r: Bytes)
    ensures Whole(r)
  {
    if |chunk| % BLOCK != 0 then PadMeans(chunk); Pad(chunk) else chunk
  }

  /** The bytes the loop feeds to the encryptor for what is left of the input: every ragged chunk
      is padded, and a block of padding closes the stream if none was. */
  function Frames(src: Bytes, size: nat, padded: bool): (r: Bytes)
    requires size > 0
    ensures Whole(r)
    decreases |src|
  {
    if src == [] then if padded then [] else Repeat(BLOCK, BLOCK as bv8)
    else
      var chunk := Read(src, 0, size);
      PadIfRagged(chunk) + Frames(src[|chunk|..], size, padded || |chunk| % BLOCK != 0)
  }

  lemma PadWhole(src: Bytes)
    requires Whole(src)
    ensures Pad(src) == src + Repeat(BLOCK, BLOCK as bv8)
  {
  }

  lemma PadTail(chunk: Bytes, rest: Bytes)
    requires Whole(chunk)
    ensures Pad(chunk + rest) == chunk + Pad(rest)
  {
    assert |chunk + rest| % BLOCK == |rest| % BLOCK;
    var k := BLOCK - |rest| % BLOCK;
    assert (chunk + rest) + Repeat(k, k as bv8) == chunk + (rest + Repeat(k, k as bv8));
  }

  lemma FramesStep(src: Bytes, pos: nat, size: nat, padded: bool)
    requires size > 0 && pos < |src|
    ensures var chunk := Read(src, pos, size);
            Frames(src[pos..], size, padded)
            == PadIfRagged(chunk) + Frames(src[pos + |chunk|..], size, padded || |chunk| % BLOCK != 0)
  {
    var chunk := Read(src, pos, size);
    assert Read(src[pos..], 0, size) == chunk;
    assert src[pos..][|chunk|..] == src[pos + |chunk|..];
  }

  /** Chunks of whole blocks, or a single chunk, make up exactly the padded input. */
  lemma {:induction false} FramesArePadding(src: Bytes, size: nat)
    requires size > 0 && (size % BLOCK == 0 || |src| <= size)
    ensures Frames(src, size, false) == Pad(src)
    decreases |src|
  {
    if src == [] {
      PadWhole(src);
    } else {
      FramesStep(src, 0, size, false);
      assert src[0..] == src;
      if |src| <= size {
        assert Read(src, 0, size) == src && src[|src|..] == [];
        if Whole(src) {
          PadWhole(src);
        }
      } else {
        var chunk, rest := src[..size], src[size..];
        assert Read(src, 0, size) == chunk;
        FramesArePadding(rest, size);
        PadTail(chunk, rest);
        assert chunk + rest == src;
      }
    }
  }

  /** The encryptor has taken in `fed` and put out `out`. */
  ghost predicate InStep(e: Encryptor, c: Cipher, key: Bytes, iv: Bytes, fed: Bytes, out: Bytes)
    reads e
  {
    && c.Valid() && |iv| == BLOCK && Whole(fed) && e.cipher == c && e.key == key && e.pending == []
    && out == CbcEncrypt(c, key, iv, fed) && e.prev == LastBlock(iv, out) && |e.prev| == BLOCK
  }

  lemma AllWhole(data: Bytes)
    requires Whole(data)
    ensures data[..BLOCK * (|data| / BLOCK)] == data && data[BLOCK * (|data| / BLOCK)..] == []
  {
  }

  lemma LastOfBoth(iv: Bytes, a: Bytes, b: Bytes)
    requires |iv| == BLOCK && Whole(a) && Whole(b)
    ensures LastBlock(iv, a + b) == LastBlock(LastBlock(iv, a), b)
  {
  }

  /** Whole blocks fed to an encryptor with nothing pending come out at once. */
  method FeedWhole(e: Encryptor, ghost c: Cipher, ghost key: Bytes, ghost iv: Bytes, ghost fed: Bytes, ghost out: Bytes,
                   data: Bytes) returns (piece: Bytes)
    requires InStep(e, c, key, iv, fed, out) && Whole(data)
    modifies e
    ensures InStep(e, c, key, iv, fed + data, out + piece)
  {
    CbcEncryptConcat(c, key, iv, fed, data);
    assert e.pending + data == data;
    AllWhole(data);
    piece := e.Update(data);
    LastOfBoth(iv, out, piece);
    WholeConcat(fed, data);
  }

  /** With `fed` taken in and `pos` bytes read, this much is still to be fed. */
  ghost predicate Remaining(src: Bytes, size: nat, fed: Bytes, pos: nat, padded: bool) {
    size > 0 && pos <= |src| && Whole(fed) && Frames(src, size, false) == fed + Frames(src[pos..], size, padded)
  }

  lemma RemainingStep(src: Bytes, size: nat, fed: Bytes, pos: nat, padded: bool, chunk: Bytes,
                      data: Bytes, next: nat, padded': bool)
    requires Remaining(src, size, fed, pos, padded) && chunk == Read(src, pos, size) && chunk != []
    requires data == PadIfRagged(chunk) && next == pos + |chunk| && padded' == (padded || |chunk| % BLOCK != 0)
    ensures Remaining(src, size, fed + data, next, padded')
  {
    var rest := Frames(src[next..], size, padded');
    assert Frames(src[pos..], size, padded) == data + rest by {
      FramesStep(src, pos, size, padded);
    }
    WholeConcat(fed, data);
    Regroup(Frames(src, size, false), fed, data, rest);
  }

  lemma WholeConcat(a: Bytes, b: Bytes)
    requires Whole(a) && Whole(b)
    ensures Whole(a + b)
  {
  }

  lemma Regroup(all: Bytes, a: Bytes, b: Bytes, c: Bytes)
    requires all == a + (b + c)
    ensures all == (a + b) + c
  {
  }

  lemma RemainingEnd(src: Bytes, size: nat, fed: Bytes, pos: nat, padded: bool)
    requires Remaining(src, size, fed, pos, padded) && pos == |src|
    ensures Frames(src, size, false) == if padded then fed else fed + Repeat(BLOCK, BLOCK as bv8)
  {
    assert src[pos..] == [];
  }

  method EncryptBody(c: Cipher, key: Bytes, iv: Bytes, src: Bytes, size: nat) returns (out: Bytes)
    requires c.Valid() && |iv| == BLOCK && size > 0
    ensures out == CbcEncrypt(c, key, iv, Frames(src, size, false))
  {
    var encryptor := new Encryptor(c, key, iv);
    var padded;
    ghost var fed;
    out, padded, fed := EncryptLoop(encryptor, c, key, iv, src, size);
    if !padded {
      var last := Repeat(BLOCK, BLOCK as bv8);
      var piece := FeedWhole(encryptor, c, key, iv, fed, out, last);
      out := out + piece;
    }
  }

  /** Every chunk is padded if ragged, and fed to the encryptor. */
  method EncryptLoop(encryptor: Encryptor, ghost c: Cipher, ghost key: Bytes, ghost iv: Bytes, src: Bytes, size: nat)
    returns (out: Bytes, padded: bool, ghost fed: Bytes)
    requires size > 0 && InStep(encryptor, c, key, iv, [], [])
    modifies encryptor
    ensures InStep(encryptor, c, key, iv, fed, out)
    ensures Frames(src, size, false) == if padded then fed else fed + Repeat(BLOCK, BLOCK as bv8)
  {
    padded := false;
    var pos: nat := 0;
    fed, out := [], [];
    assert src[0..] == src;
    while true
      invariant Remaining(src, size, fed, pos, padded)
      invariant InStep(encryptor, c, key, iv, fed, out)
      decreases |src| - pos
    {
      var chunk := Read(src, pos, size);
      if chunk == [] {
        break;
      }
      ghost var first, pos0, padded0 := chunk, pos, padded;
      pos := pos + |chunk|;
      if |chunk| % BLOCK != 0 {
        chunk := PadIfRagged(chunk);
        padded := true;
      }
      RemainingStep(src, size, fed, pos0, padded0, first, chunk, pos, padded);
      var piece := FeedWhole(encryptor, c, key, iv, fed, out, chunk);
      out := out + piece;
      fed := fed + chunk;
    }
    RemainingEnd(src, size, fed, pos, padded);
  }

  method EncryptStream(c: Cipher, masterKey: Bytes, fileKey: Bytes, iv: Bytes, src: Bytes, size: nat)
    returns (out: Bytes, wrappedKey: Bytes)
    requires c.Valid() && |iv| == BLOCK && size > 0
    ensures out == CbcEncrypt(c, fileKey, iv, Frames(src, size, false))
    ensures size % BLOCK == 0 || |src| <= size ==>
              && |out| == BLOCK * (|src| / BLOCK + 1) && Whole(Pad(src)) && out == CbcEncrypt(c, fileKey, iv, Pad(src))
              && forall j :: 0 <= j <= |src| / BLOCK ==> ChainedBlock(c, fileKey, iv, Pad(src), out, j)
    ensures Whole(Pad(fileKey)) && wrappedKey == EcbEncrypt(c, masterKey, Pad(fileKey))
    ensures |wrappedKey| == BLOCK * (|fileKey| / BLOCK + 1) == |Pad(fileKey)|
    ensures forall j :: 0 <= j <= |fileKey| / BLOCK ==>
              Block(wrappedKey, j) == c.enc(masterKey, Block(Pad(fileKey), j))
  {
    out := EncryptBody(c, fileKey, iv, src, size);
    if size % BLOCK == 0 || |src| <= size {
      FramesArePadding(src, size);
      PadLength(src);
      forall j | 0 <= j <= |src| / BLOCK ensures ChainedBlock(c, fileKey, iv, Pad(src), out, j) {
        CbcEncryptsBlocks(c, fileKey, iv, Pad(src), j);
      }
    }
    PadLength(fileKey);
    wrappedKey := EncryptKey(c, masterKey, Pad(fileKey));
    forall j | 0 <= j <= |fileKey| / BLOCK ensures Block(wrappedKey, j) == c.enc(masterKey, Block(Pad(fileKey), j)) {
      EcbEncryptsBlocks(c, masterKey, Pad(fileKey), j);
    }
  }

  lemma PadLength(v: Bytes)
    ensures |Pad(v)| == BLOCK * (|v| / BLOCK + 1) && Whole(Pad(v))
  {
    PadMeans(v);
  }

  method EncryptKey(c: Cipher, key: Bytes, data: Bytes) returns (out: Bytes)
    requires c.Valid() && Whole(data)
    ensures out == EcbEncrypt(c, key, data)
  {
    out := [];
    var pos := 0;
    while pos < |data|
      invariant pos <= |data| && pos % BLOCK == 0
      invariant EcbEncrypt(c, key, data) == out + EcbEncrypt(c, key, data[pos..])
    {
      assert data[pos..][..BLOCK] == data[pos..pos + BLOCK] && data[pos..][BLOCK..] == data[pos + BLOCK..];
      out := out + c.enc(key, data[pos..pos + BLOCK]);
      pos := pos + BLOCK;
    }
  }

  method DecryptKey(c: Cipher, key: Bytes, data: Bytes) returns (out: Bytes)
    requires c.Valid() && Whole(data)
    ensures out == EcbDecrypt(c, key, data)
    ensures forall j :: 0 <= j < |data| / BLOCK ==> Block(out, j) == c.dec(key, Block(data, j))
  {
    forall j | 0 <= j < |data| / BLOCK ensures Block(EcbDecrypt(c, key, data), j) == c.dec(key, Block(data, j)) {
      EcbDecryptsBlocks(c, key, data, j);
    }
    out := [];
    var pos := 0;
    while pos < |data|
      invariant pos <= |data| && pos % BLOCK == 0
      invariant EcbDecrypt(c, key, data) == out + EcbDecrypt(c, key, data[pos..])
    {
      assert data[pos..][..BLOCK] == data[pos..pos + BLOCK] && data[pos..][BLOCK..] == data[pos + BLOCK..];
      out := out + c.dec(key, data[pos..pos + BLOCK]);
      pos := pos + BLOCK;
    }
  }

  /** The whole blocks among the first `n` bytes. */
  function Blocks(src: Bytes, n: nat): (r: Bytes)
    requires n <= |src|
    ensures Whole(r)
  {
    src[..BLOCK * (n / BLOCK)]
  }

  lemma BlocksAdd(pos: nat, k: nat)
    ensures var start := BLOCK * (pos / BLOCK);
            start + BLOCK * ((pos - start + k) / BLOCK) == BLOCK * ((pos + k) / BLOCK)
  {
  }

  lemma LastReadCompletes(from: nat, pos: nat)
    requires from < pos && pos % BLOCK == 0
    ensures BLOCK * (from / BLOCK) + BLOCK <= BLOCK * (pos / BLOCK) == pos
  {
  }

  /** The decryptor has taken in the first `pos` bytes of `src`. */
  ghost predicate DecryptorAt(e: Decryptor, c: Cipher, key: Bytes, iv: Bytes, src: Bytes, pos: nat)
    reads e
  {
    && c.Valid() && |iv| == BLOCK && pos <= |src| && e.cipher == c && e.key == key
    && e.prev == LastBlock(iv, Blocks(src, pos)) && |e.prev| == BLOCK
    && e.pending == src[BLOCK * (pos / BLOCK)..pos]
  }

  /** What is pending and the next chunk, taken together. */
  lemma NextBlocks(src: Bytes, pos: nat, next: nat, all: Bytes, n: nat)
    requires pos <= next <= |src| && all == src[BLOCK * (pos / BLOCK)..next] && n == BLOCK * (|all| / BLOCK)
    ensures Whole(all[..n]) && Blocks(src, next) == Blocks(src, pos) + all[..n]
    ensures all[n..] == src[BLOCK * (next / BLOCK)..next]
  {
    BlocksAdd(pos, next - pos);
  }

  /** Feeding the decryptor the next chunk brings out the blocks it completes. */
  method FeedMore(e: Decryptor, ghost c: Cipher, ghost key: Bytes, ghost iv: Bytes, ghost src: Bytes, ghost pos: nat,
                  ghost next: nat, chunk: Bytes) returns (d: Bytes)
    requires DecryptorAt(e, c, key, iv, src, pos) && next == pos + |chunk| <= |src| && chunk == src[pos..next]
    modifies e
    ensures DecryptorAt(e, c, key, iv, src, next)
    ensures CbcDecrypt(c, key, iv, Blocks(src, next)) == CbcDecrypt(c, key, iv, Blocks(src, pos)) + d
  {
    ghost var all := src[BLOCK * (pos / BLOCK)..next];
    ghost var n := BLOCK * (|all| / BLOCK);
    assert e.pending + chunk == all;
    NextBlocks(src, pos, next, all, n);
    CbcDecryptConcat(c, key, iv, Blocks(src, pos), all[..n]);
    LastOfBoth(iv, Blocks(src, pos), all[..n]);
    d := e.Update(chunk);
  }

  /** `out` is `p` without its padding, if its last byte is a padding length; a prefix of it anyway. */
  ghost predicate WithoutPadding(p: Bytes, out: Bytes) {
    && out <= p
    && (|p| >= BLOCK && 1 <= p[|p| - 1] as nat <= BLOCK ==> out == p[..|p| - p[|p| - 1] as nat])
  }

  /** The last piece loses its padding. */
  function Finish(out: Bytes, d: Bytes): Bytes
    requires d != []
  {
    out + DropLast(d, d[|d| - 1] as nat)
  }

  /** Where the last read of n bytes starts. */
  function LastRead(n: nat, size: nat): (s: nat)
    requires n > 0 && size > 0
    ensures s < n <= s + size
  {
    if n <= size then 0 else size + LastRead(n - size, size)
  }

  /** The position the last piece starts at: the last read brings out what it completes. */
  function LastPiece(n: nat, size: nat): (s: nat)
    requires n > 0 && size > 0
    ensures s < n && s % BLOCK == 0
  {
    BLOCK * (LastRead(n, size) / BLOCK)
  }

  /** What is written for the plaintext `p` read in pieces of `size` bytes: all but the last piece,
      and of that all but as many bytes as its last one says, as a Python slice counts them. */
  function Written(p: Bytes, size: nat): Bytes
    requires size > 0
  {
    if p == [] then [] else var s := LastPiece(|p|, size); Finish(p[..s], p[s..])
  }

  /** The last piece always holds a whole block. */
  lemma LastPieceLong(n: nat, size: nat)
    requires n > 0 && n % BLOCK == 0 && size > 0
    ensures LastPiece(n, size) + BLOCK <= n
  {
    LastReadCompletes(LastRead(n, size), n);
  }

  lemma FinishDropsPadding(p: Bytes, s: nat)
    requires s + BLOCK <= |p|
    ensures WithoutPadding(p, Finish(p[..s], p[s..]))
  {
    assert p[..s] + p[s..] == p;
    assert p[s..][|p| - s - 1] == p[|p| - 1];
  }

  /** So the padding is found whole. */
  lemma WrittenDropsPadding(p: Bytes, size: nat)
    requires Whole(p) && size > 0
    ensures WithoutPadding(p, Written(p, size))
    ensures p != [] ==> var s, k := LastPiece(|p|, size), p[|p| - 1] as nat;
                        |Written(p, size)| == if k == 0 || k >= |p| - s then s else |p| - k
  {
    if p != [] {
      LastPieceLong(|p|, size);
      FinishDropsPadding(p, LastPiece(|p|, size));
    }
  }

  /** `plain` is the decryption of `text`, block by block. */
  ghost predicate Unchained(c: Cipher, key: Bytes, iv: Bytes, text: Bytes, plain: Bytes) {
    |plain| == |text| && forall j :: 0 <= j < |text| / BLOCK ==> UnchainedBlock(c, key, iv, text, plain, j)
  }

  lemma DecryptUnchains(c: Cipher, key: Bytes, iv: Bytes, text: Bytes)
    requires c.Valid() && |iv| == BLOCK && Whole(text)
    ensures Unchained(c, key, iv, text, CbcDecrypt(c, key, iv, text))
  {
    forall j | 0 <= j < |text| / BLOCK
      ensures UnchainedBlock(c, key, iv, text, CbcDecrypt(c, key, iv, text), j)
    {
      CbcDecryptsBlocks(c, key, iv, text, j);
    }
  }

  /** Decryption of any input in reads of any positive size. Input that ends within a block raises. */
  method DecryptBody(c: Cipher, fileKey: Bytes, iv: Bytes, src: Bytes, size: nat) returns (out: Bytes, ok: bool)
    requires c.Valid() && |iv| == BLOCK && size > 0
    ensures ok <==> Whole(src)
    ensures ok ==> out == Written(CbcDecrypt(c, fileKey, iv, src), size)
    ensures ok ==> exists plain :: WithoutPadding(plain, out) && Unchained(c, fileKey, iv, src, plain)
  {
    if Whole(src) {
      WrittenDropsPadding(CbcDecrypt(c, fileKey, iv, src), size);
      DecryptUnchains(c, fileKey, iv, src);
    }
    var decryptor := new Decryptor(c, fileKey, iv);
    assert Blocks(src, 0) == [] && src[0..0] == [];
    assert DecryptorAt(decryptor, c, fileKey, iv, src, 0);
    var last: Option<Bytes>;
    out, last := DecryptLoop(decryptor, c, fileKey, iv, src, size);
    ok := |decryptor.pending| == 0;
    assert ok <==> Whole(src) by {
      assert |decryptor.pending| == |src| % BLOCK;
    }
    if last.Some? {
      if last.value == [] {
        LastPieceIsLong(c, fileKey, iv, src, size, out, last.value);
        return out, false;
      }
      if ok {
        LastPieceIsLong(c, fileKey, iv, src, size, out, last.value);
      }
      out := Finish(out, last.value);
    }
  }

  lemma LastPieceIsLong(c: Cipher, key: Bytes, iv: Bytes, src: Bytes, size: nat, out: Bytes, d: Bytes)
    requires c.Valid() && |iv| == BLOCK && size > 0 && src != []
    requires out + d == CbcDecrypt(c, key, iv, Blocks(src, |src|)) && |out| == LastPiece(|src|, size)
    ensures Whole(src) ==>
              var p := CbcDecrypt(c, key, iv, src); |d| >= BLOCK && out == p[..|out|] && d == p[|out|..]
  {
    if Whole(src) {
      assert Blocks(src, |src|) == src;
      LastPieceLong(|src|, size);
    }
  }

  /** A read starts at `pos`, whatever it brings. */
  ghost predicate ReadsFrom(pos: nat, size: nat) {
    size > 0 && forall m :: pos < m <= pos + size ==> LastRead(m, size) == pos
  }

  lemma ReadsFromNext(pos: nat, size: nat)
    requires ReadsFrom(pos, size)
    ensures ReadsFrom(pos + size, size)
  {
    forall m | pos + size < m <= pos + size + size ensures LastRead(m, size) == pos + size {
      assert LastRead(m - size, size) == pos;
    }
  }

  /** The bounds of the loop: where the last piece starts and where the next read does. */
  ghost predicate Between(from: nat, pos: nat, n: nat, size: nat, started: bool) {
    && ReadsFrom(from, size) && from <= pos <= n
    && if started then from < pos <= from + size && (pos < n ==> pos == from + size) else from == pos == 0
  }

  lemma BetweenStep(from: nat, pos: nat, next: nat, n: nat, size: nat, started: bool)
    requires Between(from, pos, n, size, started) && pos < next <= n && next <= pos + size
    requires next < n ==> next == pos + size
    ensures Between(pos, next, n, size, true)
  {
    if started {
      ReadsFromNext(from, size);
    }
  }

  lemma BetweenEnd(from: nat, n: nat, size: nat)
    requires Between(from, n, n, size, true)
    ensures from == LastRead(n, size)
  {
    assert LastRead(n, size) == from;
  }

  /** The pieces put out so far are the decryption of the blocks read so far. */
  ghost predicate Pieces(c: Cipher, key: Bytes, iv: Bytes, src: Bytes, from: nat, pos: nat, out: Bytes, last: Option<Bytes>)
  {
    && c.Valid() && |iv| == BLOCK && from <= pos <= |src|
    && out == CbcDecrypt(c, key, iv, Blocks(src, from))
    && (last.Some? ==> out + last.value == CbcDecrypt(c, key, iv, Blocks(src, pos)))
    && (last.None? ==> from == pos)
  }

  lemma PiecesStep(c: Cipher, key: Bytes, iv: Bytes, src: Bytes, from: nat, pos: nat, next: nat, out: Bytes,
                   last: Option<Bytes>, d: Bytes)
    requires Pieces(c, key, iv, src, from, pos, out, last) && pos < next <= |src|
    requires CbcDecrypt(c, key, iv, Blocks(src, next)) == CbcDecrypt(c, key, iv, Blocks(src, pos)) + d
    ensures Pieces(c, key, iv, src, pos, next, if last.Some? then out + last.value else out, Some(d))
  {
  }

  lemma PiecesEnd(c: Cipher, key: Bytes, iv: Bytes, src: Bytes, from: nat, size: nat, out: Bytes, last: Option<Bytes>)
    requires Pieces(c, key, iv, src, from, |src|, out, last) && Between(from, |src|, |src|, size, last.Some?)
    ensures last.None? <==> src == []
    ensures last.None? ==> out == []
    ensures last.Some? ==> out + last.value == CbcDecrypt(c, key, iv, Blocks(src, |src|))
    ensures last.Some? ==> |out| == LastPiece(|src|, size)
  {
    if last.Some? {
      BetweenEnd(from, |src|, size);
    }
  }

  /** `chunk` is what is read at `pos`: empty only at the end, and short only there. */
  ghost predicate NextRead(src: Bytes, pos: nat, size: nat, chunk: Bytes) {
    && pos + |chunk| <= |src| && chunk == src[pos..pos + |chunk|] && (chunk == [] <==> pos == |src|)
    && |chunk| <= size && (pos + |chunk| < |src| ==> |chunk| == size)
  }

  /** Every decrypted piece is written once the next one is there; the last one is handed back. */
  method DecryptLoop(decryptor: Decryptor, ghost c: Cipher, ghost key: Bytes, ghost iv: Bytes, src: Bytes, size: nat)
    returns (out: Bytes, last: Option<Bytes>)
    requires size > 0 && DecryptorAt(decryptor, c, key, iv, src, 0)
    modifies decryptor
    ensures DecryptorAt(decryptor, c, key, iv, src, |src|)
    ensures last.None? <==> src == []
    ensures last.None? ==> out == []
    ensures last.Some? ==> out + last.value == CbcDecrypt(c, key, iv, Blocks(src, |src|))
    ensures last.Some? ==> |out| == LastPiece(|src|, size)
  {
    last := None;
    var pos: nat := 0;
    ghost var from: nat := 0;
    out := [];
    var chunk := Read(src, 0, size);
    while chunk != []
      invariant NextRead(src, pos, size, chunk)
      invariant Between(from, pos, |src|, size, last.Some?)
      invariant DecryptorAt(decryptor, c, key, iv, src, pos)
      invariant Pieces(c, key, iv, src, from, pos, out, last)
      decreases |src| - pos
    {
      ghost var out0, last0 := out, last;
      if last.Some? {
        out := out + last.value;
      }
      ghost var prev := pos;
      pos := pos + |chunk|;
      var d := FeedMore(decryptor, c, key, iv, src, prev, pos, chunk);
      PiecesStep(c, key, iv, src, from, prev, pos, out0, last0, d);
      BetweenStep(from, prev, pos, |src|, size, last.Some?);
      last := Some(d);
      from := prev;
      chunk := Read(src, pos, size);
    }
    PiecesEnd(c, key, iv, src, from, size, out, last);
  }

  /** An initial vector, a wrapped key or an input of the wrong length raises. */
  method DecryptStream(c: Cipher, masterKey: Bytes, wrappedKey: Bytes, iv: Bytes, src: Bytes, size: nat)
    returns (out: Bytes, ok: bool)
    requires c.Valid() && size > 0
    ensures ok <==> |iv| == BLOCK && Whole(wrappedKey) && wrappedKey != [] && Whole(src)
    ensures ok ==> var fileKey := Unpad(EcbDecrypt(c, masterKey, wrappedKey));
                   out == Written(CbcDecrypt(c, fileKey, iv, src), size)
  {
    if |wrappedKey| % BLOCK != 0 || wrappedKey == [] || |iv| != BLOCK {
      return [], false;
    }
    var padded := DecryptKey(c, masterKey, wrappedKey);
    out, ok := DecryptBody(c, Unpad(padded), iv, src, size);
  }

  /** The wrapped file key round-trips for every key. */
  lemma KeyRoundTrip(c: Cipher, masterKey: Bytes, fileKey: Bytes)
    requires c.Valid()
    ensures Whole(Pad(fileKey)) && Unpad(EcbDecrypt(c, masterKey, EcbEncrypt(c, masterKey, Pad(fileKey)))) == fileKey
  {
    PadMeans(fileKey);
    EcbInverse(c, masterKey, Pad(fileKey));
    UnpadPad(fileKey);
  }

  /** Encrypting in chunks of any size and decrypting in reads of any size: chunks of whole blocks, or
      a single chunk, return the input, whatever it is. With any other chunk size an input does not
      come back, unless it happens to go on with the byte the first chunk was padded with. */
  method RoundTrip(c: Cipher, masterKey: Bytes, fileKey: Bytes, iv: Bytes, src: Bytes, size: nat, size': nat)
    returns (out: Bytes, ok: bool)
    requires c.Valid() && |iv| == BLOCK && size > 0 && size' > 0
    ensures ok && out == Written(Frames(src, size, false), size')
    ensures size % BLOCK == 0 || |src| <= size ==> out == src
    ensures size % BLOCK != 0 && |src| > size && src[size] != (BLOCK - size % BLOCK) as bv8 ==> out != src
  {
    var text, wrappedKey := EncryptStream(c, masterKey, fileKey, iv, src, size);
    PadMeans(fileKey);
    KeyRoundTrip(c, masterKey, fileKey);
    CbcInverse(c, fileKey, iv, Frames(src, size, false));
    out, ok := DecryptStream(c, masterKey, wrappedKey, iv, text, size');
    if size % BLOCK == 0 || |src| <= size {
      WholeChunksReturn(src, size, size');
    } else {
      RaggedChunksLose(src, size, size');
    }
  }

  lemma WholeChunksReturn(src: Bytes, size: nat, size': nat)
    requires size > 0 && size' > 0 && (size % BLOCK == 0 || |src| <= size)
    ensures Written(Frames(src, size, false), size') == src
  {
    FramesArePadding(src, size);
    assert Whole(Pad(src)) by {
      PadMeans(src);
    }
    WrittenDropsPadding(Pad(src), size');
    PaddingComesOff(src, Written(Pad(src), size'));
  }

  lemma PaddingComesOff(src: Bytes, out: Bytes)
    requires WithoutPadding(Pad(src), out)
    ensures out == src
  {
    PadMeans(src);
  }

  /** A first chunk that is ragged and not the last puts its padding before the rest of the input. */
  lemma RaggedChunkMisplacesPadding(src: Bytes, size: nat)
    requires 0 < size < |src| && size % BLOCK != 0
    ensures |Frames(src, size, false)| > size && Frames(src, size, false)[size] == (BLOCK - size % BLOCK) as bv8
  {
    var chunk := Read(src, 0, size);
    assert chunk == src[..size];
    assert PadIfRagged(chunk) == chunk + Repeat(BLOCK - size % BLOCK, (BLOCK - size % BLOCK) as bv8);
    assert Frames(src, size, false)[size] == PadIfRagged(chunk)[size];
  }

  lemma RaggedChunksLose(src: Bytes, size: nat, size': nat)
    requires 0 < size < |src| && size % BLOCK != 0 && size' > 0
    ensures src[size] != (BLOCK - size % BLOCK) as bv8 ==> Written(Frames(src, size, false), size') != src
  {
    RaggedChunkMisplacesPadding(src, size);
    WrittenDropsPadding(Frames(src, size, false), size');
  }

  lemma NonZero(k: nat)
    requires 0 < k <= BLOCK
    ensures k as bv8 != 0
  {
  }

  lemma ZerosLost(n: nat, size: nat, size': nat) returns (zeros: Bytes)
    requires 0 < size < n && size % BLOCK != 0 && size' > 0
    ensures |zeros| == n && Written(Frames(zeros, size, false), size') != zeros
  {
    zeros := Repeat(n, 0);
    assert zeros[size] == 0;
    assert (BLOCK - size % BLOCK) as bv8 != 0 by {
      NonZero(BLOCK - size % BLOCK);
    }
    RaggedChunksLose(zeros, size, size');
  }

  /** All inputs of length `n` come back exactly when the chunk size is a multiple of the block size
      or the input fits one chunk, whatever the size of the reads on the other side. */
  lemma ReturnsIffWholeChunks(n: nat, size: nat, size': nat)
    requires size > 0 && size' > 0
    ensures (forall src :: |src| == n ==> Written(Frames(src, size, false), size') == src)
            <==> size % BLOCK == 0 || n <= size
  {
    if size % BLOCK == 0 || n <= size {
      forall src | |src| == n ensures Written(Frames(src, size, false), size') == src {
        WholeChunksReturn(src, size, size');
      }
    } else {
      var zeros := ZerosLost(n, size, size');
    }
  }
}
