/** How many chunks preparing a file comes to, and with it the condition under which a transfer
    completes. */
module TransferChunks {
  import opened Options
  import opened Transfer
  import opened TransferProgress

  const DEFAULT_CHUNK_SIZE := 8 * 1024 * 1024
  const MIN_PART_SIZE := 5 * 1024 * 1024
  const MAX_PARTS := 10000
  const MAX_OBJECT_SIZE := 5 * 1024 * 1024 * 1024 * 1024

  /** The quotient, rounded up. */
  function Ceil(n: nat, d: nat): (r: nat)
    requires d > 0
    ensures n <= r * d && (r > 0 ==> (r - 1) * d < n)
  {
    (n + d - 1) / d
  }

  /** n chunks of the given size are just enough for the file: none of them is empty. */
  predicate Covers(n: nat, chunkSize: nat, size: nat) {
    size <= n * chunkSize && (n > 0 ==> (n - 1) * chunkSize < size)
  }

  /** Every byte of the file lies in exactly one chunk, and every chunk starts within the file. */
  lemma ChunksPartition(n: nat, chunkSize: nat, size: nat, at: nat)
    requires chunkSize > 0 && Covers(n, chunkSize, size) && at < size
    ensures exists i :: 0 <= i < n && i * chunkSize <= at < (i + 1) * chunkSize
    ensures forall i, j :: 0 <= i < j < n && i * chunkSize <= at < (i + 1) * chunkSize ==> at < j * chunkSize
    ensures forall i :: 0 <= i < n ==> i * chunkSize < size
  {
    var k := at / chunkSize;
    Multiples(k + 1, n, chunkSize);
    assert k * chunkSize <= at < (k + 1) * chunkSize by {
      assert at == k * chunkSize + at % chunkSize;
      assert (k + 1) * chunkSize == k * chunkSize + chunkSize;
    }
    if k >= n {
      Multiples(n, k, chunkSize);
    }
    forall i, j | 0 <= i < j < n && i * chunkSize <= at < (i + 1) * chunkSize ensures at < j * chunkSize {
      Multiples(i + 1, j, chunkSize);
    }
    forall i | 0 <= i < n ensures i * chunkSize < size {
      Multiples(i, n - 1, chunkSize);
    }
  }

  lemma Multiples(a: nat, b: nat, d: nat)
    ensures a <= b ==> a * d <= b * d
  {
  }

  /** What preparation knows of a file. `size` is the upload size, or the length the header of a
      download gives, if it gives one. */
  datatype Plan = Plan(size: Option<nat>, chunked: bool, threshold: int, chunkSize: nat) {
    predicate Valid(upload: bool) { chunkSize > 0 && (upload ==> size.Some?) }
  }

  /** `prepare_upload`: only an empty file under a threshold that is not positive has no chunk. */
  function UploadChunks(p: Plan): (n: nat)
    requires p.Valid(true)
    ensures n >= 1 <==> p.size.value > 0 || p.threshold > 0 || !p.chunked
    ensures if p.chunked && p.size.value >= p.threshold then Covers(n, p.chunkSize, p.size.value) else n == 1
  {
    if p.size.value < p.threshold || !p.chunked then 1 else Ceil(p.size.value, p.chunkSize)
  }

  /** `prepare_download`: there is always a chunk. */
  function DownloadChunks(p: Plan): (n: nat)
    requires p.Valid(false)
    ensures n >= 1
    ensures if p.chunked && p.size.Some? && p.size.value > 0 && p.size.value > p.threshold
            then Covers(n, p.chunkSize, p.size.value) else n == 1
  {
    if p.size.Some? && p.size.value != 0 && p.chunked && p.size.value > p.threshold
    then Ceil(p.size.value, p.chunkSize)
    else 1
  }

  /** The configuration prepares the files as planned. */
  ghost predicate Planned(c: Config, plans: seq<Plan>) {
    && |plans| == |c.chunks|
    && forall i :: 0 <= i < |plans| ==>
         && plans[i].Valid(c.upload)
         && c.chunks[i] == if c.upload then UploadChunks(plans[i]) else DownloadChunks(plans[i])
  }

  /** With positive thresholds every transfer completes, in every interleaving; a download does with
      any threshold. An upload fails to complete in some interleaving exactly if it holds an empty
      file that is to be sent in chunks under a threshold that is not positive. */
  lemma PlannedTransfersComplete(c: Config, plans: seq<Plan>)
    requires c.Valid() && Planned(c, plans)
    ensures (forall run :: IsRun(c, run) && Quiet(c, After(c, run)) ==> After(c, run).main.MainReturned?)
            <==> (c.upload ==> forall i :: 0 <= i < |plans| ==>
                    plans[i].size.value > 0 || plans[i].threshold > 0 || !plans[i].chunked)
  {
    CompletionIffEveryFileHasChunks(c);
    if EveryFileHasChunks(c) {
      assert forall i :: 0 <= i < |plans| ==> c.chunks[i] >= 1;
    }
  }

  // ---------------------------------------------------------------------------
  // The chunk size of an S3 transfer

  /** `_chunk_size_calculator`: None where it raises. */
  function ChunkSize(fileSize: nat): (r: Option<nat>)
    ensures r.Some? <==> fileSize <= MAX_OBJECT_SIZE
    ensures r.Some? ==> r.value >= MIN_PART_SIZE && fileSize <= MAX_PARTS * r.value
  {
    if fileSize > MAX_OBJECT_SIZE then None
    else if Ceil(fileSize, DEFAULT_CHUNK_SIZE) > MAX_PARTS then
      var size := Ceil(fileSize, MAX_PARTS);
      Some(if size > MIN_PART_SIZE then size else MIN_PART_SIZE)
    else Some(DEFAULT_CHUNK_SIZE)
  }

  lemma CeilWithin(n: nat, d: nat, k: nat)
    requires d > 0
    ensures Ceil(n, d) <= k <==> n <= k * d
  {
    var r := Ceil(n, d);
    if r <= k {
      assert r * d <= k * d;
    } else {
      assert k * d <= (r - 1) * d;
    }
  }

  /** The size the encrypted file comes to. */
  function PaddedSize(fileSize: nat): nat { 16 * (fileSize / 16 + 1) }

  lemma CeilExact(n: nat)
    ensures n == MAX_PARTS * Ceil(n, MAX_PARTS) <==> n % MAX_PARTS == 0
  {
  }

  /** Where the calculator leaves the default size: one of its own, just large enough. */
  lemma ChunkSizeIs(fileSize: nat)
    requires fileSize <= MAX_OBJECT_SIZE
    ensures ChunkSize(fileSize).value
            == if fileSize <= MAX_PARTS * DEFAULT_CHUNK_SIZE then DEFAULT_CHUNK_SIZE else Ceil(fileSize, MAX_PARTS)
  {
    CeilWithin(fileSize, DEFAULT_CHUNK_SIZE, MAX_PARTS);
  }

  /** A file that is sent as it is stays within the number of parts. The chunk size is calculated from
      the file before encryption, though: the padded file needs too many parts exactly if the file has
      at least ten thousand default chunks and its size is a multiple of ten thousand. */
  lemma PartsWithinLimit(fileSize: nat)
    requires fileSize <= MAX_OBJECT_SIZE
    ensures var chunk := ChunkSize(fileSize).value;
            && Ceil(fileSize, chunk) <= MAX_PARTS
            && (Ceil(PaddedSize(fileSize), chunk) > MAX_PARTS
                <==> fileSize >= MAX_PARTS * DEFAULT_CHUNK_SIZE && fileSize % MAX_PARTS == 0)
  {
    var chunk := ChunkSize(fileSize).value;
    CeilWithin(fileSize, chunk, MAX_PARTS);
    CeilWithin(PaddedSize(fileSize), chunk, MAX_PARTS);
    ChunkSizeIs(fileSize);
    CeilExact(fileSize);
    PaddedBeyond(fileSize, 625 * chunk);
  }

  lemma PaddedBeyond(fileSize: nat, blocks: nat)
    requires fileSize <= 16 * blocks
    ensures PaddedSize(fileSize) > 16 * blocks <==> fileSize == 16 * blocks
  {
  }

  /** A file of exactly ten thousand default chunks needs one part more once it is encrypted. */
  lemma EncryptedPartsExceedLimit()
    ensures var fileSize := MAX_PARTS * DEFAULT_CHUNK_SIZE;
            && ChunkSize(fileSize) == Some(DEFAULT_CHUNK_SIZE)
            && Ceil(PaddedSize(fileSize), DEFAULT_CHUNK_SIZE) == MAX_PARTS + 1
  {
    CeilWithin(MAX_PARTS * DEFAULT_CHUNK_SIZE, DEFAULT_CHUNK_SIZE, MAX_PARTS);
  }
}
