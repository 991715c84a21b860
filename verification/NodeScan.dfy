/**
 The chunked memory scan for node definitions (native/vivoxproxy/crouch_parity_patch.h:945-1099).

 A region is copied chunk by chunk into one reused buffer, each chunk with enough trailing
 bytes that a node crossing its end is still seen whole.  `copies(offset)` is how many bytes
 the operating system is willing to copy at an offset; a failed read copies none.
 */
module NodeScan {
  import opened Basics

  const HEADER: seq<byte> := [
    0x6b, 0x00, 0x00, 0x00, 0x00, 0xc0, 0x00, 0x00,
    0xa7, 0x27, 0xbc, 0x27, 0x02, 0x00, 0x02, 0x00,
    0x04, 0x00, 0x00, 0x00, 0x00, 0x00, 0x00, 0x00,
    0x00, 0x00, 0x02, 0x00, 0x00, 0x00, 0xcd, 0xcd
  ]
  const PROBE_BYTES: nat := 32 + 0xb0
  const CHUNK_BYTES: nat := 256 * 1024

  // ---------- What a scan must report ----------

  /** A whole node definition starts at `p`. */
  predicate NodeAt(region: seq<byte>, p: nat) {
    p + PROBE_BYTES <= |region| && region[p..p + |HEADER|] == HEADER
  }

  predicate Aligned(offset: nat) { offset % CHUNK_BYTES == 0 }

  lemma NextChunkAligned(offset: nat)
    requires Aligned(offset)
    ensures Aligned(offset + CHUNK_BYTES)
  {
  }

  /** Where the chunk that covers position `p` starts. */
  function ChunkStart(p: nat): (offset: nat)
    ensures offset <= p < offset + CHUNK_BYTES
    ensures Aligned(offset)
  {
    p / CHUNK_BYTES * CHUNK_BYTES
  }

  lemma ChunkStartIs(p: nat, offset: nat)
    requires Aligned(offset) && offset <= p < offset + CHUNK_BYTES
    ensures ChunkStart(p) == offset
  {
  }

  /** How far the read that covers position `p` reached. */
  function ReadEnd(region: seq<byte>, copies: nat -> nat, p: nat): nat {
    var offset := ChunkStart(p);
    offset + Min(copies(offset), Requested(region, offset))
  }

  /** The bytes asked for at an offset: a chunk, and one byte less than a probe after it. */
  function Requested(region: seq<byte>, offset: nat): nat {
    if offset > |region| then 0
    else
      var primary := Min(|region| - offset, CHUNK_BYTES);
      primary + Min(|region| - offset - primary, PROBE_BYTES - 1)
  }

  predicate Visible(region: seq<byte>, copies: nat -> nat, p: nat) {
    NodeAt(region, p) && p + PROBE_BYTES <= ReadEnd(region, copies, p)
  }

  /** The visible nodes below `bound`, in address order. */
  function Nodes(region: seq<byte>, copies: nat -> nat, bound: nat): (found: seq<nat>)
    ensures forall i :: 0 <= i < |found| ==> found[i] < bound
  {
    if bound == 0 then []
    else Nodes(region, copies, bound - 1) + if Visible(region, copies, bound - 1) then [bound - 1] else []
  }

  /** Every visible node is reported, nothing else is, and none twice. */
  lemma {:induction false} NodesExact(region: seq<byte>, copies: nat -> nat, bound: nat)
    ensures var found := Nodes(region, copies, bound);
            && (forall p :: 0 <= p < bound ==> (p in found <==> Visible(region, copies, p)))
            && (forall i, j :: 0 <= i < j < |found| ==> found[i] < found[j])
  {
    hide Visible;
    if bound > 0 {
      NodesExact(region, copies, bound - 1);
      var earlier, found := Nodes(region, copies, bound - 1), Nodes(region, copies, bound);
      assert found == earlier || found == earlier + [bound - 1];
      hide Nodes;
    }
  }

  /** With full reads the chunk borders do not matter: every node in the region is reported. */
  lemma FullReadsSeeAll(region: seq<byte>, copies: nat -> nat, p: nat)
    requires forall offset :: copies(offset) >= Requested(region, offset)
    ensures p in Nodes(region, copies, |region|) <==> NodeAt(region, p)
  {
    hide ChunkStart, Nodes;
    NodesExact(region, copies, |region|);
    assert copies(ChunkStart(p)) >= Requested(region, ChunkStart(p));
  }

  lemma NodesStep(region: seq<byte>, copies: nat -> nat, p: nat)
    ensures Nodes(region, copies, p + 1) ==
            Nodes(region, copies, p) + if Visible(region, copies, p) then [p] else []
  {
  }

  lemma {:induction false} NoNodesBetween(region: seq<byte>, copies: nat -> nat, start: nat, bound: nat)
    requires start <= bound
    requires forall p :: start <= p < bound ==> !Visible(region, copies, p)
    ensures Nodes(region, copies, bound) == Nodes(region, copies, start)
    decreases bound
  {
    if start < bound {
      NoNodesBetween(region, copies, start, bound - 1);
    }
  }

  // ---------- The scan ----------

  /** The operating system's copy: a prefix of what was asked for; the rest of the buffer is stale. */
  method ReadMemory(region: seq<byte>, copies: nat -> nat, offset: nat, requested: nat, buffer: array<byte>)
    returns (copied: nat)
    requires offset + requested <= |region| && requested <= buffer.Length
    modifies buffer
    ensures copied == Min(copies(offset), requested)
    ensures buffer[..copied] == region[offset..offset + copied]
  {
    copied := Min(copies(offset), requested);
    for i := 0 to copied
      invariant forall k :: 0 <= k < i ==> buffer[k] == region[offset + k]
    {
      buffer[i] := region[offset + i];
    }
  }

  /** `memchr`: the first position of `b` among `count` bytes from `start`, or the end. */
  method FindByte(buffer: array<byte>, start: nat, count: nat, b: byte) returns (i: nat)
    requires start + count <= buffer.Length
    ensures start <= i <= start + count
    ensures i < start + count ==> buffer[i] == b
    ensures forall k :: start <= k < i ==> buffer[k] != b
  {
    i := start;
    while i < start + count && buffer[i] != b
      invariant start <= i <= start + count
      invariant forall k :: start <= k < i ==> buffer[k] != b
    {
      i := i + 1;
    }
  }

  /** The nodes that start in the chunk at `offset`. */
  method ScanChunk(region: seq<byte>, copies: nat -> nat, offset: nat, primary: nat, copied: nat,
                   buffer: array<byte>, before: seq<nat>) returns (found: seq<nat>)
    requires Aligned(offset) && primary <= CHUNK_BYTES && offset + primary <= |region|
    requires copied == Min(copies(offset), Requested(region, offset)) && copied <= buffer.Length
    requires offset + copied <= |region| && buffer[..copied] == region[offset..offset + copied]
    requires before == Nodes(region, copies, offset)
    ensures found == Nodes(region, copies, offset + primary)
  {
    hide ChunkStart, Visible, ReadEnd, Requested, Aligned, Nodes;
    found := before;
    var scan: nat, searchable: nat := 0, Min(primary, copied);
    while searchable != 0
      invariant scan + searchable == Min(primary, copied)
      invariant found == Nodes(region, copies, offset + scan)
      invariant scan <= copied && primary <= CHUNK_BYTES
      decreases searchable
    {
      var at := FindByte(buffer, scan, searchable, HEADER[0]);
      ChunkBytes(region, copies, offset, copied, buffer[..], scan, at);
      if at == scan + searchable {
        break;
      }
      NodesStep(region, copies, offset + at);
      if copied - at >= PROBE_BYTES && buffer[at..at + |HEADER|] == HEADER {
        found := found + [offset + at];
      }
      searchable := searchable - (at - scan + 1);
      scan := at + 1;
    }
    Unsearched(region, copies, offset, primary, copied, buffer[..], scan, scan + searchable);
  }

  /** Up to the byte found there is no node, and at it there is one exactly when the buffer says so. */
  lemma ChunkBytes(region: seq<byte>, copies: nat -> nat, offset: nat, copied: nat, buffer: seq<byte>,
                   scan: nat, at: nat)
    requires Aligned(offset) && copied == Min(copies(offset), Requested(region, offset))
    requires copied <= |buffer| && offset + copied <= |region|
    requires buffer[..copied] == region[offset..offset + copied]
    requires scan <= at <= Min(CHUNK_BYTES, copied)
    requires forall k :: scan <= k < at ==> buffer[k] != HEADER[0]
    ensures Nodes(region, copies, offset + at) == Nodes(region, copies, offset + scan)
    ensures at < CHUNK_BYTES ==>
              (Visible(region, copies, offset + at) <==>
               copied - at >= PROBE_BYTES && buffer[at..at + |HEADER|] == HEADER)
  {
    hide ChunkStart, Nodes, Aligned;
    forall p | offset + scan <= p < offset + at
      ensures !Visible(region, copies, p)
    {
      BufferAgrees(region, offset, copied, buffer, p - offset);
      NodeStartsWithHeader(region, p);
    }
    NoNodesBetween(region, copies, offset + scan, offset + at);
    if at < CHUNK_BYTES {
      ChunkStartIs(offset + at, offset);
      BufferShowsNode(region, offset, copied, buffer, at);
    }
  }

  lemma NodeStartsWithHeader(region: seq<byte>, p: nat)
    requires p < |region| && region[p] != HEADER[0]
    ensures !NodeAt(region, p)
  {
    if p + PROBE_BYTES <= |region| {
      assert region[p..p + |HEADER|][0] == region[p];
    }
  }

  /** A node that was copied whole looks the same in the buffer. */
  lemma BufferShowsNode(region: seq<byte>, offset: nat, copied: nat, buffer: seq<byte>, at: nat)
    requires copied <= |buffer| && offset + copied <= |region|
    requires buffer[..copied] == region[offset..offset + copied]
    ensures at + PROBE_BYTES <= copied ==>
              (NodeAt(region, offset + at) <==> buffer[at..at + |HEADER|] == HEADER)
  {
    if at + PROBE_BYTES <= copied {
      SliceOfSlice(buffer, 0, copied, at, at + |HEADER|);
      SliceOfSlice(region, offset, offset + copied, at, at + |HEADER|);
    }
  }

  lemma BufferAgrees(region: seq<byte>, offset: nat, copied: nat, buffer: seq<byte>, k: nat)
    requires copied <= |buffer| && offset + copied <= |region| && k < copied
    requires buffer[..copied] == region[offset..offset + copied]
    ensures buffer[k] == region[offset + k]
  {
    assert buffer[..copied][k] == region[offset..offset + copied][k];
  }

  /** Bytes that were not searched start no visible node. */
  lemma Unsearched(region: seq<byte>, copies: nat -> nat, offset: nat, primary: nat, copied: nat, buffer: seq<byte>,
                   scan: nat, end: nat)
    requires Aligned(offset) && primary <= CHUNK_BYTES
    requires copied == Min(copies(offset), Requested(region, offset)) && copied <= |buffer|
    requires offset + copied <= |region| && buffer[..copied] == region[offset..offset + copied]
    requires scan <= end == Min(primary, copied)
    requires forall k :: scan <= k < end ==> buffer[k] != HEADER[0]
    ensures Nodes(region, copies, offset + primary) == Nodes(region, copies, offset + scan)
  {
    ChunkBytes(region, copies, offset, copied, buffer, scan, end);
    forall p | offset + end <= p < offset + primary
      ensures !Visible(region, copies, p)
    {
      ChunkStartIs(p, offset);
    }
    NoNodesBetween(region, copies, offset + end, offset + primary);
  }

  /** The whole region. */
  method ScanRegion(region: seq<byte>, copies: nat -> nat) returns (found: seq<nat>)
    ensures found == Nodes(region, copies, |region|)
  {
    assert Nodes(region, copies, 0) == [] && Aligned(0);
    hide Nodes, Aligned;
    var buffer := new byte[CHUNK_BYTES + PROBE_BYTES];
    found := [];
    var regionOffset: nat := 0;
    while regionOffset < |region|
      invariant regionOffset <= |region|
      invariant regionOffset < |region| ==> Aligned(regionOffset)
      invariant found == Nodes(region, copies, regionOffset)
    {
      var primary := |region| - regionOffset;
      if primary > CHUNK_BYTES {
        primary := CHUNK_BYTES;
      }
      var trailing := |region| - regionOffset - primary;
      if trailing > PROBE_BYTES - 1 {
        trailing := PROBE_BYTES - 1;
      }
      var copied := ReadMemory(region, copies, regionOffset, primary + trailing, buffer);
      found := ScanChunk(region, copies, regionOffset, primary, copied, buffer, found);
      NextChunkAligned(regionOffset);
      regionOffset := regionOffset + primary;
    }
  }
}
