/**
 The content-addressed store of pfs over its block store, with any number of
 roots: what is put is kept once, counted, cut into blocks when large, and read
 back whole or in part.
 */
module Cas {
  import opened Common
  import Keys
  import Unixfs

  const CHUNK := Unixfs.CHUNK

  type Cid = seq<byte>

  type uint32 = x: int | 0 <= x < 0x1_0000_0000

  datatype ChunkRef = ChunkRef(id: nat, offset: uint32, size: uint32)
  datatype Entry = Entry(refcount: nat, totalSize: nat, inline: seq<byte>, chunks: seq<ChunkRef>)
  /** LengthError is what a vector throws that cannot grow so far; Undefined is a range outside the octets it is taken of. */
  datatype Error = NotFound | OutOfBounds | BlockNotFound | LengthError | Undefined

  /** The stored blocks by id. */
  type Blocks = map<nat, seq<byte>>
  type Entries = map<Cid, Entry>
  /** The stored blocks as they lie: by root and id. */
  type Roots = map<(nat, nat), seq<byte>>
  type Shards = x: int | 0 < x < 0x1_0000_0000 witness 1

  // --------------------------------------------------------- what an entry holds

  predicate Readable(chunks: seq<ChunkRef>, blocks: Blocks) {
    forall i :: 0 <= i < |chunks| ==>
      chunks[i].id in blocks && chunks[i].offset + chunks[i].size <= |blocks[chunks[i].id]|
  }

  function Piece(ref: ChunkRef, blocks: Blocks): (r: seq<byte>)
    requires Readable([ref], blocks)
    ensures |r| == ref.size
  {
    assert [ref][0] == ref;
    blocks[ref.id][ref.offset..ref.offset + ref.size]
  }

  /** The octets a chunk list stands for. */
  function Joined(chunks: seq<ChunkRef>, blocks: Blocks): seq<byte>
    requires Readable(chunks, blocks)
  {
    if chunks == [] then []
    else Joined(chunks[..|chunks| - 1], blocks) + Piece(chunks[|chunks| - 1], blocks)
  }

  /** Every chunk is a whole block, and every block but the last is full. */
  predicate CutAt(chunks: seq<ChunkRef>, total: nat) {
    forall i :: 0 <= i < |chunks| ==>
      && chunks[i].offset == 0
      && chunks[i].size == (if i + 1 < |chunks| then CHUNK else total - CHUNK * (|chunks| - 1))
      && 0 < chunks[i].size <= CHUNK
  }

  lemma LastCut(chunks: seq<ChunkRef>, total: nat)
    requires CutAt(chunks, total) && chunks != []
    ensures CHUNK * (|chunks| - 1) < total
  {
    assert chunks[|chunks| - 1].size > 0;
  }

  /** The entry stands for the content: inline up to a chunk, in blocks beyond. */
  ghost predicate Holds(e: Entry, content: seq<byte>, blocks: Blocks) {
    && e.totalSize == |content| < TWO64
    && Readable(e.chunks, blocks)
    && if |content| <= CHUNK then e.inline == content && e.chunks == []
       else e.inline == [] && Joined(e.chunks, blocks) == content && CutAt(e.chunks, |content|)
  }

  lemma {:induction false} JoinedFrame(chunks: seq<ChunkRef>, blocks: Blocks, other: Blocks)
    requires Readable(chunks, blocks)
    requires forall i :: 0 <= i < |chunks| ==> chunks[i].id in other && other[chunks[i].id] == blocks[chunks[i].id]
    ensures Readable(chunks, other) && Joined(chunks, other) == Joined(chunks, blocks)
  {
    if chunks != [] {
      JoinedFrame(chunks[..|chunks| - 1], blocks, other);
    }
  }

  lemma HoldsFrame(e: Entry, content: seq<byte>, blocks: Blocks, other: Blocks)
    requires Holds(e, content, blocks)
    requires forall i :: 0 <= i < |e.chunks| ==> e.chunks[i].id in other && other[e.chunks[i].id] == blocks[e.chunks[i].id]
    ensures Holds(e, content, other)
  {
    JoinedFrame(e.chunks, blocks, other);
  }

  // ------------------------------------------------------------- who owns a block

  /** Each stored block is one position of one entry's chunk list. */
  type Owners = map<nat, (Cid, nat)>

  ghost predicate OwnedBy(entries: Entries, id: nat, o: (Cid, nat)) {
    o.0 in entries && o.1 < |entries[o.0].chunks| && entries[o.0].chunks[o.1].id == id
  }

  /** The stored blocks are exactly the disjoint union of the chunk lists. */
  ghost predicate Owned(entries: Entries, blocks: Blocks, owners: Owners) {
    && owners.Keys == blocks.Keys
    && (forall id :: id in owners ==> OwnedBy(entries, id, owners[id]))
    && (forall c, i :: c in entries && 0 <= i < |entries[c].chunks| ==>
          entries[c].chunks[i].id in owners && owners[entries[c].chunks[i].id] == (c, i))
  }

  lemma OwnedPush(entries: Entries, blocks: Blocks, owners: Owners, c: Cid, ref: ChunkRef, piece: seq<byte>)
    requires Owned(entries, blocks, owners) && c in entries && ref.id !in blocks
    ensures var e := entries[c];
      Owned(entries[c := e.(chunks := e.chunks + [ref])], blocks[ref.id := piece],
            owners[ref.id := (c, |e.chunks|)])
  {
    var e := entries[c];
    var after := entries[c := e.(chunks := e.chunks + [ref])];
    assert forall id :: id in owners ==> OwnedBy(after, id, owners[id]) by {
      forall id | id in owners
        ensures OwnedBy(after, id, owners[id])
      {
        assert OwnedBy(entries, id, owners[id]);
      }
    }
  }

  /** No two positions share a block. */
  lemma OwnedDisjoint(entries: Entries, blocks: Blocks, owners: Owners, c: Cid, i: nat, d: Cid, j: nat)
    requires Owned(entries, blocks, owners)
    requires c in entries && i < |entries[c].chunks| && d in entries && j < |entries[d].chunks|
    requires entries[c].chunks[i].id == entries[d].chunks[j].id
    ensures c == d && i == j
  {
    assert owners[entries[c].chunks[i].id] == (c, i) && owners[entries[d].chunks[j].id] == (d, j);
  }

  /** Entries with the same chunk lists own the same blocks. */
  lemma OwnedSame(entries: Entries, after: Entries, blocks: Blocks, owners: Owners)
    requires Owned(entries, blocks, owners) && entries.Keys <= after.Keys
    requires forall c :: c in after ==> after[c].chunks == if c in entries then entries[c].chunks else []
    ensures Owned(after, blocks, owners)
  {
    forall id | id in owners
      ensures OwnedBy(after, id, owners[id])
    {
      assert OwnedBy(entries, id, owners[id]);
    }
  }

  /** Dropping an entry with its blocks. */
  lemma OwnedDrop(entries: Entries, blocks: Blocks, owners: Owners, c: Cid)
    requires Owned(entries, blocks, owners) && c in entries
    ensures Owned(entries - {c}, blocks - Ids(entries[c].chunks), owners - Ids(entries[c].chunks))
  {
    var ids := Ids(entries[c].chunks);
    forall id | id in owners - ids
      ensures OwnedBy(entries - {c}, id, owners[id])
    {
      assert OwnedBy(entries, id, owners[id]);
    }
  }

  function Ids(chunks: seq<ChunkRef>): set<nat> {
    set i | 0 <= i < |chunks| :: chunks[i].id
  }

  // ------------------------------------------------------------- where a block lies

  /** Every block lies in the root of its owner, under its id, and nowhere else. */
  ghost predicate Placed(roots: Roots, blocks: Blocks, owners: Owners, rootOf: Cid -> nat) {
    && (forall k :: k in roots ==>
          k.1 in blocks && k.1 in owners && k.0 == rootOf(owners[k.1].0) && roots[k] == blocks[k.1])
    && (forall id :: id in blocks ==> id in owners && (rootOf(owners[id].0), id) in roots)
  }

  /** What lies in the roots is the blocks of the entries, each in the root of its content, and nothing else. */
  lemma StoredIsOwned(roots: Roots, entries: Entries, blocks: Blocks, owners: Owners, rootOf: Cid -> nat)
    requires Owned(entries, blocks, owners) && Placed(roots, blocks, owners, rootOf)
    ensures roots.Keys == set c, i | c in entries && 0 <= i < |entries[c].chunks| :: (rootOf(c), entries[c].chunks[i].id)
  {
    forall k | k in roots.Keys
      ensures k in (set c, i | c in entries && 0 <= i < |entries[c].chunks| :: (rootOf(c), entries[c].chunks[i].id))
    {
      var o := owners[k.1];
      assert OwnedBy(entries, k.1, o);
      assert k == (rootOf(o.0), entries[o.0].chunks[o.1].id);
    }
    forall c, i | c in entries && 0 <= i < |entries[c].chunks|
      ensures (rootOf(c), entries[c].chunks[i].id) in roots.Keys
    {
      assert owners[entries[c].chunks[i].id] == (c, i);
    }
  }

  lemma PlacedPush(roots: Roots, blocks: Blocks, owners: Owners, rootOf: Cid -> nat, id: nat, c: Cid, i: nat, piece: seq<byte>)
    requires Placed(roots, blocks, owners, rootOf) && id !in blocks
    ensures Placed(roots[(rootOf(c), id) := piece], blocks[id := piece], owners[id := (c, i)], rootOf)
  {
    assert forall k :: k in roots ==> k.1 != id;
  }

  function KeysIn(root: nat, chunks: seq<ChunkRef>): set<(nat, nat)> {
    set i | 0 <= i < |chunks| :: (root, chunks[i].id)
  }

  lemma PlacedDrop(roots: Roots, entries: Entries, blocks: Blocks, owners: Owners, rootOf: Cid -> nat, c: Cid)
    requires Placed(roots, blocks, owners, rootOf) && Owned(entries, blocks, owners) && c in entries
    ensures var chunks := entries[c].chunks;
      Placed(roots - KeysIn(rootOf(c), chunks), blocks - Ids(chunks), owners - Ids(chunks), rootOf)
  {
    var chunks := entries[c].chunks;
    assert forall i :: 0 <= i < |chunks| ==> chunks[i].id in owners && owners[chunks[i].id] == (c, i);
    assert forall i :: 0 <= i < |chunks| ==> chunks[i].id in Ids(chunks) && (rootOf(c), chunks[i].id) in KeysIn(rootOf(c), chunks);
    forall k | k in roots - KeysIn(rootOf(c), chunks)
      ensures k.1 !in Ids(chunks)
    {
      assert k == (rootOf(owners[k.1].0), k.1);
    }
  }

  /** A chunk of an entry is found in a root exactly when that is the entry's. */
  lemma PlacedAt(roots: Roots, entries: Entries, blocks: Blocks, owners: Owners, rootOf: Cid -> nat, c: Cid, i: nat, root: nat)
    requires Placed(roots, blocks, owners, rootOf) && Owned(entries, blocks, owners)
    requires c in entries && i < |entries[c].chunks|
    ensures var id := entries[c].chunks[i].id;
      && id in blocks
      && ((root, id) in roots <==> root == rootOf(c))
      && ((root, id) in roots ==> roots[(root, id)] == blocks[id])
  {
    assert owners[entries[c].chunks[i].id] == (c, i);
  }

  // ------------------------------------------------------------ what a run keeps

  /** Refcounts are the outstanding pins. */
  ghost predicate Counted(entries: Entries, pins: map<Cid, nat>) {
    pins.Keys == entries.Keys
    && forall c :: c in entries ==> entries[c].refcount == pins[c] && 0 < pins[c] < TWO32
  }

  /** Every entry holds what was put under its name. */
  ghost predicate Kept(entries: Entries, contents: map<Cid, seq<byte>>, blocks: Blocks) {
    contents.Keys == entries.Keys && forall c :: c in entries ==> Holds(entries[c], contents[c], blocks)
  }

  lemma KeptFrame(entries: Entries, contents: map<Cid, seq<byte>>, blocks: Blocks, owners: Owners, other: Blocks)
    requires Kept(entries, contents, blocks) && Owned(entries, blocks, owners)
    requires forall id :: id in blocks ==> id in other && other[id] == blocks[id]
    ensures Kept(entries, contents, other)
  {
    hide Holds;
    forall c | c in entries
      ensures Holds(entries[c], contents[c], other)
    {
      HoldsFrame(entries[c], contents[c], blocks, other);
    }
  }

  lemma KeptDrop(entries: Entries, contents: map<Cid, seq<byte>>, blocks: Blocks, owners: Owners, c: Cid)
    requires Kept(entries, contents, blocks) && Owned(entries, blocks, owners) && c in entries
    ensures Kept(entries - {c}, contents - {c}, blocks - Ids(entries[c].chunks))
  {
    hide Holds;
    forall d | d in entries && d != c
      ensures Holds(entries[d], contents[d], blocks - Ids(entries[c].chunks))
    {
      forall i | 0 <= i < |entries[d].chunks|
        ensures entries[d].chunks[i].id !in Ids(entries[c].chunks)
      {
        assert owners[entries[d].chunks[i].id] == (d, i);
      }
      HoldsFrame(entries[d], contents[d], blocks, blocks - Ids(entries[c].chunks));
    }
  }

  /** The id of the block with a sequence number: the low 56 bits, below the number modulo the shards. */
  function IdOf(seqNo: nat, shards: Shards): nat {
    seqNo % shards * TWO56 % TWO64 + seqNo % TWO56
  }

  /** The id of the k-th block allocated from a sequence number on. */
  function IdAt(seqNo: nat, k: nat, shards: Shards): nat {
    IdOf((seqNo + k) % TWO64, shards)
  }

  /** The low 56 bits of an id are those of its sequence number. */
  lemma IdLow(seqNo: nat, shards: Shards)
    ensures IdOf(seqNo, shards) % TWO56 == seqNo % TWO56
  {
    var a := seqNo % shards;
    var q := a * TWO56 / TWO64;
    assert a * TWO56 % TWO64 == (a - q * 256) * TWO56;
    LowBits(a - q * 256, seqNo % TWO56);
  }

  /** Until the numbers pass 2^56 an id shows its number. */
  lemma IdAtLow(seqNo: nat, k: nat, shards: Shards)
    requires seqNo + k < TWO56
    ensures IdAt(seqNo, k, shards) % TWO56 == seqNo + k
  {
    hide IdOf;
    IdLow(seqNo + k, shards);
  }

  lemma NextNumber(x: nat)
    ensures (x % TWO64 + 1) % TWO64 == (x + 1) % TWO64
  {
  }

  lemma IdAtWrapped(seqNo: nat, k: nat, shards: Shards)
    ensures IdAt((seqNo + k) % TWO64, 0, shards) == IdAt(seqNo, k, shards)
  {
    hide IdOf;
  }

  lemma LowBits(k: int, y: nat)
    requires y < TWO56
    ensures (k * TWO56 + y) % TWO56 == y
  {
  }

  function ChunkCount(n: nat): nat {
    (n + CHUNK - 1) / CHUNK
  }

  /** The next n ids are not in use. */
  predicate Fresh(seqNo: nat, n: nat, blocks: Blocks, shards: Shards) {
    forall k: nat :: k < n ==> IdAt(seqNo, k, shards) !in blocks
  }

  /** Two new blocks that take the id of a stored one have no owner in common with it. */
  lemma SharedIsNotOwned(entries: Entries, blocks: Blocks, owners: Owners, after: Entries, more: Blocks, others: Owners,
                         c: Cid, k: nat)
    requires Owned(entries, blocks, owners) && c !in entries
    requires c in after && k < |after[c].chunks| && after[c].chunks[k].id in blocks
    requires forall d :: d in entries ==> d in after && after[d] == entries[d]
    ensures !Owned(after, more, others)
  {
    var id := after[c].chunks[k].id;
    assert OwnedBy(entries, id, owners[id]);
    var o := owners[id];
    if Owned(after, more, others) {
      OwnedDisjoint(after, more, others, c, k, o.0, o.1);
    }
  }

  /** Until 2^56 blocks have been allocated every next id is fresh. */
  lemma SequentialIsFresh(seqNo: nat, n: nat, blocks: Blocks, shards: Shards)
    requires seqNo + n <= TWO56 && forall id :: id in blocks ==> id % TWO56 < seqNo
    ensures Fresh(seqNo, n, blocks, shards)
  {
    hide IdAt;
    forall k: nat | k < n
      ensures IdAt(seqNo, k, shards) !in blocks
    {
      IdAtLow(seqNo, k, shards);
    }
  }

  class ContentStore {
    /** The digest behind compute_cid. */
    const sha: seq<byte> -> seq<byte>
    const shards: Shards
    /** The roots of contents and of block ids. */
    const rootOf: Cid -> nat
    const rootOfBlock: nat -> nat
    var entries: Entries
    var roots: Roots
    var nextSeq: nat
    ghost var blocks: Blocks
    ghost var owners: Owners
    /** For each entry, the puts and pins not yet unpinned. */
    ghost var pins: map<Cid, nat>
    /** For each entry, what the put that created it stored. */
    ghost var contents: map<Cid, seq<byte>>

    ghost predicate Valid()
      reads this
    {
      && Counted(entries, pins) && Kept(entries, contents, blocks)
      && Owned(entries, blocks, owners) && Placed(roots, blocks, owners, rootOf) && nextSeq < TWO64
    }

    /** No sequence number has been used twice. */
    ghost predicate Sequential()
      reads this
    {
      nextSeq <= TWO56 && forall id :: id in blocks ==> id % TWO56 < nextSeq
    }

    /** The roots are those of the database's hash of the key, for as many roots as there are. */
    ghost predicate Wired() {
      && (forall c :: rootOf(c) == Keys.CasShard(c, shards))
      && (forall id :: rootOfBlock(id) == Keys.BlockShard(id, shards))
    }

    constructor (digest: seq<byte> -> seq<byte>, count: Shards)
      ensures Valid() && Sequential() && entries == map[] && nextSeq == 1 && sha == digest && shards == count
      ensures Wired()
    {
      sha, shards := digest, count;
      rootOf := (c: Cid) => Keys.CasShard(c, count);
      rootOfBlock := (id: nat) => Keys.BlockShard(id, count);
      entries, roots, nextSeq := map[], map[], 1;
      blocks := map[];
      owners, pins, contents := map[], map[], map[];
    }

    /** A content is stored exactly while it is pinned. */
    lemma SameKeys()
      requires Valid()
      ensures contents.Keys == pins.Keys == entries.Keys
    {
    }

    lemma CountOf(c: Cid)
      requires Valid() && c in entries
      ensures c in pins && entries[c].refcount == pins[c]
    {
    }

    // -------------------------------------------------------------- block store

    /** Writes a block to the root of the transaction it is part of. */
    method AllocBlock(root: nat, data: seq<byte>) returns (id: nat)
      requires |data| <= CHUNK && nextSeq < TWO64
      modifies this`roots, this`blocks, this`nextSeq
      ensures id == IdAt(old(nextSeq), 0, shards)
      ensures roots == old(roots)[(root, id) := data] && blocks == old(blocks)[id := data]
      ensures nextSeq == (old(nextSeq) + 1) % TWO64
    {
      var shard := nextSeq % shards;
      id := shard * TWO56 % TWO64 + nextSeq % TWO56;
      assert nextSeq % TWO64 == nextSeq;
      nextSeq := (nextSeq + 1) % TWO64;
      roots := roots[(root, id) := data];
      blocks := blocks[id := data];
    }

    // ---------------------------------------------------------------------- put

    /** The put can keep the invariant. */
    ghost predicate PutSound(data: seq<byte>)
      reads this
    {
      var c := Unixfs.ComputeCid(data, sha);
      if c in entries then entries[c].refcount + 1 < TWO32
      else |data| <= CHUNK || Fresh(nextSeq, ChunkCount(|data|), blocks, shards)
    }

    method Put(data: seq<byte>) returns (c: Cid)
      requires Valid() && |data| < TWO64
      modifies this
      ensures c == Unixfs.ComputeCid(data, sha)
      ensures contents == if c in old(contents) then old(contents) else old(contents)[c := data]
      ensures pins == old(pins)[c := (if c in old(pins) then old(pins)[c] else 0) + 1]
      ensures Valid() <==> old(PutSound(data))
      ensures old(Sequential()) && old(nextSeq) + ChunkCount(|data|) <= TWO56 ==> Sequential()
      ensures c !in old(entries) ==>
        && c in entries && |entries[c].chunks| == (if |data| <= CHUNK then 0 else ChunkCount(|data|))
        && Numbered(entries[c].chunks, old(nextSeq), shards)
    {
      hide Kept, Owned, Placed, Counted, Fresh, ChunkCount, IdAt;
      c := Unixfs.ComputeCidOf(data, sha);
      KeptKeys(entries, contents, blocks);
      CountedKeys(entries, pins);
      if c in entries {
        Repin(c);
        return;
      }
      if |data| <= CHUNK {
        AddInline(c, data);
      } else {
        AddChunked(c, data);
      }
    }

    method AddInline(c: Cid, data: seq<byte>)
      requires Valid() && c !in entries && |data| <= CHUNK
      modifies this`entries, this`contents, this`pins
      ensures contents == old(contents)[c := data] && pins == old(pins)[c := 1] && Valid()
      ensures c in entries && entries[c].chunks == []
    {
      hide Kept, Owned, Placed;
      var e := Entry(1, |data|, data, []);
      KeptAdd(entries, contents, blocks, c, e, data);
      OwnedSame(entries, entries[c := e], blocks, owners);
      entries := entries[c := e];
      contents := contents[c := data];
      pins := pins[c := 1];
    }

    method AddChunked(c: Cid, data: seq<byte>)
      requires Valid() && c !in entries && CHUNK < |data| < TWO64
      modifies this
      ensures contents == old(contents)[c := data] && pins == old(pins)[c := 1]
      ensures Valid() <==> old(Fresh(nextSeq, ChunkCount(|data|), blocks, shards))
      ensures old(Sequential()) && old(nextSeq) + ChunkCount(|data|) <= TWO56 ==> Sequential()
      ensures c in entries && |entries[c].chunks| == ChunkCount(|data|) && Numbered(entries[c].chunks, old(nextSeq), shards)
    {
      hide Kept, Owned, Placed, Holds, Fresh, Numbered, Ids, ChunkCount;
      ghost var were, owned, seqNo, n := blocks, owners, nextSeq, ChunkCount(|data|);
      var chunks := StoreChunks(c, data);
      var e := Entry(1, |data|, [], chunks);
      if Fresh(seqNo, n, were, shards) {
        KeptFrame(entries, contents, were, owned, blocks);
        KeptAdd(entries, contents, blocks, c, e, data);
      } else {
        StaleIsShared(entries, were, owned, c, e, seqNo, n, blocks, owners, shards);
      }
      NumberedBound(chunks, seqNo, shards);
      entries := entries[c := e];
      contents := contents[c := data];
      pins := pins[c := 1];
    }

    /** One turn of the cutting loop. */
    method StoreChunk(c: Cid, ghost chunks: seq<ChunkRef>, piece: seq<byte>, ghost data: seq<byte>, ghost seqNo: nat, ghost were: Blocks)
      returns (ref: ChunkRef)
      requires Storing(entries, c, data, seqNo, were, chunks, blocks, owners, shards)
      requires Fresh(seqNo, ChunkCount(|data|), were, shards) ==> Placed(roots, blocks, owners, rootOf)
      requires c !in entries && |data| < TWO64 && |chunks| * CHUNK < |data| && nextSeq == (seqNo + |chunks|) % TWO64
      requires piece == data[|chunks| * CHUNK..Reached(|chunks| + 1, |data|)]
      modifies this`roots, this`blocks, this`nextSeq, this`owners
      ensures Storing(entries, c, data, seqNo, were, chunks + [ref], blocks, owners, shards)
      ensures Fresh(seqNo, ChunkCount(|data|), were, shards) ==> Placed(roots, blocks, owners, rootOf)
      ensures nextSeq == (seqNo + |chunks| + 1) % TWO64
    {
      hide Placed, Storing, Fresh, ChunkCount, IdAt;
      StoringStep(entries, c, data, seqNo, were, chunks, blocks, owners, piece, shards);
      if Fresh(seqNo, ChunkCount(|data|), were, shards) {
        StoringFresh(entries, c, data, seqNo, were, chunks, blocks, owners, shards);
        PlacedPush(roots, blocks, owners, rootOf, IdAt(nextSeq, 0, shards), c, |chunks|, piece);
      }
      NextNumber(seqNo + |chunks|);
      var id := AllocBlock(rootOf(c), piece);
      owners := owners[id := (c, |chunks|)];
      ref := ChunkRef(id, 0, |piece|);
    }

    /** Cuts the data into blocks. */
    method StoreChunks(c: Cid, data: seq<byte>) returns (chunks: seq<ChunkRef>)
      requires Owned(entries, blocks, owners) && Placed(roots, blocks, owners, rootOf)
      requires nextSeq < TWO64 && c !in entries && CHUNK < |data| < TWO64
      modifies this`roots, this`blocks, this`nextSeq, this`owners
      ensures Holds(Pending(data, chunks), data, blocks)
      ensures |chunks| == ChunkCount(|data|) && nextSeq == (old(nextSeq) + |chunks|) % TWO64
      ensures Numbered(chunks, old(nextSeq), shards) && blocks.Keys == old(blocks).Keys + Ids(chunks)
      ensures old(Fresh(nextSeq, ChunkCount(|data|), blocks, shards)) ==>
        && Owned(entries[c := Pending(data, chunks)], blocks, owners) && Placed(roots, blocks, owners, rootOf)
        && forall id :: id in old(blocks) ==> id in blocks && blocks[id] == old(blocks)[id]
    {
      hide Owned, Placed, Storing, Holds, Fresh, Numbered, Ids, ChunkCount, Pending, IdAt;
      chunks := [];
      var off := 0;
      StoringBegins(entries, c, data, nextSeq, blocks, owners, shards);
      ghost var unused := Fresh(nextSeq, ChunkCount(|data|), blocks, shards);
      while off < |data|
        invariant off == Reached(|chunks|, |data|) && nextSeq == (old(nextSeq) + |chunks|) % TWO64
        invariant Storing(entries, c, data, old(nextSeq), old(blocks), chunks, blocks, owners, shards)
        invariant unused ==> Placed(roots, blocks, owners, rootOf)
        decreases |data| - off
      {
        var len := if CHUNK <= |data| - off then CHUNK else |data| - off;
        var piece := data[off..off + len];
        var ref := StoreChunk(c, chunks, piece, data, old(nextSeq), old(blocks));
        chunks := chunks + [ref];
        off := off + len;
      }
      StoringEnds(entries, c, data, old(nextSeq), old(blocks), chunks, blocks, owners, shards);
    }

    method Repin(c: Cid)
      requires Valid() && c in entries
      modifies this`entries, this`pins
      ensures pins == old(pins)[c := old(pins)[c] + 1]
      ensures Valid() <==> old(entries[c].refcount) + 1 < TWO32
    {
      hide Kept, Owned, Placed;
      ghost var before := entries;
      entries := entries[c := entries[c].(refcount := (entries[c].refcount + 1) % TWO32)];
      pins := pins[c := pins[c] + 1];
      OwnedSame(before, entries, blocks, owners);
      KeptRecount(before, contents, blocks, c, entries[c].refcount);
    }

    // ------------------------------------------------------------- pin and unpin

    method Pin(c: Cid) returns (r: Result<(), Error>)
      requires Valid()
      modifies this`entries, this`pins
      ensures r == if c in old(entries) then Ok(()) else Err(NotFound)
      ensures r.Err? ==> entries == old(entries) && pins == old(pins)
      ensures r.Ok? ==> pins == old(pins)[c := old(pins)[c] + 1]
      ensures Valid() <==> c !in old(entries) || old(entries[c].refcount) + 1 < TWO32
    {
      if c !in entries {
        return Err(NotFound);
      }
      Repin(c);
      return Ok(());
    }

    method Unpin(c: Cid)
      requires Valid()
      modifies this
      ensures Valid() && (old(Sequential()) ==> Sequential())
      ensures c !in old(pins) ==> pins == old(pins) && contents == old(contents)
      ensures c in old(pins) && old(pins)[c] > 1 ==>
        pins == old(pins)[c := old(pins)[c] - 1] && contents == old(contents)
      ensures c in old(pins) && old(pins)[c] <= 1 ==> pins == old(pins) - {c} && contents == old(contents) - {c}
    {
      hide Kept, Owned, Placed;
      if c !in entries {
        return;
      }
      ghost var before := entries;
      if entries[c].refcount <= 1 {
        OwnedDrop(entries, blocks, owners, c);
        KeptDrop(entries, contents, blocks, owners, c);
        PlacedDrop(roots, entries, blocks, owners, rootOf, c);
        FreeBlocks(rootOf(c), entries[c].chunks);
        owners := owners - Ids(entries[c].chunks);
        entries := entries - {c};
        pins := pins - {c};
        contents := contents - {c};
      } else {
        entries := entries[c := entries[c].(refcount := entries[c].refcount - 1)];
        pins := pins[c := pins[c] - 1];
        OwnedSame(before, entries, blocks, owners);
        KeptRecount(before, contents, blocks, c, entries[c].refcount);
      }
    }

    method FreeBlocks(root: nat, chunks: seq<ChunkRef>)
      modifies this`roots, this`blocks
      ensures roots == old(roots) - KeysIn(root, chunks) && blocks == old(blocks) - Ids(chunks)
    {
      for i := 0 to |chunks|
        invariant roots == old(roots) - KeysIn(root, chunks[..i]) && blocks == old(blocks) - Ids(chunks[..i])
      {
        IdsPush(chunks[..i], chunks[i]);
        KeysPush(root, chunks[..i], chunks[i]);
        assert chunks[..i + 1] == chunks[..i] + [chunks[i]];
        roots := roots - {(root, chunks[i].id)};
        blocks := blocks - {chunks[i].id};
      }
      assert chunks[..|chunks|] == chunks;
    }

    // --------------------------------------------------------------------- reads

    /** Looks for a block in the root of its id. */
    method ReadBlock(id: nat) returns (r: Result<seq<byte>, Error>)
      ensures r == if (rootOfBlock(id), id) in roots then Ok(roots[(rootOfBlock(id), id)]) else Err(BlockNotFound)
    {
      var key := (rootOfBlock(id), id);
      if key !in roots {
        return Err(BlockNotFound);
      }
      return Ok(roots[key]);
    }

    /** The same for a part of it; the sum wraps, and so a length that wrapped passes the test and fails to be allocated. */
    method ReadBlockRange(id: nat, offset: nat, length: nat) returns (r: Result<seq<byte>, Error>)
      requires offset < TWO63 && length < TWO64
      ensures (rootOfBlock(id), id) !in roots ==> r == Err(BlockNotFound)
      ensures (rootOfBlock(id), id) in roots ==>
        var block := roots[(rootOfBlock(id), id)];
        && (offset + length <= |block| && length < TWO63 ==> r == Ok(block[offset..offset + length]))
        && ((offset + length) % TWO64 > |block| ==> r == Err(OutOfBounds))
        && ((offset + length) % TWO64 <= |block| && length >= TWO63 ==> r == Err(LengthError))
    {
      var key := (rootOfBlock(id), id);
      if key !in roots {
        return Err(BlockNotFound);
      }
      var block := roots[key];
      if (offset + length) % TWO64 > |block| {
        return Err(OutOfBounds);
      }
      if length >= TWO63 {
        return Err(LengthError);
      }
      return Ok(block[offset..offset + length]);
    }

    /** The chunk is looked for where it was written. */
    predicate Found(c: Cid, ref: ChunkRef) {
      rootOfBlock(ref.id) == rootOf(c)
    }

    ghost predicate AllFound(c: Cid, chunks: seq<ChunkRef>) {
      forall i :: 0 <= i < |chunks| ==> Found(c, chunks[i])
    }

    /** The whole content can be read back. */
    ghost predicate Loadable(c: Cid)
      reads this
    {
      c in entries && AllFound(c, entries[c].chunks)
    }

    method Get(c: Cid) returns (r: Result<seq<byte>, Error>)
      requires Valid()
      ensures r == if c !in contents then Err(NotFound)
                   else if Loadable(c) then Ok(contents[c])
                   else Err(BlockNotFound)
    {
      hide Owned, Placed, Counted, Joined, Readable;
      if c !in entries {
        return Err(NotFound);
      }
      var e := entries[c];
      if e.inline != [] {
        return Ok(e.inline);
      }
      var data := [];
      JoinedNone(blocks);
      for i := 0 to |e.chunks|
        invariant Readable(e.chunks[..i], blocks) && data == Joined(e.chunks[..i], blocks)
        invariant forall j :: 0 <= j < i ==> Found(c, e.chunks[j])
      {
        PieceAt(e.chunks, blocks, i);
        PlacedAt(roots, entries, blocks, owners, rootOf, c, i, rootOfBlock(e.chunks[i].id));
        var block := ReadBlock(e.chunks[i].id);
        if block.Err? {
          return block;
        }
        data := data + block.value[e.chunks[i].offset..e.chunks[i].offset + e.chunks[i].size];
      }
      assert e.chunks[..|e.chunks|] == e.chunks;
      return Ok(data);
    }

    /** What both range readers take from the chunk at position filePos, for the range up to end. */
    method ReadChunk(c: Cid, i: nat, filePos: nat, offset: nat, end: nat) returns (r: Result<seq<byte>, Error>)
      requires Owned(entries, blocks, owners) && Placed(roots, blocks, owners, rootOf)
      requires c in entries && i < |entries[c].chunks| && Readable([entries[c].chunks[i]], blocks)
      requires filePos < end < TWO64 && offset < filePos + entries[c].chunks[i].size
      ensures var ref := entries[c].chunks[i];
        r == if !Found(c, ref) then Err(BlockNotFound)
             else if offset > end then Err(LengthError)
             else Ok(Piece(ref, blocks)[From(filePos, offset)..Upto(ref, filePos, end)])
    {
      hide Owned, Placed;
      var ref := entries[c].chunks[i];
      PlacedAt(roots, entries, blocks, owners, rootOf, c, i, rootOfBlock(ref.id));
      assert [ref][0] == ref;
      var readStart := From(filePos, offset);
      var readEnd := Upto(ref, filePos, end);
      assert (offset > end <==> readStart > readEnd) && readStart <= ref.size && readEnd <= ref.size;
      hide From, Upto;
      RangeOf(blocks[ref.id], ref.offset, ref.size, readStart, readEnd);
      r := ReadBlockRange(ref.id, ref.offset + readStart, (readEnd - readStart) % TWO64);
    }

    /** A range takes something from the i-th chunk. */
    predicate Touches(chunks: seq<ChunkRef>, i: nat, offset: nat, end: nat)
      requires i < |chunks|
    {
      i * CHUNK < end && offset < i * CHUNK + chunks[i].size
    }

    /** A chunk the range needs is not looked for where it was written. */
    ghost predicate Missed(c: Cid, chunks: seq<ChunkRef>, offset: nat, end: nat) {
      exists i: nat :: i < |chunks| && Touches(chunks, i, offset, end) && !Found(c, chunks[i])
    }

    /** Reading the whole range is reading the content. */
    lemma WholeRange(c: Cid)
      requires Valid() && c in contents
      ensures c in entries && |contents[c]| < TWO64 && Slice(contents[c], 0, |contents[c]|) == contents[c]
      ensures Missed(c, entries[c].chunks, 0, |contents[c]|) <==> !Loadable(c)
      ensures |contents[c]| <= CHUNK ==> Loadable(c)
    {
      hide Owned, Placed, Counted, Joined, Readable, Found;
      var chunks, n := entries[c].chunks, |contents[c]|;
      forall i: nat | i < |chunks|
        ensures Touches(chunks, i, 0, n)
      {
        LastCut(chunks, n);
      }
      if !Loadable(c) {
        var i :| 0 <= i < |chunks| && !Found(c, chunks[i]);
        assert Touches(chunks, i, 0, n);
      }
    }

    /**
     The loop of both range readers. A range that ends before it starts, because
     its end wrapped, comes out empty unless a chunk holds both of its ends.
     */
    method ReadChunks(c: Cid, offset: nat, end: nat) returns (r: Result<seq<seq<byte>>, Error>)
      requires Owned(entries, blocks, owners) && Placed(roots, blocks, owners, rootOf)
      requires c in entries && Readable(entries[c].chunks, blocks)
      requires end <= |Joined(entries[c].chunks, blocks)| < TWO64
      requires CutAt(entries[c].chunks, |Joined(entries[c].chunks, blocks)|)
      ensures offset <= end && Missed(c, entries[c].chunks, offset, end) ==> r == Err(BlockNotFound)
      ensures offset <= end && !Missed(c, entries[c].chunks, offset, end) ==>
        r.Ok? && Concat(r.value) == Joined(entries[c].chunks, blocks)[offset..end]
      ensures offset > end ==> forall i: nat :: i < |entries[c].chunks| && Touches(entries[c].chunks, i, offset, end) ==>
        r == Err(if Found(c, entries[c].chunks[i]) then LengthError else BlockNotFound)
      ensures offset > end && (forall i: nat :: i < |entries[c].chunks| ==> !Touches(entries[c].chunks, i, offset, end)) ==>
        r == Ok([])
    {
      hide Owned, Placed, Joined, Readable, Piece, From, Upto, Concat, Found;
      var chunks := entries[c].chunks;
      ghost var content := Joined(chunks, blocks);
      var calls: seq<seq<byte>> := [];
      var filePos, i := 0, 0;
      JoinedNone(blocks);
      ConcatNone();
      assert chunks == [] ==> content == [];
      while i < |chunks|
        invariant 0 <= i <= |chunks| && Readable(chunks[..i], blocks) && filePos == |Joined(chunks[..i], blocks)|
        invariant i < |chunks| ==> filePos == i * CHUNK
        invariant offset <= end ==> Concat(calls) == content[offset..Clip(filePos, offset, end)]
        invariant offset > end ==> calls == []
        invariant forall j: nat :: j < i && Touches(chunks, j, offset, end) ==> Found(c, chunks[j]) && offset <= end
      {
        var ref := chunks[i];
        PieceAt(chunks, blocks, i);
        var chunkEnd := filePos + ref.size;
        if filePos >= end {
          break;
        }
        if chunkEnd > offset {
          assert Touches(chunks, i, offset, end);
          var block := ReadChunk(c, i, filePos, offset, end);
          if block.Err? {
            OnlyOne(chunks, |content|, i, offset, end);
            return Err(block.error);
          }
          RangeStep(content, Piece(ref, blocks), ref, filePos, offset, end);
          ConcatPush(calls, block.value);
          calls := calls + [block.value];
        }
        filePos := chunkEnd;
        i := i + 1;
      }
      assert chunks[..|chunks|] == chunks;
      return Ok(calls);
    }

    /** A range that ends before it starts touches one chunk at most. */
    lemma OnlyOne(chunks: seq<ChunkRef>, n: nat, i: nat, offset: nat, end: nat)
      requires CutAt(chunks, n) && i < |chunks| && Touches(chunks, i, offset, end)
      ensures end < offset ==> forall j: nat :: j < |chunks| && Touches(chunks, j, offset, end) ==> j == i
    {
      assert forall j: nat :: j < |chunks| ==> chunks[j].size <= CHUNK;
    }

    /** The length octets from an offset on, if there are so many. */
    function Slice(content: seq<byte>, offset: nat, length: nat): seq<byte> {
      if offset + length <= |content| then content[offset..offset + length] else []
    }

    /** An end computed in 64 bits. */
    function End(offset: nat, length: nat): nat {
      (offset + length) % TWO64
    }

    lemma EndCases(offset: nat, length: nat)
      requires offset < TWO64 && length < TWO64
      ensures End(offset, length) == if offset + length < TWO64 then offset + length else offset + length - TWO64
    {
    }

    /**
     The slice of what was put, if the chunks it needs are found. The sum is not
     tested for a wrap: past 2^64 an inline content is read outside its octets, and
     a chunked one reads as empty or asks for more than a vector can hold.
     */
    method GetRange(c: Cid, offset: nat, length: nat) returns (r: Result<seq<byte>, Error>)
      requires Valid() && offset < TWO64 && length < TWO64
      ensures c !in contents ==> r == Err(NotFound)
      ensures c in contents && End(offset, length) > |contents[c]| ==> r == Err(OutOfBounds)
      ensures c in contents && End(offset, length) <= |contents[c]| ==>
        var content, inline := contents[c], 0 < |contents[c]| <= CHUNK;
        && (inline && offset + length < TWO64 ==> r == Ok(Slice(content, offset, length)))
        && (inline && offset + length >= TWO64 ==> r == Err(Undefined))
        && (!inline && length >= TWO63 ==> r == Err(LengthError))
        && (!inline && length < TWO63 && offset + length >= TWO64 ==> r == Ok([]))
        && (!inline && length < TWO63 && offset + length < TWO64 ==>
              r == if Missed(c, entries[c].chunks, offset, offset + length) then Err(BlockNotFound)
                   else Ok(Slice(content, offset, length)))
    {
      hide Owned, Placed, Counted, Joined, Readable, Kept, Concat, Missed, Touches, CutAt, Found;
      EndCases(offset, length);
      KeptKeys(entries, contents, blocks);
      if c !in entries {
        return Err(NotFound);
      }
      var e := entries[c];
      ghost var content := contents[c];
      KeptAt(entries, contents, blocks, c);
      var end := End(offset, length);
      if end > e.totalSize {
        return Err(OutOfBounds);
      }
      if e.inline != [] {
        if offset > end {
          return Err(Undefined);
        }
        return Ok(e.inline[offset..end]);
      }
      if length >= TWO63 {
        return Err(LengthError);
      }
      var pieces := ReadChunks(c, offset, end);
      if offset > end {
        NoneTouched(e.chunks, |content|, offset, end);
        ConcatNone();
      }
      if pieces.Err? {
        return Err(pieces.error);
      }
      return Ok(Concat(pieces.value));
    }

    lemma NoneTouched(chunks: seq<ChunkRef>, n: nat, offset: nat, end: nat)
      requires CutAt(chunks, n) && offset - end > CHUNK
      ensures forall i: nat :: i < |chunks| ==> !Touches(chunks, i, offset, end)
    {
      assert forall j: nat :: j < |chunks| ==> chunks[j].size <= CHUNK;
    }

    /** The same range, handed to a callback piece by piece; an inline entry makes one call. */
    method Read(c: Cid, offset: nat, length: nat) returns (r: Result<seq<seq<byte>>, Error>)
      requires Valid() && offset < TWO64 && length < TWO64
      ensures c !in contents ==> r == Err(NotFound)
      ensures c in contents && End(offset, length) > |contents[c]| ==> r == Err(OutOfBounds)
      ensures c in contents && End(offset, length) <= |contents[c]| ==>
        var content, inline, chunks := contents[c], 0 < |contents[c]| <= CHUNK, entries[c].chunks;
        && (inline && offset + length < TWO64 ==> r == Ok([Slice(content, offset, length)]))
        && (inline && offset + length >= TWO64 ==> r == Err(Undefined))
        && (!inline && offset + length < TWO64 ==>
              if Missed(c, chunks, offset, offset + length) then r == Err(BlockNotFound)
              else r.Ok? && Concat(r.value) == Slice(content, offset, length))
        && (!inline && offset + length >= TWO64 ==>
              && (forall i: nat :: i < |chunks| && Touches(chunks, i, offset, End(offset, length)) ==>
                    r == Err(if Found(c, chunks[i]) then LengthError else BlockNotFound))
              && ((forall i: nat :: i < |chunks| ==> !Touches(chunks, i, offset, End(offset, length))) ==> r == Ok([])))
    {
      hide Owned, Placed, Counted, Joined, Readable, Kept, Concat, Missed, Touches, CutAt, Found;
      EndCases(offset, length);
      KeptKeys(entries, contents, blocks);
      if c !in entries {
        return Err(NotFound);
      }
      var e := entries[c];
      ghost var content := contents[c];
      KeptAt(entries, contents, blocks, c);
      var end := End(offset, length);
      if end > e.totalSize {
        return Err(OutOfBounds);
      }
      if e.inline != [] {
        if offset > end {
          return Err(Undefined);
        }
        return Ok([e.inline[offset..end]]);
      }
      r := ReadChunks(c, offset, end);
    }

    /** Putting new data and reading it back gives it back exactly when it is inline or every block is looked for where it was written. */
    method PutThenGet(data: seq<byte>) returns (r: Result<seq<byte>, Error>)
      requires Valid() && |data| < TWO64 && PutSound(data) && Unixfs.ComputeCid(data, sha) !in entries
      modifies this
      ensures r == Ok(data) || r == Err(BlockNotFound)
      ensures var c := Unixfs.ComputeCid(data, sha);
        r == Ok(data) <==> |data| <= CHUNK || forall k: nat :: k < ChunkCount(|data|) ==>
          rootOfBlock(IdAt(old(nextSeq), k, shards)) == rootOf(c)
    {
      hide Kept, Owned, Placed, Counted, IdAt, ChunkCount, Unixfs.ComputeCid;
      SameKeys();
      ghost var seqNo := nextSeq;
      var c := Put(data);
      r := Get(c);
      ghost var chunks := entries[c].chunks;
      assert forall k: nat :: k < |chunks| ==> chunks[k].id == IdAt(seqNo, k, shards);
    }
  }

  /** With one root everything is looked for where it was written. */
  lemma OneRootFinds(store: ContentStore, c: Cid)
    requires store.Wired() && store.shards == 1 && c in store.entries
    ensures store.Loadable(c)
  {
    var chunks := store.entries[c].chunks;
    forall i | 0 <= i < |chunks|
      ensures store.Found(c, chunks[i])
    {
      Keys.OneRoot(c, chunks[i].id);
    }
  }

  /** With the default of 256 roots the first block of a new store is missed by every content but those of root 130. */
  lemma ManyRootsMiss(c: Cid)
    ensures Keys.BlockShard(IdAt(1, 0, 256), 256) == Keys.CasShard(c, 256) <==> Keys.CasShard(c, 256) == 130
  {
    hide Keys.CasShard, Keys.BlockShard, IdAt;
    assert IdAt(1, 0, 256) == 0x0100_0000_0000_0001 by { FirstId(); }
    Keys.FirstShard();
  }

  lemma FirstId()
    ensures IdAt(1, 0, 256) == 0x0100_0000_0000_0001
  {
  }

  lemma SomeChunks(n: nat)
    requires CHUNK < n < TWO64
    ensures 0 < ChunkCount(n) < TWO56
  {
  }

  lemma Puttable(store: ContentStore, data: seq<byte>)
    requires store.entries == map[] && store.Sequential() && store.nextSeq == 1 && CHUNK < |data| < TWO64
    ensures store.PutSound(data)
  {
    hide ChunkCount, Fresh, Unixfs.ComputeCid;
    SomeChunks(|data|);
    SequentialIsFresh(1, ChunkCount(|data|), store.blocks, store.shards);
  }

  /** A new store of 256 roots does not give back the first content of more than a chunk, unless its root is 130. */
  method FirstPutIsLost(digest: seq<byte> -> seq<byte>, data: seq<byte>) returns (r: Result<seq<byte>, Error>)
    requires CHUNK < |data| < TWO64 && Keys.CasShard(Unixfs.ComputeCid(data, digest), 256) != 130
    ensures r == Err(BlockNotFound)
  {
    hide ChunkCount, IdAt, Keys.CasShard, Keys.BlockShard, Unixfs.ComputeCid, ContentStore.PutSound, ContentStore.Valid,
         ContentStore.Sequential;
    var store := new ContentStore(digest, 256);
    ghost var c := Unixfs.ComputeCid(data, digest);
    ManyRootsMiss(c);
    SomeChunks(|data|);
    Puttable(store, data);
    assert store.rootOfBlock(IdAt(1, 0, 256)) != store.rootOf(c);
    r := store.PutThenGet(data);
  }

  function From(filePos: nat, offset: nat): nat {
    if offset > filePos then offset - filePos else 0
  }

  function Upto(ref: ChunkRef, filePos: nat, end: nat): nat
    requires filePos <= end
  {
    if ref.size <= end - filePos then ref.size else end - filePos
  }

  /** How far a range is filled once the first filePos octets have been seen. */
  function Clip(filePos: nat, offset: nat, end: nat): nat
    requires offset <= end
  {
    if filePos <= offset then offset else if filePos <= end then filePos else end
  }

  lemma RangeStep(content: seq<byte>, piece: seq<byte>, ref: ChunkRef, filePos: nat, offset: nat, end: nat)
    requires offset <= end <= |content| && filePos < end && offset < filePos + ref.size <= |content|
    requires |piece| == ref.size && content[filePos..filePos + ref.size] == piece
    ensures From(filePos, offset) <= Upto(ref, filePos, end) <= |piece|
    ensures content[offset..Clip(filePos, offset, end)] + piece[From(filePos, offset)..Upto(ref, filePos, end)]
         == content[offset..Clip(filePos + ref.size, offset, end)]
  {
    var a, b := From(filePos, offset), Upto(ref, filePos, end);
    SliceOfSlice(content, filePos, ref.size, a, b);
    assert filePos + a == Clip(filePos, offset, end) && filePos + b == Clip(filePos + ref.size, offset, end);
  }

  /** A range of a chunk as a range of its block; a length that wrapped leads back to the end of the range. */
  lemma RangeOf(block: seq<byte>, p: nat, n: nat, a: nat, b: nat)
    requires p + n <= |block| && p + n < TWO63 && a <= n && b <= n
    ensures a <= b ==> (b - a) % TWO64 == b - a && block[p..p + n][a..b] == block[p + a..p + b]
    ensures a > b ==> (b - a) % TWO64 >= TWO63 && (p + a + (b - a) % TWO64) % TWO64 == p + b
  {
    if a <= b {
      SliceOfSlice(block, p, n, a, b);
    } else {
      WrappedLength(p + b, a - b);
    }
  }

  lemma WrappedLength(end: nat, back: nat)
    requires end < TWO63 && 0 < back < TWO63
    ensures (0 - back) % TWO64 == TWO64 - back >= TWO63 && (end + back + (TWO64 - back)) % TWO64 == end
  {
    TurnBelow(0 - back);
    TurnAbove(end + back + (TWO64 - back));
  }

  lemma TurnBelow(x: int)
    requires 0 <= x + TWO64 < TWO64
    ensures x % TWO64 == x + TWO64
  {
    var q := x / TWO64;
    assert x == q * TWO64 + x % TWO64;
    assert q == -1;
  }

  lemma TurnAbove(x: int)
    requires TWO64 <= x < 2 * TWO64
    ensures x % TWO64 == x - TWO64
  {
    var q := x / TWO64;
    assert x == q * TWO64 + x % TWO64;
    assert q == 1;
  }

  lemma SliceOfSlice(s: seq<byte>, p: nat, n: nat, a: nat, b: nat)
    requires p + n <= |s| && a <= b <= n
    ensures s[p..p + n][a..b] == s[p + a..p + b]
  {
    var t := s[p..p + n];
    assert forall k :: 0 <= k < b - a ==> t[a..b][k] == t[a + k] == s[p + a + k] == s[p + a..p + b][k];
  }

  /** A chunk is the stretch of the whole after the chunks before it. */
  lemma PieceAt(chunks: seq<ChunkRef>, blocks: Blocks, i: nat)
    requires Readable(chunks, blocks) && i < |chunks|
    ensures Readable([chunks[i]], blocks) && Readable(chunks[..i], blocks) && Readable(chunks[..i + 1], blocks)
    ensures Joined(chunks[..i + 1], blocks) == Joined(chunks[..i], blocks) + Piece(chunks[i], blocks)
    ensures var p := |Joined(chunks[..i], blocks)|;
      && p + chunks[i].size <= |Joined(chunks, blocks)|
      && Joined(chunks, blocks)[p..p + chunks[i].size] == Piece(chunks[i], blocks)
    ensures chunks[i].id in blocks && chunks[i].offset + chunks[i].size <= |blocks[chunks[i].id]|
    ensures Piece(chunks[i], blocks) == blocks[chunks[i].id][chunks[i].offset..chunks[i].offset + chunks[i].size]
  {
    assert chunks[..i + 1][..i] == chunks[..i];
    JoinedPrefix(chunks, blocks, i + 1);
  }

  lemma {:induction false} JoinedPrefix(chunks: seq<ChunkRef>, blocks: Blocks, i: nat)
    requires Readable(chunks, blocks) && i <= |chunks|
    ensures Joined(chunks[..i], blocks) <= Joined(chunks, blocks)
    decreases |chunks|
  {
    if i == |chunks| {
      assert chunks[..i] == chunks;
    } else {
      JoinedPrefix(chunks[..|chunks| - 1], blocks, i);
      assert chunks[..|chunks| - 1][..i] == chunks[..i];
    }
  }

  /** The chunks cut so far from a total of n octets. */
  ghost predicate Cut(chunks: seq<ChunkRef>, n: nat) {
    forall i :: 0 <= i < |chunks| ==>
      && chunks[i].offset == 0 && i * CHUNK < n
      && chunks[i].size == if CHUNK <= n - i * CHUNK then CHUNK else n - i * CHUNK
  }

  lemma CutPush(chunks: seq<ChunkRef>, n: nat, ref: ChunkRef)
    requires Cut(chunks, n) && ref.offset == 0 && |chunks| * CHUNK < n
    requires ref.size == if CHUNK <= n - |chunks| * CHUNK then CHUNK else n - |chunks| * CHUNK
    ensures Cut(chunks + [ref], n)
  {
    var after := chunks + [ref];
    assert after[|chunks|] == ref;
    assert forall i :: 0 <= i < |chunks| ==> after[i] == chunks[i];
  }

  lemma CutComplete(chunks: seq<ChunkRef>, n: nat)
    requires Cut(chunks, n) && |chunks| == ChunkCount(n)
    ensures CutAt(chunks, n)
  {
  }

  ghost predicate Numbered(chunks: seq<ChunkRef>, seqNo: nat, shards: Shards) {
    forall k :: 0 <= k < |chunks| ==> chunks[k].id == IdAt(seqNo, k, shards)
  }

  /** Fewer than 2^56 consecutive ids are distinct, also across the wrap of the sequence number. */
  lemma NumberedPush(chunks: seq<ChunkRef>, seqNo: nat, ref: ChunkRef, shards: Shards)
    requires Numbered(chunks, seqNo, shards) && |chunks| < TWO56 && ref.id == IdAt((seqNo + |chunks|) % TWO64, 0, shards)
    ensures Numbered(chunks + [ref], seqNo, shards)
    ensures ref.id !in Ids(chunks) && Ids(chunks + [ref]) == Ids(chunks) + {ref.id}
  {
    hide IdAt;
    IdAtWrapped(seqNo, |chunks|, shards);
    forall k | 0 <= k < |chunks|
      ensures chunks[k].id != ref.id
    {
      DistinctIds(seqNo, k, |chunks|, shards);
    }
    IdsPush(chunks, ref);
  }

  /** The wrap of the sequence number does not disturb the id, which is its low 56 bits. */
  lemma WrappedId(x: nat)
    ensures x % TWO64 % TWO56 == x % TWO56
  {
    var q, y := x / TWO64, x % TWO64;
    var a, b := y / TWO56, y % TWO56;
    assert x == q * TWO64 + y && y == a * TWO56 + b;
    assert x == (q * 256 + a) * TWO56 + b;
    LowBits(q * 256 + a, b);
  }

  lemma DistinctIds(seqNo: nat, k: nat, j: nat, shards: Shards)
    requires k < j < TWO56
    ensures IdAt(seqNo, k, shards) != IdAt(seqNo, j, shards)
  {
    hide IdOf;
    IdLow((seqNo + k) % TWO64, shards);
    IdLow((seqNo + j) % TWO64, shards);
    WrappedId(seqNo + k);
    WrappedId(seqNo + j);
    Residues(seqNo, k, j);
  }

  lemma Residues(x: nat, k: nat, j: nat)
    requires k < j < TWO56
    ensures (x + k) % TWO56 != (x + j) % TWO56
  {
  }

  lemma IdsPush(chunks: seq<ChunkRef>, ref: ChunkRef)
    ensures Ids(chunks + [ref]) == Ids(chunks) + {ref.id}
  {
    var after := chunks + [ref];
    assert after[|chunks|] == ref;
    forall id | id in Ids(chunks)
      ensures id in Ids(after)
    {
      var i :| 0 <= i < |chunks| && chunks[i].id == id;
      assert after[i].id == id;
    }
  }

  lemma KeysPush(root: nat, chunks: seq<ChunkRef>, ref: ChunkRef)
    ensures KeysIn(root, chunks + [ref]) == KeysIn(root, chunks) + {(root, ref.id)}
  {
    var after := chunks + [ref];
    assert after[|chunks|] == ref;
    forall k | k in KeysIn(root, chunks)
      ensures k in KeysIn(root, after)
    {
      var i :| 0 <= i < |chunks| && (root, chunks[i].id) == k;
      assert (root, after[i].id) == k;
    }
  }

  lemma JoinedNone(blocks: Blocks)
    ensures Readable([], blocks) && Joined([], blocks) == []
  {
  }

  lemma JoinedPush(chunks: seq<ChunkRef>, blocks: Blocks, ref: ChunkRef, piece: seq<byte>)
    requires Readable(chunks, blocks) && ref.id !in Ids(chunks) && ref.offset == 0 && ref.size == |piece|
    ensures var more := blocks[ref.id := piece];
      Readable(chunks + [ref], more) && Joined(chunks + [ref], more) == Joined(chunks, blocks) + piece
  {
    hide Joined;
    var more := blocks[ref.id := piece];
    forall i | 0 <= i < |chunks|
      ensures chunks[i].id != ref.id
    {
      assert chunks[i].id in Ids(chunks);
    }
    JoinedFrame(chunks, blocks, more);
    JoinedLast(chunks, more, ref);
    assert piece[0..|piece|] == piece;
  }

  lemma JoinedLast(chunks: seq<ChunkRef>, blocks: Blocks, ref: ChunkRef)
    requires Readable(chunks, blocks) && ref.id in blocks && ref.offset + ref.size <= |blocks[ref.id]|
    ensures Readable(chunks + [ref], blocks)
    ensures Joined(chunks + [ref], blocks) == Joined(chunks, blocks) + blocks[ref.id][ref.offset..ref.offset + ref.size]
  {
    assert (chunks + [ref])[..|chunks|] == chunks;
  }

  /** Ids in use again leave no way to own the blocks. */
  lemma StaleIsShared(entries: Entries, were: Blocks, owned: Owners, c: Cid, e: Entry, seqNo: nat, n: nat,
                      blocks: Blocks, owners: Owners, shards: Shards)
    requires Owned(entries, were, owned) && c !in entries && n == |e.chunks| && Numbered(e.chunks, seqNo, shards)
    requires !Fresh(seqNo, n, were, shards)
    ensures !Owned(entries[c := e], blocks, owners)
  {
    hide Owned, IdAt;
    var k: nat :| k < n && IdAt(seqNo, k, shards) in were;
    SharedIsNotOwned(entries, were, owned, entries[c := e], blocks, owners, c, k);
  }

  lemma NumberedBound(chunks: seq<ChunkRef>, seqNo: nat, shards: Shards)
    requires Numbered(chunks, seqNo, shards)
    ensures seqNo + |chunks| <= TWO56 ==> forall id :: id in Ids(chunks) ==> id % TWO56 < seqNo + |chunks|
  {
    hide IdAt;
    forall k: nat | k < |chunks|
      ensures seqNo + |chunks| <= TWO56 ==> chunks[k].id % TWO56 < seqNo + |chunks|
    {
      if seqNo + |chunks| <= TWO56 { IdAtLow(seqNo, k, shards); }
    }
  }

  /** How much of n octets k chunks hold. */
  function Reached(k: nat, n: nat): nat {
    if k * CHUNK <= n then k * CHUNK else n
  }

  function Pending(data: seq<byte>, chunks: seq<ChunkRef>): Entry {
    Entry(1, |data|, [], chunks)
  }

  /** Blocks for the start of the data have been allocated from seqNo on, over the blocks that were. */
  ghost predicate Storing(entries: Entries, c: Cid, data: seq<byte>, seqNo: nat, were: Blocks,
                          chunks: seq<ChunkRef>, blocks: Blocks, owners: Owners, shards: Shards) {
    && Cut(chunks, |data|) && Numbered(chunks, seqNo, shards)
    && Readable(chunks, blocks) && Joined(chunks, blocks) == data[..Reached(|chunks|, |data|)]
    && blocks.Keys == were.Keys + Ids(chunks)
    && (Fresh(seqNo, ChunkCount(|data|), were, shards) ==>
          && Owned(entries[c := Pending(data, chunks)], blocks, owners)
          && forall id :: id in were ==> id in blocks && blocks[id] == were[id])
  }

  lemma StoringBegins(entries: Entries, c: Cid, data: seq<byte>, seqNo: nat, blocks: Blocks, owners: Owners, shards: Shards)
    requires Owned(entries, blocks, owners) && c !in entries
    ensures Storing(entries, c, data, seqNo, blocks, [], blocks, owners, shards)
  {
    hide Owned, Fresh;
    OwnedSame(entries, entries[c := Pending(data, [])], blocks, owners);
  }

  lemma StoringStep(entries: Entries, c: Cid, data: seq<byte>, seqNo: nat, were: Blocks,
                    chunks: seq<ChunkRef>, blocks: Blocks, owners: Owners, piece: seq<byte>, shards: Shards)
    requires Storing(entries, c, data, seqNo, were, chunks, blocks, owners, shards)
    requires c !in entries && |data| < TWO64 && |chunks| * CHUNK < |data|
    requires piece == data[|chunks| * CHUNK..Reached(|chunks| + 1, |data|)]
    ensures var ref := ChunkRef(IdAt((seqNo + |chunks|) % TWO64, 0, shards), 0, |piece|);
      Storing(entries, c, data, seqNo, were, chunks + [ref], blocks[ref.id := piece], owners[ref.id := (c, |chunks|)], shards)
  {
    hide Owned, Readable, Joined, Cut, Numbered, Ids, IdAt, Fresh;
    var ref := ChunkRef(IdAt((seqNo + |chunks|) % TWO64, 0, shards), 0, |piece|);
    NumberedPush(chunks, seqNo, ref, shards);
    CutPush(chunks, |data|, ref);
    JoinedPush(chunks, blocks, ref, piece);
    assert data[..Reached(|chunks|, |data|)] + piece == data[..Reached(|chunks| + 1, |data|)];
    if Fresh(seqNo, ChunkCount(|data|), were, shards) {
      FreshId(seqNo, ChunkCount(|data|), were, |chunks|, shards);
      var before := entries[c := Pending(data, chunks)];
      assert ref.id !in blocks.Keys;
      OwnedPush(before, blocks, owners, c, ref, piece);
      assert before[c := Pending(data, chunks + [ref])] == entries[c := Pending(data, chunks + [ref])];
    }
  }

  lemma FreshId(seqNo: nat, n: nat, blocks: Blocks, k: nat, shards: Shards)
    requires Fresh(seqNo, n, blocks, shards) && k < n
    ensures IdAt((seqNo + k) % TWO64, 0, shards) !in blocks
  {
    hide IdAt;
    IdAtWrapped(seqNo, k, shards);
    assert IdAt(seqNo, k, shards) !in blocks;
  }

  lemma StoringFresh(entries: Entries, c: Cid, data: seq<byte>, seqNo: nat, were: Blocks,
                     chunks: seq<ChunkRef>, blocks: Blocks, owners: Owners, shards: Shards)
    requires Storing(entries, c, data, seqNo, were, chunks, blocks, owners, shards)
    requires Fresh(seqNo, ChunkCount(|data|), were, shards) && |data| < TWO64 && |chunks| * CHUNK < |data|
    ensures IdAt((seqNo + |chunks|) % TWO64, 0, shards) !in blocks
  {
    hide Owned, Readable, Joined, Cut, Fresh;
    FreshId(seqNo, ChunkCount(|data|), were, |chunks|, shards);
    NumberedPush(chunks, seqNo, ChunkRef(IdAt((seqNo + |chunks|) % TWO64, 0, shards), 0, 0), shards);
    assert blocks.Keys == were.Keys + Ids(chunks);
  }

  lemma StoringEnds(entries: Entries, c: Cid, data: seq<byte>, seqNo: nat, were: Blocks,
                    chunks: seq<ChunkRef>, blocks: Blocks, owners: Owners, shards: Shards)
    requires Storing(entries, c, data, seqNo, were, chunks, blocks, owners, shards)
    requires CHUNK < |data| < TWO64 && Reached(|chunks|, |data|) == |data|
    ensures |chunks| == ChunkCount(|data|) && Numbered(chunks, seqNo, shards)
    ensures Holds(Pending(data, chunks), data, blocks)
    ensures blocks.Keys == were.Keys + Ids(chunks)
    ensures Fresh(seqNo, ChunkCount(|data|), were, shards) ==>
      && Owned(entries[c := Pending(data, chunks)], blocks, owners)
      && forall id :: id in were ==> id in blocks && blocks[id] == were[id]
  {
    hide Owned, Readable, Joined, Fresh;
    assert |chunks| > 0;
    assert (|chunks| - 1) * CHUNK < |data|;
    CutComplete(chunks, |data|);
    assert data[..|data|] == data;
  }

  lemma CountedKeys(entries: Entries, pins: map<Cid, nat>)
    requires Counted(entries, pins)
    ensures pins.Keys == entries.Keys
  {
  }

  lemma KeptKeys(entries: Entries, contents: map<Cid, seq<byte>>, blocks: Blocks)
    requires Kept(entries, contents, blocks)
    ensures contents.Keys == entries.Keys
  {
  }

  lemma KeptAt(entries: Entries, contents: map<Cid, seq<byte>>, blocks: Blocks, c: Cid)
    requires Kept(entries, contents, blocks) && c in entries
    ensures c in contents
    ensures var e, content := entries[c], contents[c];
      && e.totalSize == |content| && Readable(e.chunks, blocks)
      && (e.inline == [] <==> |content| == 0 || |content| > CHUNK)
      && if e.inline == [] then Joined(e.chunks, blocks) == content && |content| < TWO64 && CutAt(e.chunks, |content|)
         else e.inline == content
  {
  }

  lemma KeptRecount(entries: Entries, contents: map<Cid, seq<byte>>, blocks: Blocks, c: Cid, n: nat)
    requires Kept(entries, contents, blocks) && c in entries
    ensures Kept(entries[c := entries[c].(refcount := n)], contents, blocks)
  {
  }

  lemma KeptAdd(entries: Entries, contents: map<Cid, seq<byte>>, blocks: Blocks, c: Cid, e: Entry, data: seq<byte>)
    requires Kept(entries, contents, blocks) && Holds(e, data, blocks)
    ensures Kept(entries[c := e], contents[c := data], blocks)
  {
  }

}
