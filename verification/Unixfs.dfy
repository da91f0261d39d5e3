/**
 The dag-pb and UnixFS encodings of pfs and the CID computed from them.  The
 SHA-256 digest is a parameter, any function from blocks to digests.
 */
module Unixfs {
  import opened Common

  const CHUNK: nat := 262144

  // ------------------------------------------------------------ the encoding

  function Varint(v: nat): (r: seq<byte>)
    ensures |r| > 0
  {
    if v < 128 then [v] else [v % 128 + 128] + Varint(v / 128)
  }

  function Tag(field: nat, wire: nat): seq<byte> {
    Varint(field * 8 + wire)
  }

  function BytesField(field: nat, data: seq<byte>): seq<byte> {
    Tag(field, 2) + Varint(|data|) + data
  }

  function VarintField(field: nat, v: nat): seq<byte> {
    Tag(field, 0) + Varint(v)
  }

  /** The UnixFS message of a leaf: type File, the bytes, their number. */
  function LeafData(data: seq<byte>): seq<byte> {
    VarintField(1, 2) + BytesField(2, data) + VarintField(3, |data|)
  }

  /** encode_file_block. */
  function LeafBlock(data: seq<byte>): seq<byte> {
    BytesField(1, LeafData(data))
  }

  datatype Link = Link(cid: seq<byte>, tsize: nat)

  function LinkField(l: Link): seq<byte> {
    BytesField(2, BytesField(2, l.cid) + VarintField(3, l.tsize))
  }

  function LinkFields(links: seq<Link>): seq<byte> {
    if links == [] then [] else LinkField(links[0]) + LinkFields(links[1..])
  }

  function SizeFields(sizes: seq<nat>): seq<byte> {
    if sizes == [] then [] else VarintField(4, sizes[0]) + SizeFields(sizes[1..])
  }

  function RootData(total: nat, sizes: seq<nat>): seq<byte> {
    VarintField(1, 2) + VarintField(3, total) + SizeFields(sizes)
  }

  /** encode_file_root: the links come before the data. */
  function RootBlock(links: seq<Link>, total: nat, sizes: seq<nat>): seq<byte> {
    LinkFields(links) + BytesField(1, RootData(total, sizes))
  }

  // ----------------------------------------------------------------- the CID

  /** CIDv1, dag-pb, sha2-256, 32 octets: cid::from_digest. */
  function CidOf(digest: seq<byte>): seq<byte> {
    [0x01, 0x70, 0x12, 0x20] + digest
  }

  function Chunks(data: seq<byte>): (r: seq<seq<byte>>)
    ensures |r| > 0
  {
    if |data| <= CHUNK then [data] else [data[..CHUNK]] + Chunks(data[CHUNK..])
  }

  function LinkTo(chunk: seq<byte>, sha: seq<byte> -> seq<byte>): Link {
    Link(CidOf(sha(LeafBlock(chunk))), |LeafBlock(chunk)|)
  }

  function Links(chunks: seq<seq<byte>>, sha: seq<byte> -> seq<byte>): (r: seq<Link>)
    ensures |r| == |chunks|
  {
    if chunks == [] then [] else [LinkTo(chunks[0], sha)] + Links(chunks[1..], sha)
  }

  function Sizes(chunks: seq<seq<byte>>): seq<nat> {
    if chunks == [] then [] else [|chunks[0]|] + Sizes(chunks[1..])
  }

  /** The dag-pb block whose digest names the data. */
  function TopBlock(data: seq<byte>, sha: seq<byte> -> seq<byte>): seq<byte> {
    if |data| <= CHUNK then LeafBlock(data)
    else RootBlock(Links(Chunks(data), sha), |data|, Sizes(Chunks(data)))
  }

  /** compute_cid. */
  function ComputeCid(data: seq<byte>, sha: seq<byte> -> seq<byte>): seq<byte> {
    CidOf(sha(TopBlock(data, sha)))
  }

  // ------------------------------------------------------------- injectivity

  lemma SamePrefix(a: seq<byte>, x: seq<byte>, b: seq<byte>, y: seq<byte>)
    requires a + x == b + y && |a| == |b|
    ensures a == b && x == y
  {
    assert a == (a + x)[..|a|] && b == (b + y)[..|b|];
    assert x == (a + x)[|a|..] && y == (b + y)[|b|..];
  }

  /** A varint ends where it says: two readings of the same octets agree. */
  lemma {:induction false} VarintUnique(u: nat, x: seq<byte>, v: nat, y: seq<byte>)
    requires Varint(u) + x == Varint(v) + y
    ensures u == v && x == y
    decreases u
  {
    assert (Varint(u) + x)[0] == Varint(u)[0] && (Varint(v) + y)[0] == Varint(v)[0];
    if u >= 128 && v >= 128 {
      assert (Varint(u) + x)[1..] == Varint(u / 128) + x;
      assert (Varint(v) + y)[1..] == Varint(v / 128) + y;
      VarintUnique(u / 128, x, v / 128, y);
    } else {
      SamePrefix(Varint(u), x, Varint(v), y);
    }
  }

  lemma BytesFieldUnique(f: nat, a: seq<byte>, x: seq<byte>, g: nat, b: seq<byte>, y: seq<byte>)
    requires BytesField(f, a) + x == BytesField(g, b) + y
    ensures f == g && a == b && x == y
  {
    assert Tag(f, 2) + (Varint(|a|) + (a + x)) == BytesField(f, a) + x;
    assert Tag(g, 2) + (Varint(|b|) + (b + y)) == BytesField(g, b) + y;
    VarintUnique(f * 8 + 2, Varint(|a|) + (a + x), g * 8 + 2, Varint(|b|) + (b + y));
    VarintUnique(|a|, a + x, |b|, b + y);
    SamePrefix(a, x, b, y);
  }

  lemma LeafBlockUnique(a: seq<byte>, b: seq<byte>)
    requires LeafBlock(a) == LeafBlock(b)
    ensures a == b
  {
    assert LeafBlock(a) + [] == LeafBlock(a) && LeafBlock(b) + [] == LeafBlock(b);
    BytesFieldUnique(1, LeafData(a), [], 1, LeafData(b), []);
    var kind := VarintField(1, 2);
    assert LeafData(a) == kind + (BytesField(2, a) + VarintField(3, |a|));
    assert LeafData(b) == kind + (BytesField(2, b) + VarintField(3, |b|));
    SamePrefix(kind, BytesField(2, a) + VarintField(3, |a|), kind, BytesField(2, b) + VarintField(3, |b|));
    BytesFieldUnique(2, a, VarintField(3, |a|), 2, b, VarintField(3, |b|));
  }

  lemma LinkFieldUnique(k: Link, x: seq<byte>, l: Link, y: seq<byte>)
    requires LinkField(k) + x == LinkField(l) + y
    ensures k == l && x == y
  {
    var mk := BytesField(2, k.cid) + VarintField(3, k.tsize);
    var ml := BytesField(2, l.cid) + VarintField(3, l.tsize);
    BytesFieldUnique(2, mk, x, 2, ml, y);
    BytesFieldUnique(2, k.cid, VarintField(3, k.tsize), 2, l.cid, VarintField(3, l.tsize));
    SamePrefix(Tag(3, 0), Varint(k.tsize), Tag(3, 0), Varint(l.tsize));
    assert Varint(k.tsize) + [] == Varint(k.tsize) && Varint(l.tsize) + [] == Varint(l.tsize);
    VarintUnique(k.tsize, [], l.tsize, []);
  }

  /** A link is never mistaken for the data field that ends the root. */
  lemma LinkIsNotData(l: Link, x: seq<byte>, data: seq<byte>)
    ensures LinkField(l) + x != BytesField(1, data)
  {
    if LinkField(l) + x == BytesField(1, data) {
      assert BytesField(1, data) + [] == BytesField(1, data);
      BytesFieldUnique(2, BytesField(2, l.cid) + VarintField(3, l.tsize), x, 1, data, []);
    }
  }

  lemma {:induction false} RootLinksUnique(ks: seq<Link>, a: seq<byte>, ls: seq<Link>, b: seq<byte>)
    requires LinkFields(ks) + BytesField(1, a) == LinkFields(ls) + BytesField(1, b)
    ensures ks == ls
    decreases ks
  {
    hide BytesField, LinkField;
    if ks != [] {
      assert LinkFields(ks) + BytesField(1, a) == LinkField(ks[0]) + (LinkFields(ks[1..]) + BytesField(1, a));
      if ls == [] {
        assert LinkFields(ls) + BytesField(1, b) == BytesField(1, b);
        LinkIsNotData(ks[0], LinkFields(ks[1..]) + BytesField(1, a), b);
      }
    }
    if ls != [] {
      assert LinkFields(ls) + BytesField(1, b) == LinkField(ls[0]) + (LinkFields(ls[1..]) + BytesField(1, b));
      if ks == [] {
        assert LinkFields(ks) + BytesField(1, a) == BytesField(1, a);
        LinkIsNotData(ls[0], LinkFields(ls[1..]) + BytesField(1, b), a);
      }
    }
    if ks != [] && ls != [] {
      LinkFieldUnique(ks[0], LinkFields(ks[1..]) + BytesField(1, a), ls[0], LinkFields(ls[1..]) + BytesField(1, b));
      RootLinksUnique(ks[1..], a, ls[1..], b);
    }
  }

  function Join(chunks: seq<seq<byte>>): seq<byte> {
    if chunks == [] then [] else chunks[0] + Join(chunks[1..])
  }

  lemma {:induction false} ChunksJoin(data: seq<byte>)
    ensures Join(Chunks(data)) == data
  {
    if |data| <= CHUNK {
      assert [data][1..] == [];
    } else {
      ChunksJoin(data[CHUNK..]);
      assert Chunks(data)[1..] == Chunks(data[CHUNK..]);
    }
  }

  lemma {:induction false} LinkAt(chunks: seq<seq<byte>>, sha: seq<byte> -> seq<byte>, i: nat)
    requires i < |chunks|
    ensures Links(chunks, sha)[i] == LinkTo(chunks[i], sha)
  {
    if i > 0 { LinkAt(chunks[1..], sha, i - 1); }
  }

  /** Two lists of chunks with the same links but different contents differ at a leaf. */
  lemma LeafCollision(cs: seq<seq<byte>>, ds: seq<seq<byte>>, sha: seq<byte> -> seq<byte>) returns (i: nat)
    requires Links(cs, sha) == Links(ds, sha) && cs != ds
    ensures i < |cs| == |ds| && LeafBlock(cs[i]) != LeafBlock(ds[i]) && sha(LeafBlock(cs[i])) == sha(LeafBlock(ds[i]))
  {
    i :| 0 <= i < |cs| && cs[i] != ds[i];
    LinkAt(cs, sha, i);
    LinkAt(ds, sha, i);
    SamePrefix([0x01, 0x70, 0x12, 0x20], sha(LeafBlock(cs[i])), [0x01, 0x70, 0x12, 0x20], sha(LeafBlock(ds[i])));
    if LeafBlock(cs[i]) == LeafBlock(ds[i]) { LeafBlockUnique(cs[i], ds[i]); }
  }

  /** The dag-pb blocks of a file: its top block, and its leaves when it has several. */
  ghost predicate IsBlockOf(block: seq<byte>, data: seq<byte>, sha: seq<byte> -> seq<byte>) {
    || block == TopBlock(data, sha)
    || (|data| > CHUNK && exists c :: c in Chunks(data) && block == LeafBlock(c))
  }

  /**
   Two different byte strings with one CID exhibit two different dag-pb blocks of
   those strings with one digest.
   */
  lemma CollisionExhibited(d: seq<byte>, e: seq<byte>, sha: seq<byte> -> seq<byte>) returns (b: seq<byte>, c: seq<byte>)
    requires d != e && ComputeCid(d, sha) == ComputeCid(e, sha)
    ensures b != c && sha(b) == sha(c)
    ensures IsBlockOf(b, d, sha) && IsBlockOf(c, e, sha)
  {
    hide LeafBlock, RootData, Chunks, Links, Sizes, LinkFields, BytesField;
    b, c := TopBlock(d, sha), TopBlock(e, sha);
    SamePrefix([0x01, 0x70, 0x12, 0x20], sha(b), [0x01, 0x70, 0x12, 0x20], sha(c));
    if b == c {
      if |d| <= CHUNK && |e| <= CHUNK {
        LeafBlockUnique(d, e);
      } else if |d| > CHUNK && |e| > CHUNK {
        RootLinksUnique(Links(Chunks(d), sha), RootData(|d|, Sizes(Chunks(d))),
                        Links(Chunks(e), sha), RootData(|e|, Sizes(Chunks(e))));
        ChunksJoin(d);
        ChunksJoin(e);
        var i := LeafCollision(Chunks(d), Chunks(e), sha);
        b, c := LeafBlock(Chunks(d)[i]), LeafBlock(Chunks(e)[i]);
      } else if |d| > CHUNK {
        RootIsNotLeaf(d, e, sha);
      } else {
        RootIsNotLeaf(e, d, sha);
      }
    }
  }

  lemma RootIsNotLeaf(d: seq<byte>, e: seq<byte>, sha: seq<byte> -> seq<byte>)
    requires |d| > CHUNK
    ensures TopBlock(d, sha) != LeafBlock(e)
  {
    var ls, data := Links(Chunks(d), sha), BytesField(1, RootData(|d|, Sizes(Chunks(d))));
    assert TopBlock(d, sha) == LinkField(ls[0]) + (LinkFields(ls[1..]) + data);
    LinkIsNotData(ls[0], LinkFields(ls[1..]) + data, LeafData(e));
  }

  // ----------------------------------------------------------- the writers

  method WriteVarint(buf: seq<byte>, value: nat) returns (out: seq<byte>)
    ensures out == buf + Varint(value)
  {
    out := buf;
    var v := value;
    while v >= 128
      invariant out + Varint(v) == buf + Varint(value)
    {
      out := out + [v % 128 + 128];
      v := v / 128;
    }
    out := out + [v];
  }

  method WriteBytesField(buf: seq<byte>, field: nat, data: seq<byte>) returns (out: seq<byte>)
    ensures out == buf + BytesField(field, data)
  {
    out := WriteVarint(buf, field * 8 + 2);
    out := WriteVarint(out, |data|);
    out := out + data;
  }

  method WriteVarintField(buf: seq<byte>, field: nat, v: nat) returns (out: seq<byte>)
    ensures out == buf + VarintField(field, v)
  {
    out := WriteVarint(buf, field * 8);
    out := WriteVarint(out, v);
  }

  method EncodeFileBlock(data: seq<byte>) returns (node: seq<byte>)
    ensures node == LeafBlock(data)
  {
    var buf := WriteVarintField([], 1, 2);
    buf := WriteBytesField(buf, 2, data);
    buf := WriteVarintField(buf, 3, |data|);
    node := WriteBytesField([], 1, buf);
  }

  lemma {:induction false} LinkFieldsAppend(ls: seq<Link>, l: Link)
    ensures LinkFields(ls + [l]) == LinkFields(ls) + LinkField(l)
  {
    if ls == [] {
      assert ls + [l] == [l] && [l][1..] == [];
    } else {
      LinkFieldsAppend(ls[1..], l);
      assert (ls + [l])[1..] == ls[1..] + [l];
    }
  }

  lemma {:induction false} SizeFieldsAppend(ss: seq<nat>, n: nat)
    ensures SizeFields(ss + [n]) == SizeFields(ss) + VarintField(4, n)
  {
    hide VarintField;
    if ss == [] {
      assert ss + [n] == [n] && [n][1..] == [];
    } else {
      SizeFieldsAppend(ss[1..], n);
      assert (ss + [n])[1..] == ss[1..] + [n];
    }
  }

  method EncodeFileRoot(links: seq<Link>, total: nat, sizes: seq<nat>) returns (node: seq<byte>)
    ensures node == RootBlock(links, total, sizes)
  {
    hide BytesField, VarintField;
    node := [];
    var i := 0;
    while i < |links|
      invariant 0 <= i <= |links| && node == LinkFields(links[..i])
    {
      var pbLink := WriteBytesField([], 2, links[i].cid);
      pbLink := WriteVarintField(pbLink, 3, links[i].tsize);
      assert pbLink == BytesField(2, links[i].cid) + VarintField(3, links[i].tsize);
      node := WriteBytesField(node, 2, pbLink);
      LinkFieldsAppend(links[..i], links[i]);
      assert links[..i + 1] == links[..i] + [links[i]];
      i := i + 1;
    }
    assert links[..i] == links;
    var data := WriteVarintField([], 1, 2);
    data := WriteVarintField(data, 3, total);
    ghost var head := data;
    assert head == VarintField(1, 2) + VarintField(3, total);
    var j := 0;
    while j < |sizes|
      invariant 0 <= j <= |sizes| && data == head + SizeFields(sizes[..j])
    {
      data := WriteVarintField(data, 4, sizes[j]);
      SizeFieldsAppend(sizes[..j], sizes[j]);
      assert sizes[..j + 1] == sizes[..j] + [sizes[j]];
      j := j + 1;
    }
    assert sizes[..j] == sizes;
    node := WriteBytesField(node, 1, data);
  }

  /** The chunk loop of compute_cid. */
  method ComputeCidOf(data: seq<byte>, sha: seq<byte> -> seq<byte>) returns (cid: seq<byte>)
    ensures cid == ComputeCid(data, sha)
  {
    hide Chunks, Links, Sizes, LeafBlock, RootBlock;
    if |data| <= CHUNK {
      var leaf := EncodeFileBlock(data);
      return CidOf(sha(leaf));
    }
    var links: seq<Link>, sizes: seq<nat> := [], [];
    var off := 0;
    assert data[0..] == data;
    while off < |data|
      invariant 0 <= off <= |data|
      invariant off < |data| ==> links + Links(Chunks(data[off..]), sha) == Links(Chunks(data), sha)
      invariant off < |data| ==> sizes + Sizes(Chunks(data[off..])) == Sizes(Chunks(data))
      invariant off == |data| ==> links == Links(Chunks(data), sha) && sizes == Sizes(Chunks(data))
    {
      var len := if CHUNK < |data| - off then CHUNK else |data| - off;
      var chunk := data[off..off + len];
      ChunkStep(data, off, len, sha);
      var leaf := EncodeFileBlock(chunk);
      links := links + [Link(CidOf(sha(leaf)), |leaf|)];
      sizes := sizes + [len];
      off := off + len;
    }
    var root := EncodeFileRoot(links, |data|, sizes);
    cid := CidOf(sha(root));
  }

  lemma ChunkStep(data: seq<byte>, off: nat, len: nat, sha: seq<byte> -> seq<byte>)
    requires off < |data| && len == if CHUNK < |data| - off then CHUNK else |data| - off
    ensures var rest, chunk := data[off..], data[off..off + len];
            && Links(Chunks(rest), sha)
               == [LinkTo(chunk, sha)] + (if off + len < |data| then Links(Chunks(data[off + len..]), sha) else [])
            && Sizes(Chunks(rest)) == [len] + (if off + len < |data| then Sizes(Chunks(data[off + len..])) else [])
  {
    var rest, chunk := data[off..], data[off..off + len];
    if off + len < |data| {
      assert rest[..CHUNK] == chunk && rest[CHUNK..] == data[off + len..];
      assert Chunks(rest)[1..] == Chunks(data[off + len..]);
    } else {
      assert rest == chunk && Chunks(rest)[1..] == [];
    }
  }
}
