/**
 What the blocks pfs writes say to a dag-pb reader: type File, the octets and
 their number in a leaf, the links and sizes of the chunks in a root.
 */
module UnixfsReads {
  import opened Common
  import opened DagPb
  import opened Unixfs

  lemma {:induction false} VarintReads(v: nat, rest: seq<byte>)
    ensures ReadVarint(Varint(v) + rest) == Some((v, |Varint(v)|))
  {
    var s := Varint(v) + rest;
    assert s[0] == Varint(v)[0];
    if v >= 128 {
      VarintReads(v / 128, rest);
      assert s[1..] == Varint(v / 128) + rest;
    }
  }

  /** A varint has no octet more than it needs. */
  lemma {:induction false} VarintShortest(v: nat)
    ensures |Varint(v)| > 1 ==> Varint(v)[|Varint(v)| - 1] > 0
  {
    if v >= 128 { VarintShortest(v / 128); }
  }

  lemma TagReads(field: nat, wire: nat)
    requires wire < 8
    ensures (field * 8 + wire) / 8 == field && (field * 8 + wire) % 8 == wire
  {
  }

  lemma NumberReads(field: nat, v: nat, rest: seq<byte>)
    ensures ReadField(VarintField(field, v) + rest) == Some((Number(field, v), |VarintField(field, v)|))
  {
    hide Varint, ReadVarint;
    var a, b := Varint(field * 8), Varint(v);
    var s := VarintField(field, v) + rest;
    VarintReads(field * 8, b + rest);
    VarintReads(v, rest);
    assert s == a + (b + rest) && s[|a|..] == b + rest;
    TagReads(field, 0);
  }

  lemma OctetsReads(field: nat, data: seq<byte>, rest: seq<byte>)
    ensures ReadField(BytesField(field, data) + rest) == Some((Octets(field, data), |BytesField(field, data)|))
  {
    hide Varint, ReadVarint;
    var a, b := Varint(field * 8 + 2), Varint(|data|);
    var s := BytesField(field, data) + rest;
    VarintReads(field * 8 + 2, b + (data + rest));
    VarintReads(|data|, data + rest);
    Parts(a, b, data, rest, s);
    TagReads(field, 2);
  }

  lemma Parts(a: seq<byte>, b: seq<byte>, data: seq<byte>, rest: seq<byte>, s: seq<byte>)
    requires s == a + b + data + rest
    ensures s == a + (b + (data + rest)) && s[|a|..] == b + (data + rest)
    ensures s[|a| + |b|..|a| + |b| + |data|] == data
  {
  }

  /** A field in front of others. */
  lemma FieldThen(head: seq<byte>, x: Field, tail: seq<byte>, xs: seq<Field>)
    requires ReadField(head + tail) == Some((x, |head|)) && ReadFields(tail) == Some(xs)
    ensures ReadFields(head + tail) == Some([x] + xs)
  {
    hide ReadField;
    assert (head + tail)[|head|..] == tail;
  }

  lemma NumberThen(field: nat, v: nat, tail: seq<byte>, xs: seq<Field>)
    requires ReadFields(tail) == Some(xs)
    ensures ReadFields(VarintField(field, v) + tail) == Some([Number(field, v)] + xs)
  {
    hide ReadField, VarintField, ReadFields;
    NumberReads(field, v, tail);
    FieldThen(VarintField(field, v), Number(field, v), tail, xs);
  }

  lemma OctetsThen(field: nat, data: seq<byte>, tail: seq<byte>, xs: seq<Field>)
    requires ReadFields(tail) == Some(xs)
    ensures ReadFields(BytesField(field, data) + tail) == Some([Octets(field, data)] + xs)
  {
    hide ReadField, BytesField, ReadFields;
    OctetsReads(field, data, tail);
    FieldThen(BytesField(field, data), Octets(field, data), tail, xs);
  }

  lemma NothingReads()
    ensures ReadFields([]) == Some([])
  {
  }

  lemma FieldOf(x: Field, xs: seq<Field>, n: nat)
    ensures Numbers([x] + xs, n) == (if x.Number? && x.field == n then [x.value] else []) + Numbers(xs, n)
    ensures Strings([x] + xs, n) == (if x.Octets? && x.field == n then [x.data] else []) + Strings(xs, n)
  {
    assert ([x] + xs)[1..] == xs;
  }

  /** What an optional field is when the first of the fields gives it and no other does. */
  lemma NoFields(n: nat)
    ensures Numbers([], n) == [] && Strings([], n) == []
  {
  }

  /** A leaf's message: type File, the octets and their number. */
  lemma LeafDataReads(data: seq<byte>)
    ensures ReadFileData(LeafData(data)) == Some(FileData(2, Some(data), Some(|data|), []))
  {
    hide VarintField, BytesField, ReadFields, Numbers, Strings;
    var c := VarintField(3, |data|);
    var bc := BytesField(2, data) + c;
    var x, y, z := Number(1, 2), Octets(2, data), Number(3, |data|);
    NothingReads();
    NumberThen(3, |data|, [], []);
    assert c + [] == c && [z] + [] == [z];
    OctetsThen(2, data, c, [z]);
    NumberThen(1, 2, bc, [y] + [z]);
    assert LeafData(data) == VarintField(1, 2) + bc;
    forall n: nat
      ensures Numbers([x] + ([y] + [z]), n) == (if n == 1 then [2] else []) + if n == 3 then [|data|] else []
      ensures Strings([x] + ([y] + [z]), n) == if n == 2 then [data] else []
    {
      NoFields(n);
      FieldOf(z, [], n);
      FieldOf(y, [z], n);
      FieldOf(x, [y] + [z], n);
    }
  }

  /** A leaf has no links, and its data says type File, the octets and their number. */
  lemma LeafReads(data: seq<byte>)
    ensures ReadNode(LeafBlock(data)) == Some(PbNode([], FileData(2, Some(data), Some(|data|), [])))
  {
    hide BytesField, ReadFields, Numbers, Strings, LeafData, ReadFileData;
    var x := Octets(1, LeafData(data));
    NothingReads();
    OctetsThen(1, LeafData(data), [], []);
    assert LeafBlock(data) + [] == LeafBlock(data) && [x] + [] == [x];
    LeafDataReads(data);
    forall n: nat
      ensures Strings([x], n) == if n == 1 then [LeafData(data)] else []
    {
      NoFields(n);
      FieldOf(x, [], n);
    }
  }

  // ------------------------------------------------------------------- roots

  function LinkData(l: Link): seq<byte> {
    BytesField(2, l.cid) + VarintField(3, l.tsize)
  }

  function AsRead(l: Link): PbLink {
    PbLink(Some(l.cid), Some(l.tsize))
  }

  lemma LinkReads(l: Link)
    ensures ReadLink(LinkData(l)) == Some(AsRead(l))
  {
    hide VarintField, BytesField, ReadFields, Numbers, Strings;
    var x, y := Octets(2, l.cid), Number(3, l.tsize);
    NothingReads();
    NumberThen(3, l.tsize, [], []);
    assert VarintField(3, l.tsize) + [] == VarintField(3, l.tsize) && [y] + [] == [y];
    OctetsThen(2, l.cid, VarintField(3, l.tsize), [y]);
    NoFields(2);
    NoFields(3);
    FieldOf(y, [], 2);
    FieldOf(y, [], 3);
    FieldOf(x, [y], 2);
    FieldOf(x, [y], 3);
  }

  function AllRead(links: seq<Link>): (r: seq<PbLink>)
    ensures |r| == |links| && forall i :: 0 <= i < |links| ==> r[i] == AsRead(links[i])
  {
    if links == [] then [] else [AsRead(links[0])] + AllRead(links[1..])
  }

  function LinkFieldsOf(links: seq<Link>): seq<Field> {
    if links == [] then [] else [Octets(2, LinkData(links[0]))] + LinkFieldsOf(links[1..])
  }

  lemma {:induction false} LinksThen(links: seq<Link>, tail: seq<byte>, xs: seq<Field>)
    requires ReadFields(tail) == Some(xs)
    ensures ReadFields(LinkFields(links) + tail) == Some(LinkFieldsOf(links) + xs)
  {
    hide ReadFields, BytesField, VarintField;
    if links == [] {
      assert LinkFields(links) + tail == tail && LinkFieldsOf(links) + xs == xs;
    } else {
      var l, rest := links[0], links[1..];
      LinksThen(rest, tail, xs);
      OctetsThen(2, LinkData(l), LinkFields(rest) + tail, LinkFieldsOf(rest) + xs);
      assert LinkFields(links) + tail == BytesField(2, LinkData(l)) + (LinkFields(rest) + tail);
      assert LinkFieldsOf(links) + xs == [Octets(2, LinkData(l))] + (LinkFieldsOf(rest) + xs);
    }
  }

  /** The links are read back, in order, and nothing else is found among them. */
  lemma {:induction false} LinksFound(links: seq<Link>, xs: seq<Field>)
    ensures Strings(LinkFieldsOf(links) + xs, 1) == Strings(xs, 1)
    ensures Strings(xs, 2) == [] ==> ReadLinks(Strings(LinkFieldsOf(links) + xs, 2)) == Some(AllRead(links))
  {
    hide Strings, LinkData, ReadLink;
    if links == [] {
      assert LinkFieldsOf(links) + xs == xs;
    } else {
      var l, rest := links[0], links[1..];
      var x, more := Octets(2, LinkData(l)), LinkFieldsOf(rest) + xs;
      LinksFound(rest, xs);
      assert LinkFieldsOf(links) + xs == [x] + more;
      FieldOf(x, more, 1);
      FieldOf(x, more, 2);
      LinkReads(l);
      assert ([LinkData(l)] + Strings(more, 2))[1..] == Strings(more, 2);
    }
  }

  function SizeFieldsOf(sizes: seq<nat>): seq<Field> {
    if sizes == [] then [] else [Number(4, sizes[0])] + SizeFieldsOf(sizes[1..])
  }

  lemma {:induction false} SizesThen(sizes: seq<nat>)
    ensures ReadFields(SizeFields(sizes)) == Some(SizeFieldsOf(sizes))
  {
    hide ReadFields, VarintField;
    if sizes == [] {
      NothingReads();
    } else {
      SizesThen(sizes[1..]);
      NumberThen(4, sizes[0], SizeFields(sizes[1..]), SizeFieldsOf(sizes[1..]));
    }
  }

  lemma {:induction false} SizesFound(sizes: seq<nat>, n: nat)
    ensures Numbers(SizeFieldsOf(sizes), n) == if n == 4 then sizes else []
    ensures Strings(SizeFieldsOf(sizes), n) == []
  {
    hide Strings, Numbers;
    NoFields(n);
    if sizes != [] {
      SizesFound(sizes[1..], n);
      FieldOf(Number(4, sizes[0]), SizeFieldsOf(sizes[1..]), n);
    }
  }

  lemma RootDataReads(total: nat, sizes: seq<nat>)
    ensures ReadFileData(RootData(total, sizes)) == Some(FileData(2, None, Some(total), sizes))
  {
    hide VarintField, ReadFields, Numbers, Strings, SizeFields, SizeFieldsOf;
    var rest, zs := VarintField(3, total) + SizeFields(sizes), SizeFieldsOf(sizes);
    var x, y := Number(1, 2), Number(3, total);
    SizesThen(sizes);
    NumberThen(3, total, SizeFields(sizes), zs);
    NumberThen(1, 2, rest, [y] + zs);
    assert RootData(total, sizes) == VarintField(1, 2) + rest;
    forall n: nat
      ensures Numbers([x] + ([y] + zs), n) ==
                (if n == 1 then [2] else []) + (if n == 3 then [total] else []) + if n == 4 then sizes else []
      ensures Strings([x] + ([y] + zs), n) == []
    {
      SizesFound(sizes, n);
      FieldOf(y, zs, n);
      FieldOf(x, [y] + zs, n);
    }
    assert [] + [] + sizes == sizes && [] + [total] + [] == [total] && [2] + [] + [] == [2];
  }

  /** A root has the links in order, and its data says type File, the size of the whole and those of the chunks. */
  lemma RootReads(links: seq<Link>, total: nat, sizes: seq<nat>)
    ensures ReadNode(RootBlock(links, total, sizes)) ==
              Some(PbNode(AllRead(links), FileData(2, None, Some(total), sizes)))
  {
    hide BytesField, ReadFields, Numbers, Strings, RootData, ReadFileData, LinkFields, LinkFieldsOf, ReadLinks;
    var x := Octets(1, RootData(total, sizes));
    NothingReads();
    OctetsThen(1, RootData(total, sizes), [], []);
    assert BytesField(1, RootData(total, sizes)) + [] == BytesField(1, RootData(total, sizes)) && [x] + [] == [x];
    LinksThen(links, BytesField(1, RootData(total, sizes)), [x]);
    RootDataReads(total, sizes);
    NoFields(1);
    NoFields(2);
    FieldOf(x, [], 1);
    FieldOf(x, [], 2);
    LinksFound(links, [x]);
  }

  lemma {:induction false} LinkFieldsAt(links: seq<Link>, i: nat)
    ensures |LinkFieldsOf(links)| == |links|
    ensures i < |links| ==> LinkFieldsOf(links)[i] == Octets(2, LinkData(links[i]))
  {
    if links != [] { LinkFieldsAt(links[1..], if i == 0 then 0 else i - 1); }
  }

  /** The links come before the data, as dag-pb demands. */
  lemma LinksBeforeData(links: seq<Link>, total: nat, sizes: seq<nat>)
    ensures var fs := ReadFields(RootBlock(links, total, sizes));
      && fs.Some? && |fs.value| == |links| + 1 && fs.value[|links|].field == 1
      && forall i :: 0 <= i < |links| ==> fs.value[i].field == 2
  {
    hide BytesField, ReadFields, LinkFields, LinkFieldsOf, RootData;
    var data := RootData(total, sizes);
    NothingReads();
    OctetsThen(1, data, [], []);
    assert BytesField(1, data) + [] == BytesField(1, data) && [Octets(1, data)] + [] == [Octets(1, data)];
    LinksThen(links, BytesField(1, data), [Octets(1, data)]);
    LinkFieldsAt(links, 0);
    forall i | 0 <= i < |links| ensures LinkFieldsOf(links)[i].field == 2 { LinkFieldsAt(links, i); }
  }

  // ------------------------------------------------------------ whole contents

  /** Chunk i: octets i * CHUNK up to the next multiple of CHUNK or the end. */
  function ChunkOf(data: seq<byte>, i: nat): seq<byte>
    requires i * CHUNK <= |data|
  {
    if |data| - i * CHUNK <= CHUNK then data[i * CHUNK..] else data[i * CHUNK..i * CHUNK + CHUNK]
  }

  lemma {:induction false} ChunkAt(data: seq<byte>, i: nat)
    requires i < |Chunks(data)|
    ensures i * CHUNK <= |data| && Chunks(data)[i] == ChunkOf(data, i)
    ensures (|Chunks(data)| - 1) * CHUNK <= |data| <= |Chunks(data)| * CHUNK && (|Chunks(data)| > 1 ==> (|Chunks(data)| - 1) * CHUNK < |data|)
    decreases |data|
  {
    if |data| > CHUNK {
      var rest := data[CHUNK..];
      assert Chunks(data)[1..] == Chunks(rest);
      ChunkAt(rest, if i == 0 then 0 else i - 1);
      if i > 0 {
        var a := (i - 1) * CHUNK;
        assert i * CHUNK == a + CHUNK;
        assert rest[a..] == data[a + CHUNK..];
        assert |rest| - a > CHUNK ==> rest[a..a + CHUNK] == data[a + CHUNK..a + CHUNK + CHUNK];
      }
    }
  }

  lemma {:induction false} SizeAt(chunks: seq<seq<byte>>, i: nat)
    ensures |Sizes(chunks)| == |chunks|
    ensures i < |chunks| ==> Sizes(chunks)[i] == |chunks[i]|
  {
    if chunks != [] { SizeAt(chunks[1..], if i == 0 then 0 else i - 1); }
  }

  /**
   What the block that names a content of more than a chunk says: type File, its
   size, and for each chunk in order its size, the CID of its leaf and the size of
   that leaf.
   */
  lemma TopReads(data: seq<byte>, sha: seq<byte> -> seq<byte>, i: nat)
    requires |data| > CHUNK && i < |Chunks(data)|
    ensures var node := ReadNode(TopBlock(data, sha));
      && node.Some? && node.value.data.kind == 2 && node.value.data.data.None? && node.value.data.filesize == Some(|data|)
      && |node.value.links| == |node.value.data.blocksizes| == |Chunks(data)|
      && i * CHUNK < |data| <= |Chunks(data)| * CHUNK
      && var leaf := LeafBlock(ChunkOf(data, i));
      && node.value.data.blocksizes[i] == |ChunkOf(data, i)|
      && node.value.links[i] == PbLink(Some([0x01, 0x70, 0x12, 0x20] + sha(leaf)), Some(|leaf|))
  {
    hide ReadNode, LeafBlock, RootBlock, Chunks, Sizes, Links, ChunkOf;
    var chunks := Chunks(data);
    RootReads(Links(chunks, sha), |data|, Sizes(chunks));
    ChunkAt(data, i);
    NotLast(i, |chunks|);
    SizeAt(chunks, i);
    LinkAt(chunks, sha, i);
  }

  lemma NotLast(i: nat, n: nat)
    requires i < n
    ensures i * CHUNK <= (n - 1) * CHUNK
  {
  }

  /** The CID of a content is version 1, dag-pb, sha2-256 of 32 octets, and the digest of the block that says the content. */
  lemma CidNames(data: seq<byte>, sha: seq<byte> -> seq<byte>)
    requires |data| <= CHUNK
    ensures exists block ::
      && ReadNode(block) == Some(PbNode([], FileData(2, Some(data), Some(|data|), [])))
      && ComputeCid(data, sha) == [0x01, 0x70, 0x12, 0x20] + sha(block)
  {
    hide ReadNode, LeafBlock;
    LeafReads(data);
  }

  /** The block of "hello", octet by octet. */
  lemma HelloBlock()
    ensures LeafBlock([104, 101, 108, 108, 111])
         == [0x0a, 0x0b, 0x08, 0x02, 0x12, 0x05, 104, 101, 108, 108, 111, 0x18, 0x05]
  {
    assert LeafData([104, 101, 108, 108, 111]) == [0x08, 0x02, 0x12, 0x05, 104, 101, 108, 108, 111, 0x18, 0x05];
  }
}
