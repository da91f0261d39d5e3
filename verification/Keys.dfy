/** The keys under which pfs keeps blocks, contents and files in a root, and the paths in them. */
module Keys {
  import opened Common

  type Key = seq<byte>
  type Path = seq<byte>
  type Tenant = x: int | 0 <= x < 0x1_0000_0000_0000_0000

  const SLASH: byte := 47

  /** The path under which a tenant's quota record is kept: "$meta". */
  const META: Path := [36, 109, 101, 116, 97]

  /** A path without its leading slash. */
  function Normalize(p: Path): Path {
    if |p| > 0 && p[0] == SLASH then p[1..] else p
  }

  /** One leading slash is dropped, and nothing else. */
  lemma Normalized(p: Path)
    ensures Normalize([SLASH] + p) == p
    ensures p == [] || p[0] != SLASH ==> Normalize(p) == p
  {
  }

  /** Directories are kept under a path that ends in a slash. */
  function AsDirectory(p: Path): Path {
    if |p| == 0 || p[|p| - 1] != SLASH then p + [SLASH] else p
  }

  /** A slash is added where there is none, and only there. */
  lemma DirectoryPath(p: Path)
    ensures AsDirectory(p + [SLASH]) == p + [SLASH]
    ensures p == [] || p[|p| - 1] != SLASH ==> AsDirectory(p) == p + [SLASH]
    ensures p != [] && p[|p| - 1] != SLASH ==> ListPath(p) == p + [SLASH]
    ensures ListPath([]) == [] && ListPath(p + [SLASH]) == p + [SLASH]
  {
  }

  /** What the paths under a directory start with; nothing for the top. */
  function ListPath(p: Path): Path {
    if p == [] then [] else AsDirectory(p)
  }

  function BlockKey(id: nat): Key {
    [66] + BigEndian(id, 8)
  }

  function CasKey(cid: seq<byte>): Key {
    [67] + cid
  }

  function FsKey(t: Tenant, p: Path): Key {
    [70] + BigEndian(t, 8) + p
  }

  /** The letters that start the keys, and the name of the quota record. */
  lemma Letters(id: nat, cid: seq<byte>, t: Tenant, p: Path)
    ensures BlockKey(id)[..1] == Ascii("B") && CasKey(cid)[..1] == Ascii("C") && FsKey(t, p)[..1] == Ascii("F")
    ensures META == Ascii("$meta") && [SLASH] == Ascii("/")
  {
  }

  lemma {:induction false} BigEndianUnique(a: nat, b: nat, k: nat)
    requires a < Pow256(k) && b < Pow256(k) && BigEndian(a, k) == BigEndian(b, k)
    ensures a == b
  {
    if k > 0 {
      var x, y := BigEndian(a / 256, k - 1), BigEndian(b / 256, k - 1);
      assert BigEndian(a, k) == x + [a % 256] && BigEndian(b, k) == y + [b % 256];
      assert x == (x + [a % 256])[..k - 1] && y == (y + [b % 256])[..k - 1];
      assert (x + [a % 256])[k - 1] == a % 256 && (y + [b % 256])[k - 1] == b % 256;
      BigEndianUnique(a / 256, b / 256, k - 1);
    }
  }

  lemma EightOctets()
    ensures Pow256(8) == TWO64
  {
    assert Pow256(2) == 0x1_0000 && Pow256(4) == 0x1_0000_0000 && Pow256(6) == 0x1_0000_0000_0000;
  }

  /** The eight octets after the letter spell the block id and the tenant. */
  lemma KeysRead(id: uint64, t: Tenant, p: Path)
    ensures |BlockKey(id)| == 9 && Octets(BlockKey(id)[1..]) == id
    ensures Octets(FsKey(t, p)[1..9]) == t && FsKey(t, p)[9..] == p
  {
    hide BigEndian, Pow256;
    EightOctets();
    BigEndianReads(id, 8);
    BigEndianReads(t, 8);
    assert BlockKey(id)[1..] == BigEndian(id, 8) && FsKey(t, p)[1..9] == BigEndian(t, 8);
  }

  /** A key is under a directory's prefix exactly when it is a file key of that tenant whose path is under the directory. */
  lemma UnderDirectory(t: Tenant, dir: Path, u: Tenant, path: Path)
    ensures FsKey(t, dir) <= FsKey(u, path) <==> t == u && dir <= path
  {
    hide BigEndian, Pow256;
    var a, b := FsKey(t, dir), FsKey(u, path);
    assert a[1..9] == BigEndian(t, 8) && b[1..9] == BigEndian(u, 8);
    assert a[9..] == dir && b[9..] == path;
    if a <= b {
      assert a[1..9] == b[1..9];
      EightOctets();
      BigEndianUnique(t, u, 8);
      assert forall i :: 0 <= i < |dir| ==> dir[i] == a[9 + i] == b[9 + i] == path[i];
    }
    if t == u && dir <= path {
      assert forall i :: 0 <= i < |a| ==> a[i] == b[i];
    }
  }

  /** Different files have different keys. */
  lemma FsKeyUnique(t: Tenant, p: Path, u: Tenant, q: Path)
    requires FsKey(t, p) == FsKey(u, q)
    ensures t == u && p == q
  {
    UnderDirectory(t, p, u, q);
    UnderDirectory(u, q, t, p);
  }

  /** Blocks and contents are never under a directory. */
  lemma OtherKeys(t: Tenant, dir: Path, id: nat, cid: seq<byte>)
    ensures !(FsKey(t, dir) <= BlockKey(id)) && !(FsKey(t, dir) <= CasKey(cid))
  {
    assert FsKey(t, dir)[0] != BlockKey(id)[0] && FsKey(t, dir)[0] != CasKey(cid)[0];
  }

  // ----------------------------------------------------------------------- shards

  type uint64 = x: int | 0 <= x < 0x1_0000_0000_0000_0000

  /** The root a discriminant belongs to, among a power of two of them. */
  function ShardOf(d: bv64, count: bv64): bv64 {
    var a := d ^ (d >> 33);
    var b := a * 0xff51_afd7_ed55_8ccd;
    var c := b ^ (b >> 33);
    c & (count - 1)
  }

  /** Eight octets as a number, least significant first, as the processor loads them. */
  function Word(s: seq<byte>): uint64
    requires |s| == 8
  {
    var (a, b, c, d) := (s[0] as int, s[1] as int, s[2] as int, s[3] as int);
    var (e, f, g, h) := (s[4] as int, s[5] as int, s[6] as int, s[7] as int);
    a + 0x100 * b + 0x1_0000 * c + 0x100_0000 * d + 0x1_0000_0000 * e
    + 0x100_0000_0000 * f + 0x1_0000_0000_0000 * g + 0x100_0000_0000_0000 * h
  }

  /** The octets in the other order spell the word. */
  lemma WordReads(s: seq<byte>)
    requires |s| == 8
    ensures Octets([s[7], s[6], s[5], s[4], s[3], s[2], s[1], s[0]]) == Word(s)
  {
    hide Octets;
    OctetsAppend([], s[7]);
    OctetsAppend([s[7]], s[6]);
    OctetsAppend([s[7], s[6]], s[5]);
    OctetsAppend([s[7], s[6], s[5]], s[4]);
    OctetsAppend([s[7], s[6], s[5], s[4]], s[3]);
    OctetsAppend([s[7], s[6], s[5], s[4], s[3]], s[2]);
    OctetsAppend([s[7], s[6], s[5], s[4], s[3], s[2]], s[1]);
    OctetsAppend([s[7], s[6], s[5], s[4], s[3], s[2], s[1]], s[0]);
    assert [s[7]] + [s[6]] == [s[7], s[6]] && [] + [s[7]] == [s[7]];
    assert [s[7], s[6]] + [s[5]] == [s[7], s[6], s[5]];
    assert [s[7], s[6], s[5]] + [s[4]] == [s[7], s[6], s[5], s[4]];
    assert [s[7], s[6], s[5], s[4]] + [s[3]] == [s[7], s[6], s[5], s[4], s[3]];
    assert [s[7], s[6], s[5], s[4], s[3]] + [s[2]] == [s[7], s[6], s[5], s[4], s[3], s[2]];
    assert [s[7], s[6], s[5], s[4], s[3], s[2]] + [s[1]] == [s[7], s[6], s[5], s[4], s[3], s[2], s[1]];
    assert [s[7], s[6], s[5], s[4], s[3], s[2], s[1]] + [s[0]] == [s[7], s[6], s[5], s[4], s[3], s[2], s[1], s[0]];
    NoOctets();
  }

  lemma NoOctets()
    ensures Octets([]) == 0
  {
  }

  function Bits(n: uint64): bv64 {
    n as bv64
  }

  function Index(b: bv64): nat {
    b as nat
  }

  /** The root of a content: from the first octets of its digest. */
  function CasShard(cid: seq<byte>, count: uint64): nat {
    if |cid| < 12 then 0 else Index(ShardOf(Bits(Word(cid[4..12])), Bits(count)))
  }

  /** A content's root is that of the first eight octets of its digest, which follow the four octets of its CID. */
  lemma CasShardReads(lead: seq<byte>, digest: seq<byte>, count: uint64)
    requires |lead| == 4 && |digest| >= 8
    ensures CasShard(lead + digest, count) == BlockShard(Word(digest[..8]), count)
  {
    hide ShardOf, Bits, Index, Word;
    assert (lead + digest)[4..12] == digest[..8];
  }

  /** The root of a block. */
  function BlockShard(id: nat, count: uint64): nat {
    if id >= 0x1_0000_0000_0000_0000 then 0 else Index(ShardOf(Bits(id), Bits(count)))
  }

  lemma SmallBits()
    ensures Bits(1) == 1 && Bits(256) == 256 && Bits(0x0100_0000_0000_0001) == 0x0100_0000_0000_0001
    ensures Index(0) == 0 && Index(130) == 130
  {
  }

  /** With one root everything is in it. */
  lemma OneRoot(cid: seq<byte>, id: nat)
    ensures CasShard(cid, 1) == 0 && BlockShard(id, 1) == 0
  {
    hide ShardOf, Bits, Index, Word;
    SmallBits();
    if |cid| >= 12 { OneShard(Bits(Word(cid[4..12]))); }
    if id < 0x1_0000_0000_0000_0000 { OneShard(Bits(id)); }
  }

  lemma OneShard(d: bv64)
    ensures ShardOf(d, 1) == 0
  {
  }

  lemma FirstHash()
    ensures ShardOf(0x0100_0000_0000_0001, 256) == 130
  {
  }

  lemma FirstShard()
    ensures BlockShard(0x0100_0000_0000_0001, 256) == 130
  {
    hide ShardOf, Bits, Index;
    SmallBits();
    FirstHash();
  }
}
