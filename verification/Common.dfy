/** Types and small facts shared by the models of psiber, pfs, psi-sdk and psizam. */
module Common {

  /** An optional value; the source's nullable pointers and std::optional. */
  datatype Option<+T> = None | Some(value: T)

  /** The source's exceptions and error returns. */
  datatype Result<+T, +E> = Ok(value: T) | Err(error: E)

  /** An octet. */
  type byte = x: int | 0 <= x < 256

  const TWO32: nat := 0x1_0000_0000
  const TWO56: nat := 0x100_0000_0000_0000
  const TWO63: nat := 0x8000_0000_0000_0000
  const TWO64: nat := 0x1_0000_0000_0000_0000

  /** No value occurs at two positions. */
  ghost predicate NoDup<T>(s: seq<T>) {
    forall i, j :: 0 <= i < j < |s| ==> s[i] != s[j]
  }

  /** The k low-order octets of n, most significant first. */
  function BigEndian(n: nat, k: nat): (r: seq<byte>)
    ensures |r| == k
  {
    if k == 0 then [] else BigEndian(n / 256, k - 1) + [n % 256]
  }

  /** 256 to the power k. */
  function Pow256(k: nat): nat {
    if k == 0 then 1 else 256 * Pow256(k - 1)
  }

  function Pow2(k: nat): (r: nat)
    ensures r > 0
  {
    if k == 0 then 1 else 2 * Pow2(k - 1)
  }

  /** The number that octets spell, most significant first. */
  function Octets(bs: seq<byte>): nat {
    if bs == [] then 0 else Octets(bs[..|bs| - 1]) * 256 + bs[|bs| - 1]
  }

  lemma OctetsAppend(bs: seq<byte>, b: byte)
    ensures Octets(bs + [b]) == Octets(bs) * 256 + b
  {
    assert (bs + [b])[..|bs|] == bs;
  }

  lemma {:induction false} BigEndianReads(n: nat, k: nat)
    requires n < Pow256(k)
    ensures Octets(BigEndian(n, k)) == n
  {
    if k > 0 {
      BigEndianReads(n / 256, k - 1);
      assert BigEndian(n, k)[..k - 1] == BigEndian(n / 256, k - 1);
    }
  }

  lemma BigEndian2(n: nat)
    requires n <= 0xFFFF
    ensures BigEndian(n, 2) == [n / 0x100, n % 0x100]
  {
    assert BigEndian(n / 0x100, 1) == BigEndian(n / 0x100 / 0x100, 0) + [n / 0x100 % 0x100];
  }

  lemma BigEndian8(n: nat)
    ensures BigEndian(n, 8) == [
      n / 0x100_0000_0000_0000 % 0x100, n / 0x1_0000_0000_0000 % 0x100, n / 0x100_0000_0000 % 0x100,
      n / 0x1_0000_0000 % 0x100, n / 0x100_0000 % 0x100, n / 0x1_0000 % 0x100, n / 0x100 % 0x100, n % 0x100]
  {
    var n1, n2, n3, n4 := n / 0x100, n / 0x1_0000, n / 0x100_0000, n / 0x1_0000_0000;
    var n5, n6, n7 := n / 0x100_0000_0000, n / 0x1_0000_0000_0000, n / 0x100_0000_0000_0000;
    assert n2 == n1 / 0x100 && n3 == n2 / 0x100 && n4 == n3 / 0x100;
    assert n5 == n4 / 0x100 && n6 == n5 / 0x100 && n7 == n6 / 0x100;
    assert BigEndian(n7, 1) == [n7 % 0x100];
    assert BigEndian(n6, 2) == [n7 % 0x100, n6 % 0x100];
    assert BigEndian(n5, 3) == [n7 % 0x100, n6 % 0x100, n5 % 0x100];
    assert BigEndian(n4, 4) == [n7 % 0x100, n6 % 0x100, n5 % 0x100, n4 % 0x100];
    assert BigEndian(n3, 5) == [n7 % 0x100, n6 % 0x100, n5 % 0x100, n4 % 0x100, n3 % 0x100];
    assert BigEndian(n2, 6) == [n7 % 0x100, n6 % 0x100, n5 % 0x100, n4 % 0x100, n3 % 0x100, n2 % 0x100];
    assert BigEndian(n1, 7) == [n7 % 0x100, n6 % 0x100, n5 % 0x100, n4 % 0x100, n3 % 0x100, n2 % 0x100, n1 % 0x100];
  }

  /** Text as octets. */
  function Ascii(s: string): (r: seq<byte>)
    requires forall i :: 0 <= i < |s| ==> s[i] as int < 128
    ensures |r| == |s| && forall i :: 0 <= i < |s| ==> r[i] == s[i] as int
  {
    seq(|s|, i requires 0 <= i < |s| => s[i] as int)
  }

  /** The pieces put end to end. */
  function Concat(pieces: seq<seq<byte>>): seq<byte> {
    if pieces == [] then [] else Concat(pieces[..|pieces| - 1]) + pieces[|pieces| - 1]
  }

  lemma ConcatNone()
    ensures Concat([]) == []
  {
  }

  lemma ConcatOne(piece: seq<byte>)
    ensures Concat([piece]) == piece
  {
    assert Concat([]) == [];
  }

  lemma ConcatPush(pieces: seq<seq<byte>>, piece: seq<byte>)
    ensures Concat(pieces + [piece]) == Concat(pieces) + piece
  {
    assert (pieces + [piece])[..|pieces|] == pieces;
  }

  lemma {:induction false} ConcatFirst(pieces: seq<seq<byte>>)
    requires pieces != []
    ensures Concat(pieces) == pieces[0] + Concat(pieces[1..])
  {
    if |pieces| > 1 {
      var init := pieces[..|pieces| - 1];
      ConcatFirst(init);
      assert pieces[1..][..|pieces| - 2] == init[1..];
    }
  }
}
