/**
 Listing a directory of pfs: a cursor over the sorted keys of a root that
 visits the direct children under a key prefix.
 */
module DirCursor {
  import opened Common
  import opened Keys

  // ----------------------------------------------------------------- key order

  /** The order of keys: octet by octet, a prefix before its extensions. */
  predicate Less(a: Key, b: Key) {
    if b == [] then false
    else if a == [] then true
    else a[0] < b[0] || (a[0] == b[0] && Less(a[1..], b[1..]))
  }

  /** a and b agree on their first k octets, and a ends there or goes on with a smaller one. */
  ghost predicate FirstDifference(a: Key, b: Key, k: nat) {
    k <= |a| && k < |b| && a[..k] == b[..k] && (k < |a| ==> a[k] < b[k])
  }

  /** The first place where two keys differ decides. */
  lemma {:induction false} LessIff(a: Key, b: Key)
    ensures Less(a, b) <==> exists k: nat :: FirstDifference(a, b, k)
  {
    if a != [] && b != [] && a[0] == b[0] {
      LessIff(a[1..], b[1..]);
      if k: nat :| FirstDifference(a[1..], b[1..], k) {
        assert a[..k + 1] == [a[0]] + a[1..][..k] && b[..k + 1] == [b[0]] + b[1..][..k];
        assert FirstDifference(a, b, k + 1);
      }
      if k: nat :| FirstDifference(a, b, k) {
        assert k > 0 && a[1..][..k - 1] == a[..k][1..] && b[1..][..k - 1] == b[..k][1..];
        assert FirstDifference(a[1..], b[1..], k - 1);
      }
    } else if Less(a, b) {
      assert FirstDifference(a, b, 0);
    }
  }

  predicate HasPrefix(k: Key, p: Key) {
    p <= k
  }

  lemma {:induction false} LessTransitive(a: Key, b: Key, c: Key)
    requires Less(a, b) && Less(b, c)
    ensures Less(a, c)
  {
    if a != [] && a[0] == b[0] && b[0] == c[0] {
      LessTransitive(a[1..], b[1..], c[1..]);
    }
  }

  lemma {:induction false} LessTotal(a: Key, b: Key)
    ensures Less(a, b) || a == b || Less(b, a)
    ensures !(Less(a, b) && Less(b, a)) && !Less(a, a)
  {
    if a != [] {
      LessTotal(a[1..], a[1..]);
      if b != [] && a[0] == b[0] {
        LessTotal(a[1..], b[1..]);
        assert a == [a[0]] + a[1..] && b == [b[0]] + b[1..];
      }
    }
  }

  /** A key at or after a prefix and not under it is after every key under it. */
  lemma {:induction false} BeyondPrefix(p: Key, k: Key, under: Key)
    requires !Less(k, p) && !HasPrefix(k, p) && HasPrefix(under, p)
    ensures Less(under, k)
  {
    assert p != [];
    assert under[0] == p[0];
    if k[0] == p[0] {
      assert HasPrefix(under[1..], p[1..]);
      assert HasPrefix(k[1..], p[1..]) ==> HasPrefix(k, p);
      BeyondPrefix(p[1..], k[1..], under[1..]);
    }
  }

  /** A key under a prefix is not before it. */
  lemma {:induction false} UnderNotBefore(p: Key, k: Key)
    requires HasPrefix(k, p)
    ensures !Less(k, p)
  {
    if p != [] {
      assert HasPrefix(k[1..], p[1..]);
      UnderNotBefore(p[1..], k[1..]);
    }
  }

  /** Keys under the same prefix are ordered by what follows it. */
  lemma {:induction false} LessUnder(p: Key, a: Key, b: Key)
    ensures Less(p + a, p + b) <==> Less(a, b)
  {
    if p == [] {
      assert p + a == a && p + b == b;
    } else {
      LessUnder(p[1..], a, b);
      assert (p + a)[1..] == p[1..] + a && (p + b)[1..] == p[1..] + b;
    }
  }

  // ------------------------------------------------------------------- children

  /** A name with no slash, or one only at its end. */
  predicate IsName(rest: Key) {
    rest != [] && SLASH !in rest[..|rest| - 1]
  }

  predicate IsChild(k: Key, p: Key) {
    HasPrefix(k, p) && IsName(k[|p|..])
  }

  ghost predicate Sorted(keys: seq<Key>) {
    forall i, j :: 0 <= i < j < |keys| ==> Less(keys[i], keys[j])
  }

  /** The positions, from a given one on, that hold direct children. */
  function Children(keys: seq<Key>, p: Key, from: nat): seq<nat>
    decreases |keys| - from
  {
    if from >= |keys| then []
    else (if IsChild(keys[from], p) then [from] else []) + Children(keys, p, from + 1)
  }

  /** Exactly the direct children, once each, in key order. */
  lemma {:induction false} ChildrenExact(keys: seq<Key>, p: Key, from: nat)
    ensures var r := Children(keys, p, from);
      && (forall i :: 0 <= i < |r| ==> from <= r[i] < |keys| && IsChild(keys[r[i]], p))
      && (forall i, j :: 0 <= i < j < |r| ==> r[i] < r[j])
      && (forall k :: from <= k < |keys| && IsChild(keys[k], p) ==> k in r)
  {
    hide Children, IsChild;
    var r := Children(keys, p, from);
    forall i | 0 <= i < |r|
      ensures from <= r[i] < |keys| && IsChild(keys[r[i]], p)
    {
      ChildAt(keys, p, from, i);
    }
    forall i, j | 0 <= i < j < |r|
      ensures r[i] < r[j]
    {
      ChildOrder(keys, p, from, i, j);
    }
    forall k | from <= k < |keys| && IsChild(keys[k], p)
      ensures k in r
    {
      ChildIn(keys, p, from, k);
    }
  }

  lemma ChildrenStep(keys: seq<Key>, p: Key, from: nat)
    ensures from >= |keys| ==> Children(keys, p, from) == []
    ensures from < |keys| && IsChild(keys[from], p) ==> Children(keys, p, from) == [from] + Children(keys, p, from + 1)
    ensures from < |keys| && !IsChild(keys[from], p) ==> Children(keys, p, from) == Children(keys, p, from + 1)
  {
    hide IsChild;
    assert [] + Children(keys, p, from + 1) == Children(keys, p, from + 1);
  }

  lemma {:induction false} ChildAt(keys: seq<Key>, p: Key, from: nat, i: nat)
    requires i < |Children(keys, p, from)|
    ensures var k := Children(keys, p, from)[i];
      from <= k < |keys| && IsChild(keys[k], p)
    decreases |keys| - from
  {
    hide Children, IsChild;
    ChildrenStep(keys, p, from);
    if from < |keys| {
      if !IsChild(keys[from], p) {
        ChildAt(keys, p, from + 1, i);
      } else if i > 0 {
        ChildAt(keys, p, from + 1, i - 1);
      }
    }
  }

  lemma {:induction false} ChildOrder(keys: seq<Key>, p: Key, from: nat, i: nat, j: nat)
    requires i < j < |Children(keys, p, from)|
    ensures Children(keys, p, from)[i] < Children(keys, p, from)[j]
    decreases |keys| - from
  {
    hide Children, IsChild;
    ChildrenStep(keys, p, from);
    if from < |keys| {
      if !IsChild(keys[from], p) {
        ChildOrder(keys, p, from + 1, i, j);
      } else if i > 0 {
        ChildOrder(keys, p, from + 1, i - 1, j - 1);
      } else {
        ChildAt(keys, p, from + 1, j - 1);
      }
    }
  }

  lemma {:induction false} ChildIn(keys: seq<Key>, p: Key, from: nat, k: nat)
    requires from <= k < |keys| && IsChild(keys[k], p)
    ensures k in Children(keys, p, from)
    decreases |keys| - from
  {
    hide Children, IsChild;
    ChildrenStep(keys, p, from);
    if from < k {
      ChildIn(keys, p, from + 1, k);
    }
  }

  /** Beyond the first key past the prefix there are no more children. */
  lemma NoMoreChildren(keys: seq<Key>, p: Key, at: nat)
    requires Sorted(keys) && at < |keys| && !Less(keys[at], p) && !HasPrefix(keys[at], p)
    ensures Children(keys, p, at) == []
  {
    hide Children;
    ChildrenExact(keys, p, at);
    if Children(keys, p, at) != [] {
      var k := Children(keys, p, at)[0];
      BeyondPrefix(p, keys[at], keys[k]);
      LessTotal(keys[at], keys[k]);
    }
  }

  lemma {:induction false} NoChildren(keys: seq<Key>, p: Key, from: nat, upto: nat)
    requires from <= upto <= |keys| && forall k :: from <= k < upto ==> !IsChild(keys[k], p)
    ensures Children(keys, p, from) == Children(keys, p, upto)
    decreases upto - from
  {
    if from < upto {
      NoChildren(keys, p, from + 1, upto);
      assert [] + Children(keys, p, from + 1) == Children(keys, p, from + 1);
    }
  }

  /** What follows a child among the children is what follows it among the keys. */
  lemma {:induction false} ChildrenAfter(keys: seq<Key>, p: Key, from: nat, i: nat)
    requires i < |Children(keys, p, from)|
    ensures Children(keys, p, Children(keys, p, from)[i] + 1) == Children(keys, p, from)[i + 1..]
    decreases |keys| - from
  {
    var rest := Children(keys, p, from + 1);
    if IsChild(keys[from], p) {
      assert Children(keys, p, from) == [from] + rest;
      if i > 0 {
        ChildrenAfter(keys, p, from + 1, i - 1);
      }
    } else {
      assert Children(keys, p, from) == rest;
      ChildrenAfter(keys, p, from + 1, i);
    }
  }

  /** The name a child has in its directory. */
  function NameAt(keys: seq<Key>, p: Key, i: nat): Key
    requires i < |keys| && HasPrefix(keys[i], p)
  {
    keys[i][|p|..]
  }

  /** Children are listed in the order of their names. */
  lemma NamesInOrder(keys: seq<Key>, p: Key, from: nat, i: nat, j: nat)
    requires Sorted(keys) && i < j < |Children(keys, p, from)|
    ensures var all := Children(keys, p, from);
      && all[i] < all[j] < |keys| && IsChild(keys[all[i]], p) && IsChild(keys[all[j]], p)
      && Less(NameAt(keys, p, all[i]), NameAt(keys, p, all[j]))
  {
    hide Less, Children;
    ChildrenExact(keys, p, from);
    var a, b := Children(keys, p, from)[i], Children(keys, p, from)[j];
    LessUnder(p, NameAt(keys, p, a), NameAt(keys, p, b));
    assert p + NameAt(keys, p, a) == keys[a] && p + NameAt(keys, p, b) == keys[b];
  }

  /** Among file keys the children are the tenant's paths one name below the directory. */
  lemma ChildOfDirectory(t: Tenant, dir: Path, u: Tenant, path: Path)
    ensures IsChild(FsKey(u, path), FsKey(t, dir)) <==> t == u && dir <= path && IsName(path[|dir|..])
  {
    hide BigEndian;
    UnderDirectory(t, dir, u, path);
    if t == u && dir <= path {
      assert FsKey(u, path)[|FsKey(t, dir)|..] == path[|dir|..];
    }
  }

  // ------------------------------------------------------- the database's cursor

  /** The first position at or after a key. */
  function LowerBound(keys: seq<Key>, k: Key, from: nat := 0): (r: nat)
    requires from <= |keys|
    ensures from <= r <= |keys| && (r < |keys| ==> !Less(keys[r], k))
    ensures forall j :: from <= j < r ==> Less(keys[j], k)
    decreases |keys| - from
  {
    if from == |keys| || !Less(keys[from], k) then from else LowerBound(keys, k, from + 1)
  }

  /** The first position after a key. */
  function UpperBound(keys: seq<Key>, k: Key, from: nat := 0): (r: nat)
    requires from <= |keys|
    ensures from <= r <= |keys| && (r < |keys| ==> Less(k, keys[r]))
    ensures forall j :: from <= j < r ==> !Less(k, keys[j])
    decreases |keys| - from
  {
    if from == |keys| || Less(k, keys[from]) then from else UpperBound(keys, k, from + 1)
  }

  // -------------------------------------------------------------------- listing

  /** From a position on, nothing is before the prefix. */
  ghost predicate Reached(keys: seq<Key>, p: Key, from: nat) {
    forall j :: from <= j < |keys| ==> !Less(keys[j], p)
  }

  lemma ReachedBy(keys: seq<Key>, p: Key, from: nat)
    requires Sorted(keys) && from <= |keys| && (from < |keys| ==> !Less(keys[from], p))
    ensures Reached(keys, p, from)
  {
    forall j | from <= j < |keys|
      ensures !Less(keys[j], p)
    {
      if Less(keys[j], p) {
        if from < j {
          LessTransitive(keys[from], keys[j], p);
        }
      }
    }
  }

  /** All children are found from the lower bound of the prefix on. */
  lemma ChildrenFromLowerBound(keys: seq<Key>, p: Key)
    requires Sorted(keys)
    ensures Reached(keys, p, LowerBound(keys, p))
    ensures Children(keys, p, LowerBound(keys, p)) == Children(keys, p, 0)
  {
    var lb := LowerBound(keys, p);
    forall k | 0 <= k < lb
      ensures !IsChild(keys[k], p)
    {
      if HasPrefix(keys[k], p) {
        UnderNotBefore(p, keys[k]);
      }
    }
    NoChildren(keys, p, 0, lb);
    ReachedBy(keys, p, lb);
  }

  class Cursor<V> {
    const keys: seq<Key>
    const values: seq<V>
    const prefix: Key
    var at: int
    var valid: bool
    var current: Option<(Key, V)>

    /** Positioned at a child exactly when valid, with its name and value at hand. */
    ghost predicate Valid()
      reads this
    {
      && |values| == |keys| && Sorted(keys) && -1 <= at <= |keys|
      && (valid ==>
            && 0 <= at < |keys| && IsChild(keys[at], prefix) && Reached(keys, prefix, at)
            && current == Some((NameAt(keys, prefix, at), values[at])))
    }

    /** The children still to come, the current one first. */
    ghost function Remaining(): seq<nat>
      reads this
      requires Valid()
    {
      if valid then Children(keys, prefix, at) else []
    }

    lemma Here()
      requires Valid() && valid
      ensures 0 <= at < |keys| && current.Some? && Named(current.value.0, keys, prefix, at)
      ensures Remaining() != [] && Remaining()[0] == at
    {
      ChildrenHere(keys, prefix, at);
      NamedHere(keys, prefix, at);
    }

    lemma Exhausted()
      requires Valid()
      ensures !valid ==> Remaining() == []
    {
    }

    constructor (ks: seq<Key>, vs: seq<V>, p: Key)
      requires |vs| == |ks| && Sorted(ks)
      ensures Valid() && keys == ks && values == vs && prefix == p
      ensures Remaining() == Children(ks, p, 0)
    {
      keys, values, prefix := ks, vs, p;
      valid, current := false, None;
      at := LowerBound(ks, p);
      new;
      ChildrenFromLowerBound(keys, prefix);
      valid := SkipForward();
    }

    method SkipForward() returns (found: bool)
      requires |values| == |keys| && Sorted(keys) && 0 <= at <= |keys| && Reached(keys, prefix, at)
      modifies this`at, this`current
      ensures found <==> Children(keys, prefix, old(at)) != []
      ensures -1 <= at <= |keys|
      ensures found ==> old(at) <= at < |keys| && IsChild(keys[at], prefix) && current == Some((NameAt(keys, prefix, at), values[at]))
      ensures found ==> Children(keys, prefix, at) == Children(keys, prefix, old(at)) && Reached(keys, prefix, at)
    {
      hide Less, Sorted, Reached;
      while at < |keys|
        invariant old(at) <= at <= |keys|
        invariant Children(keys, prefix, at) == Children(keys, prefix, old(at))
      {
        var key := keys[at];
        ReachedAt(keys, prefix, old(at), at);
        if !(prefix <= key) {
          NoMoreChildren(keys, prefix, at);
          return false;
        }
        var remainder := key[|prefix|..];
        if |remainder| > 0 {
          var slash := Find(remainder, SLASH);
          if slash.None? || slash.value == |remainder| - 1 {
            current := Some((remainder, values[at]));
            return true;
          }
        }
        NoChildren(keys, prefix, at, at + 1);
        at := at + 1;
      }
      return false;
    }

    /** Backwards the children end at the first key that is not under the prefix, too. */
    method SkipBackward() returns (found: bool)
      requires |values| == |keys| && Sorted(keys) && -1 <= at < |keys|
      requires forall j :: 0 <= j <= at ==> HasPrefix(keys[j], prefix) || Less(keys[j], prefix)
      modifies this`at, this`current
      ensures -1 <= at <= old(at)
      ensures forall j :: 0 <= j <= old(at) && IsChild(keys[j], prefix) ==> found && j <= at
      ensures found ==> 0 <= at && IsChild(keys[at], prefix) && current == Some((NameAt(keys, prefix, at), values[at]))
    {
      hide Less, Sorted;
      while at != -1
        invariant -1 <= at <= old(at)
        invariant forall j :: at < j <= old(at) ==> !IsChild(keys[j], prefix)
        decreases at
      {
        var key := keys[at];
        if !(prefix <= key) {
          NoneBelow(keys, prefix, at);
          return false;
        }
        var remainder := key[|prefix|..];
        if |remainder| > 0 {
          var slash := Find(remainder, SLASH);
          if slash.None? || slash.value == |remainder| - 1 {
            current := Some((remainder, values[at]));
            return true;
          }
        }
        at := at - 1;
      }
      return false;
    }

    method Next() returns (more: bool)
      requires Valid()
      modifies this
      ensures Valid() && more == valid
      ensures Remaining() == if old(Remaining()) == [] then [] else old(Remaining())[1..]
    {
      hide Less, Sorted, Children;
      if !valid {
        return false;
      }
      ChildrenHere(keys, prefix, at);
      ReachedAt(keys, prefix, at, at + 1);
      at := at + 1;
      valid := SkipForward();
      return valid;
    }

    /** To the nearest child before the current one, if there is one. */
    method Prev() returns (more: bool)
      requires Valid()
      modifies this
      ensures Valid() && more == valid
      ensures !old(valid) ==> !valid
      ensures old(valid) ==> (valid <==> exists j :: 0 <= j < old(at) && IsChild(keys[j], prefix))
      ensures old(valid) && valid ==> at < old(at) && forall j :: at < j < old(at) ==> !IsChild(keys[j], prefix)
    {
      hide Less, Sorted, Reached;
      if !valid {
        return false;
      }
      BelowChild(keys, prefix, at);
      at := at - 1;
      valid := SkipBackward();
      if valid {
        ChildReached(keys, prefix, at);
      }
      return valid;
    }
  }

  lemma ChildrenHere(keys: seq<Key>, p: Key, at: nat)
    requires at < |keys| && IsChild(keys[at], p)
    ensures Children(keys, p, at) == [at] + Children(keys, p, at + 1)
  {
  }

  /** Before a child every key is under the prefix or before it. */
  lemma BelowChild(keys: seq<Key>, p: Key, at: nat)
    requires Sorted(keys) && at < |keys| && HasPrefix(keys[at], p)
    ensures forall j :: 0 <= j < at ==> HasPrefix(keys[j], p) || Less(keys[j], p)
  {
    forall j | 0 <= j < at
      ensures HasPrefix(keys[j], p) || Less(keys[j], p)
    {
      if !HasPrefix(keys[j], p) && !Less(keys[j], p) {
        BeyondPrefix(p, keys[j], keys[at]);
        LessTotal(keys[j], keys[at]);
      }
    }
  }

  /** Below a key before the prefix nothing is under it. */
  lemma NoneBelow(keys: seq<Key>, p: Key, at: nat)
    requires Sorted(keys) && at < |keys| && Less(keys[at], p)
    ensures forall j :: 0 <= j <= at ==> !HasPrefix(keys[j], p)
  {
    forall j | 0 <= j <= at
      ensures !HasPrefix(keys[j], p)
    {
      if HasPrefix(keys[j], p) {
        UnderNotBefore(p, keys[j]);
        if j < at {
          LessTransitive(keys[j], keys[at], p);
        }
      }
    }
  }

  lemma ChildReached(keys: seq<Key>, p: Key, at: nat)
    requires Sorted(keys) && at < |keys| && HasPrefix(keys[at], p)
    ensures Reached(keys, p, at)
  {
    UnderNotBefore(p, keys[at]);
    ReachedBy(keys, p, at);
  }

  lemma ReachedAt(keys: seq<Key>, p: Key, from: nat, at: nat)
    requires Reached(keys, p, from) && from <= at <= |keys|
    ensures Reached(keys, p, at) && (at < |keys| ==> !Less(keys[at], p))
  {
  }

  method Find(s: Key, b: byte) returns (r: Option<nat>)
    ensures r.None? ==> b !in s
    ensures r.Some? ==> r.value < |s| && s[r.value] == b && b !in s[..r.value]
  {
    for i := 0 to |s|
      invariant b !in s[..i]
    {
      if s[i] == b {
        return Some(i);
      }
    }
    return None;
  }

  // ------------------------------------------------------------------- store::ls

  /** The cursor of a listing, from the start or after a name. */
  method Ls<V>(keys: seq<Key>, values: seq<V>, t: Tenant, p: Path, after: Key) returns (c: Cursor<V>)
    requires |values| == |keys| && Sorted(keys)
    ensures fresh(c) && c.Valid() && c.keys == keys && c.values == values
    ensures c.prefix == FsKey(t, ListPath(Normalize(p)))
    ensures c.Remaining() == Children(keys, c.prefix, From(keys, c.prefix, after))
  {
    hide Less, Sorted, Children, Reached;
    var path := Normalize(p);
    if |path| > 0 && path[|path| - 1] != SLASH {
      path := path + [SLASH];
    }
    var prefix := FsKey(t, path);
    c := new Cursor(keys, values, prefix);
    if after != [] {
      c.at := UpperBound(keys, prefix + after);
      UpperBoundReached(keys, prefix, after);
      c.valid := c.SkipForward();
    }
  }

  /** Where a listing after a name starts. */
  function From(keys: seq<Key>, p: Key, after: Key): nat {
    if after == [] then 0 else UpperBound(keys, p + after)
  }

  lemma UpperBoundReached(keys: seq<Key>, p: Key, after: Key)
    requires Sorted(keys)
    ensures Reached(keys, p, UpperBound(keys, p + after))
  {
    var ub := UpperBound(keys, p + after);
    if ub < |keys| {
      UnderNotBefore(p, p + after);
      if Less(keys[ub], p) {
        LessTransitive(p + after, keys[ub], p);
      }
    }
    ReachedBy(keys, p, ub);
  }

  /** Resuming after the name of a child goes on with the next child. */
  lemma ResumeAfter(keys: seq<Key>, p: Key, i: nat)
    requires Sorted(keys) && i < |Children(keys, p, 0)|
    ensures var all := Children(keys, p, 0);
      && all[i] < |keys| && IsChild(keys[all[i]], p)
      && Children(keys, p, From(keys, p, NameAt(keys, p, all[i]))) == all[i + 1..]
  {
    hide Less, Children;
    ChildrenExact(keys, p, 0);
    var all := Children(keys, p, 0);
    var key := keys[all[i]];
    assert p + NameAt(keys, p, all[i]) == key;
    PositionAfter(keys, all[i]);
    ChildrenAfter(keys, p, 0, i);
  }

  lemma PositionAfter(keys: seq<Key>, i: nat)
    requires Sorted(keys) && i < |keys|
    ensures UpperBound(keys, keys[i]) == i + 1
  {
    var ub := UpperBound(keys, keys[i]);
    LessTotal(keys[i], keys[i]);
    assert i + 1 < |keys| ==> Less(keys[i], keys[i + 1]);
    if ub < i {
      LessTotal(keys[i], keys[ub]);
    }
  }

  /** The names of the children at given positions. */
  ghost predicate NamesAre(names: seq<Key>, keys: seq<Key>, p: Key, at: seq<nat>) {
    |names| == |at| && forall i :: 0 <= i < |at| ==> Named(names[i], keys, p, at[i])
  }

  ghost predicate Named(name: Key, keys: seq<Key>, p: Key, at: nat) {
    at < |keys| && IsName(name) && keys[at] == p + name
  }

  lemma NamedHere(keys: seq<Key>, p: Key, at: nat)
    requires at < |keys| && IsChild(keys[at], p)
    ensures Named(NameAt(keys, p, at), keys, p, at)
  {
  }

  lemma NamedOnce(name: Key, keys: seq<Key>, p: Key, at: nat)
    requires Named(name, keys, p, at)
    ensures IsChild(keys[at], p) && NameAt(keys, p, at) == name && name != []
  {
  }

  /** A page: up to a number of names from a cursor. */
  method TakePage<V>(c: Cursor<V>, size: nat) returns (page: seq<Key>, ghost taken: seq<nat>)
    requires c.Valid()
    modifies c
    ensures c.Valid()
    ensures taken == old(c.Remaining())[..if size <= |old(c.Remaining())| then size else |old(c.Remaining())|]
    ensures NamesAre(page, c.keys, c.prefix, taken)
  {
    hide Less, Sorted, Children, Reached, Named, Cursor.Valid, Cursor.Remaining;
    page, taken := [], [];
    ghost var all := c.Remaining();
    while |page| < size && c.valid
      invariant c.Valid() && |page| <= size
      invariant all == taken + c.Remaining()
      invariant NamesAre(page, c.keys, c.prefix, taken)
      decreases size - |page|
    {
      c.Here();
      page := page + [c.current.value.0];
      taken := taken + [c.at];
      var more := c.Next();
    }
    c.Exhausted();
  }

  /** Pages of any sizes, each resumed after the last name of the one before, make up the full listing. */
  method ListInPages<V>(keys: seq<Key>, values: seq<V>, t: Tenant, p: Path, sizes: nat -> nat) returns (names: seq<Key>)
    requires |values| == |keys| && Sorted(keys) && forall n :: sizes(n) > 0
    ensures var prefix := FsKey(t, ListPath(Normalize(p)));
      var all := Children(keys, prefix, 0);
      NamesAre(names, keys, prefix, all)
  {
    hide Less, Sorted, Children, Reached, Named, Cursor.Valid, Cursor.Remaining, IsChild, IsName, FsKey, ListPath, UpperBound;
    ghost var prefix := FsKey(t, ListPath(Normalize(p)));
    ghost var all := Children(keys, prefix, 0);
    names := [];
    var n, done := 0, false;
    NamesNone(keys, prefix, all);
    while !done
      invariant |names| <= |all| && (done ==> |names| == |all|)
      invariant NamesAre(names, keys, prefix, all[..|names|])
      decreases |all| - |names|, if done then 0 else 1
    {
      var after := if names == [] then [] else names[|names| - 1];
      var c := Ls(keys, values, t, p, after);
      Resumed(keys, prefix, names);
      var page, taken := TakePage(c, sizes(n));
      NamesJoin(names, page, keys, prefix, all, taken);
      names := names + page;
      n := n + 1;
      done := page == [];
    }
    assert all[..|all|] == all;
  }

  lemma NamesNone(keys: seq<Key>, p: Key, all: seq<nat>)
    ensures NamesAre([], keys, p, all[..0])
  {
  }

  /** After some names of a listing, resuming after the last one goes on with the rest. */
  lemma Resumed(keys: seq<Key>, p: Key, names: seq<Key>)
    requires Sorted(keys) && |names| <= |Children(keys, p, 0)|
    requires NamesAre(names, keys, p, Children(keys, p, 0)[..|names|])
    ensures Children(keys, p, From(keys, p, if names == [] then [] else names[|names| - 1]))
         == Children(keys, p, 0)[|names|..]
  {
    hide Sorted, Children, Named, IsChild, UpperBound;
    var all := Children(keys, p, 0);
    if names == [] {
      assert all[0..] == all;
    } else {
      ResumeAfter(keys, p, |names| - 1);
      NamedOnce(names[|names| - 1], keys, p, all[..|names|][|names| - 1]);
    }
  }

  lemma NamesJoin(names: seq<Key>, page: seq<Key>, keys: seq<Key>, p: Key, all: seq<nat>, taken: seq<nat>)
    requires |names| <= |all| && taken <= all[|names|..]
    requires NamesAre(names, keys, p, all[..|names|]) && NamesAre(page, keys, p, taken)
    ensures |names + page| <= |all| && NamesAre(names + page, keys, p, all[..|names + page|])
  {
    hide Named;
    assert all[..|names + page|] == all[..|names|] + taken;
  }

}
