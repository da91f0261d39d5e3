/**
 The file layer of pfs: paths of tenants name contents in the content store,
 and each tenant's use is charged against a quota.
 */
module Store {
  import opened Common
  import opened Cas
  import opened Keys
  import Unixfs

  type FileKey = (Tenant, Path)

  datatype Kind = File | Directory
  datatype FsEntry = FsEntry(kind: Kind, mode: nat, owner: nat, mtime: nat, size: nat, cid: Option<Cid>)
  datatype Quota = Quota(limit: nat, used: nat)
  datatype StoreError = QuotaExceeded | SourceNotFound | SourceHasNoContent | BlockMissing

  /** What an operation leaves behind: a pin that nothing will release, and a charge for no file of the tenant's. */
  datatype Residue = Residue(pin: Option<Cid>, tenant: Tenant, charge: nat)

  type Files = map<FileKey, FsEntry>

  // ------------------------------------------------------------------ sums over a map

  ghost function Pick<K, V>(m: map<K, V>): (k: K)
    requires m != map[]
    ensures k in m
  {
    assert m.Keys != {};
    var k :| k in m.Keys;
    k
  }

  ghost function Total<K, V>(m: map<K, V>, w: (K, V) -> nat): nat
    decreases |m|
  {
    if m == map[] then 0
    else var k := Pick(m);
      Shrinks(m, k);
      w(k, m[k]) + Total(m - {k}, w)
  }

  lemma Shrinks<K, V>(m: map<K, V>, k: K)
    requires k in m
    ensures |m - {k}| < |m|
  {
    assert (m - {k}).Keys == m.Keys - {k};
  }

  /** The order of summation does not matter. */
  lemma {:induction false} TotalAt<K, V>(m: map<K, V>, w: (K, V) -> nat, k: K)
    requires k in m
    ensures Total(m, w) == w(k, m[k]) + Total(m - {k}, w)
    decreases |m|
  {
    var j := Pick(m);
    if j != k {
      Shrinks(m, j);
      Shrinks(m, k);
      TotalAt(m - {j}, w, k);
      TotalAt(m - {k}, w, j);
      assert (m - {j}) - {k} == (m - {k}) - {j};
    }
  }

  lemma TotalSet<K, V>(m: map<K, V>, w: (K, V) -> nat, k: K, v: V)
    ensures Total(m[k := v], w) == Total(m - {k}, w) + w(k, v)
    ensures k in m ==> Total(m, w) == w(k, m[k]) + Total(m - {k}, w)
    ensures k !in m ==> m - {k} == m
  {
    TotalAt(m[k := v], w, k);
    assert m[k := v] - {k} == m - {k};
    if k in m {
      TotalAt(m, w, k);
    }
  }

  lemma TotalRemove<K, V>(m: map<K, V>, w: (K, V) -> nat, k: K)
    requires k in m
    ensures Total(m, w) == Total(m - {k}, w) + w(k, m[k])
  {
    TotalAt(m, w, k);
  }

  // ------------------------------------------------------------- what a run keeps

  ghost function NameWeight(c: Cid): (FileKey, FsEntry) -> nat {
    (k: FileKey, e: FsEntry) => if e.cid == Some(c) then 1 else 0
  }

  function SizeFor(t: Tenant, k: FileKey, e: FsEntry): nat {
    if k.0 == t then e.size else 0
  }

  ghost function SizeWeight(t: Tenant): (FileKey, FsEntry) -> nat {
    (k: FileKey, e: FsEntry) => SizeFor(t, k, e)
  }

  /** How many entries name a content. */
  ghost function Names(files: Files, c: Cid): nat {
    Total(files, NameWeight(c))
  }

  /** The sizes of a tenant's files. */
  ghost function SizeSum(files: Files, t: Tenant): nat {
    Total(files, SizeWeight(t))
  }

  function Count(m: map<Cid, nat>, c: Cid): nat {
    if c in m then m[c] else 0
  }

  function QuotaOf(quotas: map<Tenant, Quota>, t: Tenant): Quota {
    if t in quotas then quotas[t] else Quota(0, 0)
  }

  function SizeAt(files: Files, k: FileKey): nat {
    if k in files then files[k].size else 0
  }

  function CidAt(files: Files, k: FileKey): Option<Cid> {
    if k in files then files[k].cid else None
  }

  /** The pins of a content that the operations so far left behind. */
  function LostPins(history: seq<Residue>, c: Cid): nat {
    if history == [] then 0
    else LostPins(history[..|history| - 1], c) + (if history[|history| - 1].pin == Some(c) then 1 else 0)
  }

  /** What the operations so far charged a tenant for no file. */
  function Overcharge(history: seq<Residue>, t: Tenant): nat {
    if history == [] then 0
    else Overcharge(history[..|history| - 1], t)
         + (if history[|history| - 1].tenant == t then history[|history| - 1].charge else 0)
  }

  predicate Clean(r: Residue) {
    r.pin.None? && r.charge == 0
  }

  /** A content is pinned once for every entry that names it, every pin a caller holds and every pin left behind. */
  ghost predicate Referenced(files: Files, external: map<Cid, nat>, history: seq<Residue>, pins: map<Cid, nat>) {
    forall c: Cid :: Names(files, c) + Count(external, c) + LostPins(history, c) == Count(pins, c)
  }

  ghost predicate ChargedTo(files: Files, history: seq<Residue>, quotas: map<Tenant, Quota>, t: Tenant) {
    SizeSum(files, t) + Overcharge(history, t) == QuotaOf(quotas, t).used < TWO64
  }

  /** A tenant is charged the sizes of its files and what was charged for no file. */
  ghost predicate Charged(files: Files, history: seq<Residue>, quotas: map<Tenant, Quota>) {
    forall t: Tenant :: ChargedTo(files, history, quotas, t)
  }

  lemma LostPinsPush(history: seq<Residue>, r: Residue, c: Cid)
    ensures LostPins(history + [r], c) == LostPins(history, c) + (if r.pin == Some(c) then 1 else 0)
  {
    assert (history + [r])[..|history|] == history;
  }

  lemma OverchargePush(history: seq<Residue>, r: Residue, t: Tenant)
    ensures Overcharge(history + [r], t) == Overcharge(history, t) + (if r.tenant == t then r.charge else 0)
  {
    assert (history + [r])[..|history|] == history;
  }

  lemma {:induction false} CleanHistory(history: seq<Residue>, c: Cid, t: Tenant)
    requires forall i :: 0 <= i < |history| ==> Clean(history[i])
    ensures LostPins(history, c) == 0 && Overcharge(history, t) == 0
  {
    if history != [] {
      CleanHistory(history[..|history| - 1], c, t);
      assert Clean(history[|history| - 1]);
    }
  }

  lemma {:induction false} ResidueCounts(history: seq<Residue>, i: nat)
    requires i < |history|
    ensures history[i].pin.Some? ==> LostPins(history, history[i].pin.value) >= 1
    ensures Overcharge(history, history[i].tenant) >= history[i].charge
  {
    if i < |history| - 1 {
      ResidueCounts(history[..|history| - 1], i);
    }
  }

  /** The counts and charges are those of the files and callers alone. */
  ghost predicate Exact(files: Files, external: map<Cid, nat>, pins: map<Cid, nat>, quotas: map<Tenant, Quota>) {
    && (forall c: Cid :: Names(files, c) + Count(external, c) == Count(pins, c))
    && (forall t: Tenant :: SizeSum(files, t) == QuotaOf(quotas, t).used)
  }

  /** They are so exactly when no operation left anything behind. */
  lemma ExactIffClean(files: Files, external: map<Cid, nat>, history: seq<Residue>, pins: map<Cid, nat>,
                      quotas: map<Tenant, Quota>)
    requires Referenced(files, external, history, pins) && Charged(files, history, quotas)
    ensures Exact(files, external, pins, quotas) <==> forall i :: 0 <= i < |history| ==> Clean(history[i])
  {
    hide Names, SizeSum, LostPins, Overcharge;
    if forall i :: 0 <= i < |history| ==> Clean(history[i]) {
      forall c: Cid
        ensures Names(files, c) + Count(external, c) == Count(pins, c)
      {
        CleanHistory(history, c, 0);
      }
      forall t: Tenant
        ensures SizeSum(files, t) == QuotaOf(quotas, t).used
      {
        CleanHistory(history, [], t);
        assert ChargedTo(files, history, quotas, t);
      }
    } else {
      var i :| 0 <= i < |history| && !Clean(history[i]);
      ResidueCounts(history, i);
      var r := history[i];
      assert ChargedTo(files, history, quotas, r.tenant);
      if r.pin.Some? {
        assert Names(files, r.pin.value) + Count(external, r.pin.value) != Count(pins, r.pin.value);
      } else {
        assert SizeSum(files, r.tenant) != QuotaOf(quotas, r.tenant).used;
      }
    }
  }

  /** Files name what was written to them. */
  ghost predicate Written(files: Files, texts: map<FileKey, seq<byte>>, contents: map<Cid, seq<byte>>) {
    forall k :: k in files ==>
      match files[k].cid
      case None => files[k].kind == Directory && files[k].size == 0
      case Some(c) => files[k].kind == File && k in texts && files[k].size == |texts[k]| && (c in contents ==> contents[c] == texts[k])
  }

  lemma NamesSet(files: Files, k: FileKey, e: FsEntry, c: Cid)
    ensures Names(files[k := e], c) + (if k in files && files[k].cid == Some(c) then 1 else 0)
         == Names(files, c) + (if e.cid == Some(c) then 1 else 0)
  {
    TotalSet(files, NameWeight(c), k, e);
  }

  lemma SizeSumSet(files: Files, k: FileKey, e: FsEntry, t: Tenant)
    ensures SizeSum(files[k := e], t) + (if k.0 == t then SizeAt(files, k) else 0)
         == SizeSum(files, t) + (if k.0 == t then e.size else 0)
  {
    TotalSet(files, SizeWeight(t), k, e);
  }

  lemma NamesRemove(files: Files, k: FileKey, c: Cid)
    requires k in files
    ensures Names(files, c) == Names(files - {k}, c) + (if files[k].cid == Some(c) then 1 else 0)
  {
    TotalRemove(files, NameWeight(c), k);
  }

  lemma SizeSumRemove(files: Files, k: FileKey, t: Tenant)
    requires k in files
    ensures SizeSum(files, t) == SizeSum(files - {k}, t) + (if k.0 == t then files[k].size else 0)
  {
    TotalRemove(files, SizeWeight(t), k);
  }

  /** A content that an entry names is in the store. */
  lemma NamedIsPinned(files: Files, external: map<Cid, nat>, history: seq<Residue>, pins: map<Cid, nat>, k: FileKey)
    requires Referenced(files, external, history, pins) && k in files && files[k].cid.Some?
    ensures files[k].cid.value in pins
  {
    var c := files[k].cid.value;
    TotalAt(files, NameWeight(c), k);
    assert Names(files, c) >= 1;
  }

  lemma ReleasedOnce(pins: map<Cid, nat>, c: Cid, after: map<Cid, nat>)
    requires Count(pins, c) > 0
    requires c in pins && pins[c] > 1 ==> after == pins[c := pins[c] - 1]
    requires c in pins && pins[c] <= 1 ==> after == pins - {c}
    ensures Released(pins, c, after)
  {
  }

  // A pin on its way from the content store to a file or back is held by the operation meanwhile.

  function Hold(held: map<Cid, nat>, c: Cid): map<Cid, nat> {
    held[c := Count(held, c) + 1]
  }

  lemma PinHeld(files: Files, held: map<Cid, nat>, history: seq<Residue>, pins: map<Cid, nat>, c: Cid)
    requires Referenced(files, held, history, pins)
    ensures Referenced(files, Hold(held, c), history, pins[c := Count(pins, c) + 1])
  {
    forall x: Cid
      ensures Names(files, x) + Count(Hold(held, c), x) + LostPins(history, x) == Count(pins[c := Count(pins, c) + 1], x)
    {
      assert Names(files, x) + Count(held, x) + LostPins(history, x) == Count(pins, x);
    }
  }

  /** The held pin becomes that of the entry at k, and the pin of the entry it replaces is held. */
  lemma HeldFiled(files: Files, held: map<Cid, nat>, history: seq<Residue>, pins: map<Cid, nat>, k: FileKey, e: FsEntry, c: Cid)
    requires Referenced(files, Hold(held, c), history, pins) && e.cid == Some(c)
    ensures var after := if k in files && files[k].cid.Some? then Hold(held, files[k].cid.value) else held;
      Referenced(files[k := e], after, history, pins)
  {
    var after := if k in files && files[k].cid.Some? then Hold(held, files[k].cid.value) else held;
    var filed := files[k := e];
    forall x: Cid
      ensures Names(filed, x) + Count(after, x) + LostPins(history, x) == Count(pins, x)
    {
      NamesSet(files, k, e, x);
      assert Names(files, x) + Count(Hold(held, c), x) + LostPins(history, x) == Count(pins, x);
    }
  }

  /** The pin of a removed or overwritten entry is held. */
  lemma FiledHeld(files: Files, held: map<Cid, nat>, history: seq<Residue>, pins: map<Cid, nat>, k: FileKey)
    requires Referenced(files, held, history, pins) && k in files
    ensures var after := if files[k].cid.Some? then Hold(held, files[k].cid.value) else held;
      Referenced(files - {k}, after, history, pins)
  {
    var after := if files[k].cid.Some? then Hold(held, files[k].cid.value) else held;
    var left := files - {k};
    forall x: Cid
      ensures Names(left, x) + Count(after, x) + LostPins(history, x) == Count(pins, x)
    {
      NamesRemove(files, k, x);
      assert Names(files, x) + Count(held, x) + LostPins(history, x) == Count(pins, x);
    }
  }

  lemma HeldUnpinned(files: Files, held: map<Cid, nat>, history: seq<Residue>, pins: map<Cid, nat>, c: Cid, after: map<Cid, nat>)
    requires Referenced(files, Hold(held, c), history, pins) && Released(pins, c, after)
    ensures Referenced(files, held, history, after)
  {
    forall x: Cid
      ensures Names(files, x) + Count(held, x) + LostPins(history, x) == Count(after, x)
    {
      assert Names(files, x) + Count(Hold(held, c), x) + LostPins(history, x) == Count(pins, x);
    }
  }

  lemma HeldIsPinned(files: Files, held: map<Cid, nat>, history: seq<Residue>, pins: map<Cid, nat>, c: Cid)
    requires Referenced(files, Hold(held, c), history, pins)
    ensures Count(pins, c) > 0
  {
    hide Names, LostPins;
    assert Names(files, c) + Count(Hold(held, c), c) + LostPins(history, c) == Count(pins, c);
  }

  /** A held pin may be forgotten: it then stays for good. */
  lemma HeldForgotten(files: Files, held: map<Cid, nat>, history: seq<Residue>, pins: map<Cid, nat>, c: Cid, r: Residue)
    requires Referenced(files, Hold(held, c), history, pins) && r.pin == Some(c)
    ensures Referenced(files, held, history + [r], pins)
  {
    hide Names, LostPins;
    forall x: Cid
      ensures Names(files, x) + Count(held, x) + LostPins(history + [r], x) == Count(pins, x)
    {
      assert Names(files, x) + Count(Hold(held, c), x) + LostPins(history, x) == Count(pins, x);
      LostPinsPush(history, r, x);
    }
  }

  lemma NothingForgotten(files: Files, held: map<Cid, nat>, history: seq<Residue>, pins: map<Cid, nat>, r: Residue)
    requires Referenced(files, held, history, pins) && r.pin == None
    ensures Referenced(files, held, history + [r], pins)
  {
    hide Names, LostPins;
    forall x: Cid
      ensures Names(files, x) + Count(held, x) + LostPins(history + [r], x) == Count(pins, x)
    {
      assert Names(files, x) + Count(held, x) + LostPins(history, x) == Count(pins, x);
      LostPinsPush(history, r, x);
    }
  }

  /** One pin of c fewer. */
  ghost predicate Released(pins: map<Cid, nat>, c: Cid, after: map<Cid, nat>) {
    forall x: Cid :: Count(pins, x) == Count(after, x) + (if x == c then 1 else 0)
  }

  /** The charge for replacing the entry at k, with what it charges for no file, is sound exactly when it does not pass 2^64. */
  lemma ChargedSet(files: Files, history: seq<Residue>, quotas: map<Tenant, Quota>, k: FileKey, e: FsEntry, q: Quota,
                   delta: int, r: Residue)
    requires Charged(files, history, quotas)
    requires r.tenant == k.0 && delta == e.size - SizeAt(files, k) + r.charge
    requires q.used == (QuotaOf(quotas, k.0).used + delta) % TWO64
    ensures Charged(files[k := e], history + [r], quotas[k.0 := q]) <==> QuotaOf(quotas, k.0).used + delta < TWO64
  {
    hide SizeSum, SizeAt, Overcharge;
    var t := k.0;
    SizeSumSet(files, k, e, t);
    OverchargePush(history, r, t);
    assert ChargedTo(files, history, quotas, t);
    SizeBelow(files, k);
    var filed, billed := files[k := e], quotas[t := q];
    if QuotaOf(quotas, t).used + delta < TWO64 {
      forall u: Tenant
        ensures ChargedTo(filed, history + [r], billed, u)
      {
        SizeSumSet(files, k, e, u);
        OverchargePush(history, r, u);
        assert ChargedTo(files, history, quotas, u);
      }
    } else {
      assert !ChargedTo(filed, history + [r], billed, t);
    }
  }

  lemma ChargedSame(files: Files, history: seq<Residue>, quotas: map<Tenant, Quota>, r: Residue)
    requires Charged(files, history, quotas) && r.charge == 0
    ensures Charged(files, history + [r], quotas)
  {
    hide SizeSum, Overcharge;
    forall u: Tenant
      ensures ChargedTo(files, history + [r], quotas, u)
    {
      OverchargePush(history, r, u);
      assert ChargedTo(files, history, quotas, u);
    }
  }

  lemma SizeBelow(files: Files, k: FileKey)
    ensures SizeAt(files, k) <= SizeSum(files, k.0)
  {
    if k in files {
      TotalAt(files, SizeWeight(k.0), k);
    }
  }

  lemma ChargedRemove(files: Files, history: seq<Residue>, quotas: map<Tenant, Quota>, k: FileKey, q: Quota)
    requires Charged(files, history, quotas) && k in files
    requires q.used == (QuotaOf(quotas, k.0).used - files[k].size) % TWO64
    ensures Charged(files - {k}, history, quotas[k.0 := q])
    ensures q.used == QuotaOf(quotas, k.0).used - files[k].size
  {
    hide SizeSum, Overcharge;
    assert ChargedTo(files, history, quotas, k.0);
    SizeSumRemove(files, k, k.0);
    var filed, billed := files - {k}, quotas[k.0 := q];
    forall u: Tenant
      ensures ChargedTo(filed, history, billed, u)
    {
      SizeSumRemove(files, k, u);
      assert ChargedTo(files, history, quotas, u);
    }
  }

  /** Contents that gain a name nobody uses yet, or lose some. */
  lemma WrittenFrame(files: Files, texts: map<FileKey, seq<byte>>, contents: map<Cid, seq<byte>>, after: map<Cid, seq<byte>>)
    requires Written(files, texts, contents)
    requires forall c :: c in after && c in contents ==> after[c] == contents[c]
    requires forall c :: c in after && c !in contents ==> Names(files, c) == 0
    ensures Written(files, texts, after)
  {
    forall j | j in files && files[j].cid.Some?
      ensures files[j].cid.value in after ==> after[files[j].cid.value] == texts[j]
    {
      TotalAt(files, NameWeight(files[j].cid.value), j);
      assert Names(files, files[j].cid.value) >= 1;
    }
  }

  lemma WrittenSet(files: Files, texts: map<FileKey, seq<byte>>, contents: map<Cid, seq<byte>>, k: FileKey, e: FsEntry,
                   text: seq<byte>)
    requires Written(files, texts, contents)
    requires e.kind == File && e.cid.Some? && e.size == |text| && (e.cid.value in contents ==> contents[e.cid.value] == text)
    ensures Written(files[k := e], texts[k := text], contents)
  {
  }

  /** A content that is not pinned has no name. */
  lemma UnpinnedIsUnnamed(files: Files, held: map<Cid, nat>, history: seq<Residue>, pins: map<Cid, nat>, c: Cid)
    requires Referenced(files, held, history, pins) && c !in pins
    ensures Names(files, c) == 0
  {
    assert Names(files, c) + Count(held, c) + LostPins(history, c) == Count(pins, c);
  }

  lemma WrittenAt(files: Files, texts: map<FileKey, seq<byte>>, contents: map<Cid, seq<byte>>, k: FileKey)
    requires Written(files, texts, contents) && k in files && files[k].cid.Some?
    ensures files[k].kind == File && k in texts && files[k].size == |texts[k]|
    ensures files[k].cid.value in contents ==> contents[files[k].cid.value] == texts[k]
  {
  }

  lemma WrittenRemove(files: Files, texts: map<FileKey, seq<byte>>, contents: map<Cid, seq<byte>>, k: FileKey)
    requires Written(files, texts, contents) && k in files
    ensures Written(files - {k}, texts, contents)
  {
  }

  lemma DirectoryHasNoContent(files: Files, texts: map<FileKey, seq<byte>>, contents: map<Cid, seq<byte>>, k: FileKey)
    requires Written(files, texts, contents) && k in files && files[k].kind == Directory
    ensures files[k].size == 0 && files[k].cid == None
  {
  }

  /** A directory put in the place of an entry: its pin and its charge stay behind. */
  lemma DirectoryAdded(files: Files, held: map<Cid, nat>, history: seq<Residue>, pins: map<Cid, nat>,
                       quotas: map<Tenant, Quota>, k: FileKey, e: FsEntry, r: Residue)
    requires Referenced(files, held, history, pins) && Charged(files, history, quotas)
    requires e.size == 0 && e.cid == None && r == Residue(CidAt(files, k), k.0, SizeAt(files, k))
    ensures Referenced(files[k := e], held, history + [r], pins) && Charged(files[k := e], history + [r], quotas)
  {
    hide Names, SizeSum, LostPins, Overcharge;
    var filed := files[k := e];
    forall c: Cid
      ensures Names(filed, c) + Count(held, c) + LostPins(history + [r], c) == Count(pins, c)
    {
      NamesSet(files, k, e, c);
      LostPinsPush(history, r, c);
      assert Names(files, c) + Count(held, c) + LostPins(history, c) == Count(pins, c);
    }
    forall t: Tenant
      ensures ChargedTo(filed, history + [r], quotas, t)
    {
      SizeSumSet(files, k, e, t);
      OverchargePush(history, r, t);
      assert ChargedTo(files, history, quotas, t);
    }
  }

  lemma DirectoryWritten(files: Files, texts: map<FileKey, seq<byte>>, contents: map<Cid, seq<byte>>, k: FileKey, e: FsEntry)
    requires Written(files, texts, contents) && e.kind == Directory && e.size == 0 && e.cid == None
    ensures Written(files[k := e], texts, contents)
  {
  }

  /** A file is charged for, so taking its size off does not underflow. */
  lemma ChargedLess(files: Files, history: seq<Residue>, quotas: map<Tenant, Quota>, k: FileKey)
    requires Charged(files, history, quotas)
    ensures 0 <= QuotaOf(quotas, k.0).used - SizeAt(files, k) < TWO64
    ensures (QuotaOf(quotas, k.0).used - SizeAt(files, k)) % TWO64 == QuotaOf(quotas, k.0).used - SizeAt(files, k)
  {
    hide SizeSum, Overcharge;
    assert ChargedTo(files, history, quotas, k.0);
    SizeBelow(files, k);
  }

  lemma ChargedDrop(files: Files, history: seq<Residue>, quotas: map<Tenant, Quota>, k: FileKey)
    requires Charged(files, history, quotas) && k in files && files[k].size == 0
    ensures Charged(files - {k}, history, quotas)
  {
    hide SizeSum, Overcharge;
    var left := files - {k};
    forall t: Tenant
      ensures ChargedTo(left, history, quotas, t)
    {
      SizeSumRemove(files, k, t);
      assert ChargedTo(files, history, quotas, t);
    }
  }

  lemma ChargedLimit(files: Files, history: seq<Residue>, quotas: map<Tenant, Quota>, t: Tenant, limit: nat)
    requires Charged(files, history, quotas)
    ensures Charged(files, history, quotas[t := QuotaOf(quotas, t).(limit := limit)])
  {
    hide SizeSum, Overcharge;
    var billed := quotas[t := QuotaOf(quotas, t).(limit := limit)];
    forall u: Tenant
      ensures ChargedTo(files, history, billed, u)
    {
      assert ChargedTo(files, history, quotas, u) && ChargedTo(files, history, quotas, t);
    }
  }

  class FileStore {
    const cas: ContentStore
    var files: Files
    var quotas: map<Tenant, Quota>
    /** Pins callers hold through Put and have not yet given back. */
    ghost var external: map<Cid, nat>
    /** What each operation on the files left behind, from the first one on. */
    ghost var history: seq<Residue>
    /** What was written to, or shared with, each file. */
    ghost var texts: map<FileKey, seq<byte>>

    ghost predicate Valid()
      reads this, cas
    {
      && cas.Valid()
      && Referenced(files, external, history, cas.pins)
      && Charged(files, history, quotas)
      && Written(files, texts, cas.contents)
    }

    constructor (digest: seq<byte> -> seq<byte>, shards: Shards)
      ensures Valid() && fresh(cas) && files == map[] && quotas == map[] && external == map[] && history == []
      ensures cas.entries == map[] && cas.sha == digest && cas.shards == shards && cas.Wired()
      ensures cas.Sequential() && cas.nextSeq == 1
    {
      cas := new ContentStore(digest, shards);
      files, quotas, external, history, texts := map[], map[], map[], [], map[];
    }

    /** Over any run, the counts and charges are those of the files and callers exactly when every operation was clean. */
    lemma RunIsExact()
      requires Valid()
      ensures Exact(files, external, cas.pins, quotas) <==> forall i :: 0 <= i < |history| ==> Clean(history[i])
    {
      ExactIffClean(files, external, history, cas.pins, quotas);
    }

    /** What the data would be stored under is free or holds the same data, and there is room to count and number it. */
    ghost predicate Storable(data: seq<byte>)
      reads this, cas
    {
      var c := Unixfs.ComputeCid(data, cas.sha);
      |data| < TWO64 && cas.PutSound(data) && (c in cas.contents ==> cas.contents[c] == data)
    }

    /** The quota record after a change of size, or a refusal. */
    method UpdateQuota(t: Tenant, delta: int) returns (r: Option<Quota>)
      ensures var q := QuotaOf(quotas, t).(used := (QuotaOf(quotas, t).used + delta) % TWO64);
        r == if q.limit > 0 && q.used > q.limit then None else Some(q)
    {
      var q := Quota(0, 0);
      if t in quotas {
        q := quotas[t];
      }
      q := q.(used := (q.used + delta) % TWO64);
      if q.limit > 0 && q.used > q.limit {
        return None;
      }
      return Some(q);
    }

    method Write(t: Tenant, p: Path, data: seq<byte>, mode: nat, owner: nat, now: nat)
      returns (r: Result<Cid, StoreError>)
      requires Valid() && Storable(data) && Normalize(p) != META
      modifies this, cas
      ensures external == old(external)
      ensures var k, c := (t, Normalize(p)), Unixfs.ComputeCid(data, cas.sha);
        var q := old(QuotaOf(quotas, t));
        var charge := q.used + |data| - old(SizeAt(files, k));
        && (r == Err(QuotaExceeded) || r == Ok(c))
        && (r.Err? <==> q.limit > 0 && charge % TWO64 > q.limit)
        && (r.Err? ==> files == old(files) && quotas == old(quotas) && texts == old(texts))
        && (r.Ok? ==> files == old(files)[k := FsEntry(File, mode, owner, now, |data|, Some(c))])
        && (r.Ok? ==> quotas == old(quotas)[t := q.(used := charge % TWO64)] && texts == old(texts)[k := data])
        && (Valid() <==> r.Err? || charge < TWO64)
        && history == old(history) + [Residue(if r.Err? || old(CidAt(files, k)) == Some(c) then Some(c) else None, t, 0)]
    {
      hide Referenced, Charged, Written, ContentStore.Valid, ContentStore.PutSound, Unixfs.ComputeCid, Normalize,
           Hold, FileStore.Storable, TWO64;
      var k := (t, Normalize(p));
      var c := PutHeld(data);
      var oldSize, oldCid := 0, None;
      if k in files {
        oldSize := files[k].size;
        oldCid := files[k].cid;
      }
      var entry := FsEntry(File, mode, owner, now, |data|, Some(c));
      var q := UpdateQuota(t, |data| - oldSize);
      ghost var residue := Residue(if q.None? || oldCid == Some(c) then Some(c) else None, t, 0);
      if q.None? {
        HeldForgotten(files, external, history, cas.pins, c, residue);
        ChargedSame(files, history, quotas, residue);
        history := history + [residue];
        return Err(QuotaExceeded);
      }
      ChargedSet(files, history, quotas, k, entry, q.value, |data| - oldSize, residue);
      HeldFiled(files, external, history, cas.pins, k, entry, c);
      WrittenSet(files, texts, cas.contents, k, entry, data);
      files := files[k := entry];
      quotas := quotas[t := q.value];
      texts := texts[k := data];
      if oldCid.Some? && oldCid.value != c {
        UnpinHeld(oldCid.value);
      }
      if oldCid == Some(c) {
        HeldForgotten(files, external, history, cas.pins, c, residue);
      } else {
        NothingForgotten(files, external, history, cas.pins, residue);
      }
      history := history + [residue];
      return Ok(c);
    }

    /** Refused when the tenant, even without the file, stays above a limit lowered since. */
    method Remove(t: Tenant, p: Path) returns (r: Result<(), StoreError>)
      requires Valid() && Normalize(p) != META
      modifies this, cas
      ensures Valid() && external == old(external) && texts == old(texts)
      ensures var k, q := (t, Normalize(p)), old(QuotaOf(quotas, t));
        && (r == Ok(()) || r == Err(QuotaExceeded))
        && (k in old(files) ==> old(files)[k].size <= q.used)
        && (r.Err? <==> k in old(files) && old(files)[k].kind == File && q.limit > 0 && q.used - old(files)[k].size > q.limit)
        && (r.Err? ==> files == old(files) && quotas == old(quotas))
        && (r.Ok? ==> files == old(files) - {k})
        && (r.Ok? ==> quotas == if k in old(files) && old(files)[k].kind == File
                                then old(quotas)[t := q.(used := q.used - old(files)[k].size)] else old(quotas))
        && history == old(history) + [Residue(None, t, 0)]
    {
      hide Referenced, Charged, Written, ContentStore.Valid, Normalize;
      var k := (t, Normalize(p));
      LeaveNothing(t);
      if k !in files {
        return Ok(());
      }
      var entry := files[k];
      FiledHeld(files, external, history, cas.pins, k);
      WrittenRemove(files, texts, cas.contents, k);
      ChargedLess(files, history, quotas, k);
      if entry.kind == File {
        var q := UpdateQuota(t, 0 - entry.size);
        if q.None? {
          return Err(QuotaExceeded);
        }
        ChargedRemove(files, history, quotas, k, q.value);
        quotas := quotas[t := q.value];
      } else {
        DirectoryHasNoContent(files, texts, cas.contents, k);
        ChargedDrop(files, history, quotas, k);
      }
      files := files - {k};
      if entry.cid.Some? {
        UnpinHeld(entry.cid.value);
      }
      return Ok(());
    }

    /** A file whose own path ends in a slash is overwritten and stays charged and pinned. */
    method Mkdir(t: Tenant, p: Path, mode: nat, owner: nat, now: nat)
      requires Valid()
      modifies this
      ensures Valid() && quotas == old(quotas) && external == old(external) && texts == old(texts)
      ensures var k := (t, AsDirectory(Normalize(p)));
        && files == old(files)[k := FsEntry(Directory, mode, owner, now, 0, None)]
        && history == old(history) + [Residue(old(CidAt(files, k)), t, old(SizeAt(files, k)))]
    {
      hide Referenced, Charged, Written, ContentStore.Valid, Normalize;
      var path := Normalize(p);
      if |path| == 0 || path[|path| - 1] != SLASH {
        path := path + [SLASH];
      }
      var entry := FsEntry(Directory, mode, owner, now, 0, None);
      ghost var residue := Residue(CidAt(files, (t, path)), t, SizeAt(files, (t, path)));
      DirectoryAdded(files, external, history, cas.pins, quotas, (t, path), entry, residue);
      DirectoryWritten(files, texts, cas.contents, (t, path), entry);
      history := history + [residue];
      files := files[(t, path) := entry];
    }

    method Stat(t: Tenant, p: Path) returns (r: Option<FsEntry>)
      requires Normalize(p) != META
      ensures r == if (t, Normalize(p)) in files then Some(files[(t, Normalize(p))]) else None
    {
      var k := (t, Normalize(p));
      if k !in files {
        return None;
      }
      return Some(files[k]);
    }

    method SetQuota(t: Tenant, limit: nat)
      requires Valid()
      modifies this`quotas
      ensures Valid() && quotas == old(quotas)[t := QuotaOf(old(quotas), t).(limit := limit)]
    {
      hide Referenced, Charged, Written, ContentStore.Valid;
      var q := Quota(0, 0);
      if t in quotas {
        q := quotas[t];
      }
      ChargedLimit(files, history, quotas, t, limit);
      quotas := quotas[t := q.(limit := limit)];
    }

    /** The source's content gains a second name; a file replaced at the destination stays charged and pinned. */
    method Share(src: Tenant, srcPath: Path, dst: Tenant, dstPath: Path, now: nat) returns (r: Result<(), StoreError>)
      requires Valid() && Normalize(srcPath) != META && Normalize(dstPath) != META
      requires Pinnable(src, srcPath)
      modifies this, cas
      ensures external == old(external)
      ensures var from, k := (src, Normalize(srcPath)), (dst, Normalize(dstPath));
        var q := old(QuotaOf(quotas, dst));
        && (r == Err(SourceNotFound) <==> from !in old(files))
        && (r == Err(SourceHasNoContent) <==> from in old(files) && old(files)[from].cid.None?)
        && (r.Err? ==> files == old(files) && quotas == old(quotas) && texts == old(texts) && Valid())
        && (r == Err(SourceNotFound) || r == Err(SourceHasNoContent) ==> history == old(history))
        && (from in old(files) && old(files)[from].cid.Some? ==>
              var e := old(files)[from];
              && from in old(texts)
              && history == old(history) + [if r.Err? then Residue(e.cid, dst, 0)
                                            else Residue(old(CidAt(files, k)), dst, old(SizeAt(files, k)))]
              && (r == Err(QuotaExceeded) <==> q.limit > 0 && (q.used + e.size) % TWO64 > q.limit)
              && (r != Err(QuotaExceeded) ==>
                    && r == Ok(())
                    && files == old(files)[k := e.(mtime := now)]
                    && quotas == old(quotas)[dst := q.(used := (q.used + e.size) % TWO64)]
                    && texts == old(texts)[k := old(texts)[from]]
                    && (q.used + e.size < TWO64 <==> Valid())))
    {
      hide Referenced, Charged, Written, ContentStore.Valid, Normalize;
      var found := Stat(src, srcPath);
      if found.None? {
        return Err(SourceNotFound);
      }
      var entry := found.value;
      if entry.cid.None? {
        return Err(SourceHasNoContent);
      }
      ghost var from := (src, Normalize(srcPath));
      NamedIsPinned(files, external, history, cas.pins, from);
      WrittenAt(files, texts, cas.contents, from);
      PinAndHold(entry.cid.value);
      var k := (dst, Normalize(dstPath));
      entry := entry.(mtime := now);
      var q := UpdateQuota(dst, entry.size);
      if q.None? {
        ghost var refused := Residue(entry.cid, dst, 0);
        HeldForgotten(files, external, history, cas.pins, entry.cid.value, refused);
        ChargedSame(files, history, quotas, refused);
        history := history + [refused];
        return Err(QuotaExceeded);
      }
      ghost var residue := Residue(CidAt(files, k), dst, SizeAt(files, k));
      ChargedSet(files, history, quotas, k, entry, q.value, entry.size, residue);
      HeldFiled(files, external, history, cas.pins, k, entry, entry.cid.value);
      if k in files && files[k].cid.Some? {
        HeldForgotten(files[k := entry], external, history, cas.pins, files[k].cid.value, residue);
      } else {
        NothingForgotten(files[k := entry], external, history, cas.pins, residue);
      }
      history := history + [residue];
      WrittenSet(files, texts, cas.contents, k, entry, texts[from]);
      files := files[k := entry];
      quotas := quotas[dst := q.value];
      texts := texts[k := texts[from]];
      return Ok(());
    }

    /** The count of what the path names, if anything, has room for one more. */
    ghost predicate Pinnable(t: Tenant, p: Path)
      reads this, cas
    {
      var k := (t, Normalize(p));
      k in files && files[k].cid.Some? && files[k].cid.value in cas.entries ==>
        cas.entries[files[k].cid.value].refcount + 1 < TWO32
    }

    method PinAndHold(c: Cid)
      requires cas.Valid() && c in cas.pins && (c in cas.entries ==> cas.entries[c].refcount + 1 < TWO32)
      requires Referenced(files, external, history, cas.pins)
      modifies cas
      ensures cas.Valid() && cas.contents == old(cas.contents)
      ensures Referenced(files, Hold(external, c), history, cas.pins)
    {
      hide Referenced, ContentStore.Valid;
      cas.SameKeys();
      PinHeld(files, external, history, cas.pins, c);
      var r := cas.Pin(c);
    }

    /** A caller's own put; its pin is the caller's until given back. */
    method Put(data: seq<byte>) returns (c: Cid)
      requires Valid() && Storable(data)
      modifies this`external, cas
      ensures Valid() && c == Unixfs.ComputeCid(data, cas.sha) && external == Hold(old(external), c)
    {
      hide Referenced, Charged, Written, ContentStore.Valid, ContentStore.PutSound, Unixfs.ComputeCid;
      c := PutHeld(data);
      external := Hold(external, c);
    }

    /** A caller gives back a pin of its own. */
    method Unpin(c: Cid)
      requires Valid() && Count(external, c) > 0
      modifies this`external, cas
      ensures Valid() && external == old(external)[c := Count(old(external), c) - 1]
    {
      hide Referenced, Charged, Written, ContentStore.Valid;
      ghost var less := external[c := Count(external, c) - 1];
      assert Hold(less, c) == external;
      external := less;
      UnpinHeld(c);
    }

    /**
     A listed file reads as what was written to it exactly when its blocks are
     looked for where they were written, and as an error otherwise.
     */
    method ReadFile(t: Tenant, p: Path) returns (r: Result<seq<seq<byte>>, StoreError>)
      requires Valid() && Normalize(p) != META
      ensures var k := (t, Normalize(p));
        && (r == Err(SourceNotFound) <==> k !in files)
        && (r == Err(SourceHasNoContent) <==> k in files && files[k].cid.None?)
        && (k in files && files[k].cid.Some? ==>
              && k in texts
              && if cas.Loadable(files[k].cid.value) then r.Ok? && Concat(r.value) == texts[k] else r == Err(BlockMissing))
    {
      hide Referenced, Charged, Written, ContentStore.Valid, Normalize, Concat;
      var found := Stat(t, p);
      if found.None? {
        return Err(SourceNotFound);
      }
      if found.value.cid.None? {
        return Err(SourceHasNoContent);
      }
      ghost var k := (t, Normalize(p));
      NamedIsPinned(files, external, history, cas.pins, k);
      WrittenAt(files, texts, cas.contents, k);
      cas.SameKeys();
      cas.WholeRange(found.value.cid.value);
      cas.EndCases(0, found.value.size);
      var bytes := cas.Read(found.value.cid.value, 0, found.value.size);
      ConcatOne(texts[k]);
      return if bytes.Ok? then Ok(bytes.value) else Err(BlockMissing);
    }

    /** Puts the data in the content store; the pin is for the caller to place. */
    method PutHeld(data: seq<byte>) returns (c: Cid)
      requires cas.Valid() && Referenced(files, external, history, cas.pins) && Written(files, texts, cas.contents) && Storable(data)
      modifies cas
      ensures c == Unixfs.ComputeCid(data, cas.sha) && cas.Valid()
      ensures Referenced(files, Hold(external, c), history, cas.pins) && Written(files, texts, cas.contents)
      ensures c in cas.contents && cas.contents[c] == data
    {
      hide Referenced, Written, Names, ContentStore.Valid, ContentStore.PutSound, ContentStore.Sequential, Unixfs.ComputeCid;
      ghost var pins, contents := cas.pins, cas.contents;
      cas.SameKeys();
      c := cas.Put(data);
      PinHeld(files, external, history, pins, c);
      if c !in contents {
        UnpinnedIsUnnamed(files, external, history, pins, c);
      }
      WrittenFrame(files, texts, contents, cas.contents);
    }

    /** The operation leaves nothing behind. */
    ghost method LeaveNothing(t: Tenant)
      requires Valid()
      modifies this`history
      ensures Valid() && history == old(history) + [Residue(None, t, 0)]
    {
      hide Referenced, Charged, Written, ContentStore.Valid;
      NothingForgotten(files, external, history, cas.pins, Residue(None, t, 0));
      ChargedSame(files, history, quotas, Residue(None, t, 0));
      history := history + [Residue(None, t, 0)];
    }

    /** Gives back a pin on the content store. */
    method UnpinHeld(c: Cid)
      requires cas.Valid() && Referenced(files, Hold(external, c), history, cas.pins) && Written(files, texts, cas.contents)
      modifies cas
      ensures cas.Valid() && Referenced(files, external, history, cas.pins) && Written(files, texts, cas.contents)
    {
      hide Referenced, Written, Names, Count, Released, ContentStore.Valid, ContentStore.Sequential;
      ghost var pins, contents := cas.pins, cas.contents;
      HeldIsPinned(files, external, history, pins, c);
      cas.Unpin(c);
      ReleasedOnce(pins, c, cas.pins);
      HeldUnpinned(files, external, history, pins, c, cas.pins);
      WrittenFrame(files, texts, contents, cas.contents);
    }
  }

  lemma PinsOf(store: FileStore, c: Cid)
    requires store.Valid()
    ensures Count(store.cas.pins, c) == Names(store.files, c) + Count(store.external, c) + LostPins(store.history, c)
    ensures c in store.cas.contents <==> c in store.cas.pins
    ensures c in store.cas.contents <==> c in store.cas.entries
  {
    store.cas.SameKeys();
  }

  lemma SmallIsStorable(store: FileStore, data: seq<byte>)
    requires store.Valid() && |data| <= CHUNK
    requires var c := Unixfs.ComputeCid(data, store.cas.sha);
      Count(store.cas.pins, c) < 2 && (c in store.cas.contents ==> store.cas.contents[c] == data)
    ensures store.Storable(data)
  {
    var c := Unixfs.ComputeCid(data, store.cas.sha);
    if c in store.cas.entries {
      store.cas.CountOf(c);
    }
  }

  lemma TextOf(store: FileStore, k: FileKey)
    requires store.Valid() && k in store.files && store.files[k].cid.Some? && k in store.texts
    ensures var c := store.files[k].cid.value;
      c in store.cas.contents ==> store.cas.contents[c] == store.texts[k]
  {
    WrittenAt(store.files, store.texts, store.cas.contents, k);
  }

  lemma OneName(k: FileKey, e: FsEntry, c: Cid)
    requires e.cid == Some(c)
    ensures Names(map[], c) == 0 && Names(map[k := e], c) == 1
  {
    NamesSet(map[], k, e, c);
    assert map[][k := e] == map[k := e];
  }

  lemma TwoWrites(t: Tenant, c: Cid)
    ensures LostPins([Residue(None, t, 0)], c) == 0
    ensures LostPins([Residue(None, t, 0), Residue(Some(c), t, 0), Residue(None, t, 0)], c) == 1
  {
    var a, b := Residue(None, t, 0), Residue(Some(c), t, 0);
    LostPinsPush([], a, c);
    assert [] + [a] == [a];
    LostPinsPush([a], b, c);
    LostPinsPush([a, b], a, c);
    assert [a, b] + [a] == [a, b, a];
  }

  /** Writing the same data over itself and then removing the file leaves the content in the store, pinned and without a name. */
  method RewriteThenRemove(digest: seq<byte> -> seq<byte>, t: Tenant, p: Path, data: seq<byte>)
    returns (store: FileStore, c: Cid)
    requires |data| <= CHUNK && Normalize(p) != META
    ensures store.Valid() && store.files == map[] && store.external == map[]
    ensures c == Unixfs.ComputeCid(data, digest)
    ensures c in store.cas.contents && Count(store.cas.pins, c) == 1
  {
    hide Referenced, Charged, Written, ContentStore.Valid, FileStore.Valid, FileStore.Storable, Unixfs.ComputeCid,
         Names, LostPins, Normalize;
    store := new FileStore(digest, 1);
    c := Unixfs.ComputeCidOf(data, digest);
    ghost var k := (t, Normalize(p));
    OneName(k, FsEntry(File, 0, 0, 0, |data|, Some(c)), c);
    TwoWrites(t, c);
    PinsOf(store, c);
    SmallIsStorable(store, data);
    var first := store.Write(t, p, data, 0, 0, 0);
    assert store.history == [Residue(None, t, 0)];
    PinsOf(store, c);
    TextOf(store, k);
    SmallIsStorable(store, data);
    var second := store.Write(t, p, data, 0, 0, 0);
    var gone := store.Remove(t, p);
    assert store.history == [Residue(None, t, 0), Residue(Some(c), t, 0), Residue(None, t, 0)];
    PinsOf(store, c);
  }

  /** A count below the limit of 32 bits leaves room for another pin. */
  lemma FewPins(store: FileStore, t: Tenant, p: Path, c: Cid)
    requires store.Valid() && Count(store.cas.pins, c) < 2
    requires (t, Normalize(p)) in store.files && store.files[(t, Normalize(p))].cid == Some(c)
    ensures store.Pinnable(t, p)
  {
    if c in store.cas.entries {
      store.cas.CountOf(c);
    }
  }

  /** Writes one file in a new store; its content has one pin. */
  method WriteFirst(digest: seq<byte> -> seq<byte>, t: Tenant, p: Path, data: seq<byte>) returns (store: FileStore)
    requires |data| < TWO64 && Normalize(p) != META
    ensures fresh(store) && fresh(store.cas) && store.Valid() && store.external == map[]
    ensures var c, k := Unixfs.ComputeCid(data, digest), (t, Normalize(p));
      && store.files == map[k := FsEntry(File, 0, 0, 0, |data|, Some(c))]
      && store.quotas == map[t := Quota(0, |data|)] && store.Pinnable(t, p)
  {
    hide Referenced, Charged, Written, ContentStore.Valid, FileStore.Valid, FileStore.Storable, FileStore.Pinnable,
         ContentStore.Sequential, ContentStore.Wired, Unixfs.ComputeCid, Names, LostPins, Normalize;
    store := new FileStore(digest, 1);
    NewIsStorable(store, data);
    var first := store.Write(t, p, data, 0, 0, 0);
    assert store.history == [Residue(None, t, 0)];
    OnePin(store, t, p, |data|, Unixfs.ComputeCid(data, digest));
  }

  lemma OnePin(store: FileStore, t: Tenant, p: Path, size: nat, c: Cid)
    requires store.Valid() && store.external == map[] && store.history == [Residue(None, t, 0)]
    requires store.files == map[(t, Normalize(p)) := FsEntry(File, 0, 0, 0, size, Some(c))]
    ensures store.Pinnable(t, p)
  {
    hide FileStore.Valid, FileStore.Pinnable, Names, LostPins, Normalize;
    OneName((t, Normalize(p)), FsEntry(File, 0, 0, 0, size, Some(c)), c);
    TwoWrites(t, c);
    PinsOf(store, c);
    FewPins(store, t, p, c);
  }

  lemma NewIsStorable(store: FileStore, data: seq<byte>)
    requires store.Valid() && store.cas.entries == map[] && store.cas.Sequential() && store.cas.nextSeq == 1 && |data| < TWO64
    ensures store.Storable(data)
  {
    store.cas.SameKeys();
    if |data| > CHUNK {
      Puttable(store.cas, data);
    }
  }

  /** A file shared within its tenant, and a limit set below its size: now neither of the two can be removed. */
  method RemoveRefused(digest: seq<byte> -> seq<byte>, t: Tenant, p: Path, q: Path, data: seq<byte>)
    returns (store: FileStore, r: Result<(), StoreError>)
    requires 1 < |data| < TWO63 && Normalize(p) != META && Normalize(q) != META && Normalize(p) != Normalize(q)
    ensures store.Valid() && r == Err(QuotaExceeded)
    ensures (t, Normalize(p)) in store.files && (t, Normalize(q)) in store.files
  {
    hide Referenced, Charged, Written, ContentStore.Valid, FileStore.Valid, FileStore.Pinnable, Unixfs.ComputeCid, Normalize;
    store := WriteFirst(digest, t, p, data);
    var shared := store.Share(t, p, t, q, 0);
    store.SetQuota(t, 1);
    r := store.Remove(t, p);
  }

  /** A file of 2^63 octets shared within its tenant: the charge wraps to nothing, and no longer covers the files. */
  method ShareWraps(digest: seq<byte> -> seq<byte>, t: Tenant, p: Path, q: Path, data: seq<byte>)
    returns (store: FileStore, r: Result<(), StoreError>)
    requires |data| == TWO63 && Normalize(p) != META && Normalize(q) != META && Normalize(p) != Normalize(q)
    ensures r == Ok(()) && QuotaOf(store.quotas, t).used == 0 && !store.Valid()
    ensures SizeAt(store.files, (t, Normalize(p))) == SizeAt(store.files, (t, Normalize(q))) == TWO63
  {
    hide Referenced, Charged, Written, ContentStore.Valid, FileStore.Valid, FileStore.Pinnable, Unixfs.ComputeCid, Normalize;
    store := WriteFirst(digest, t, p, data);
    r := store.Share(t, p, t, q, 0);
  }
}
