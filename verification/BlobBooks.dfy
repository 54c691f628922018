/** Conservation of blob references through the calls that move blobs: creating one, PUT, GET and the
    collection that both start with. */
module BlobBooks {
  import opened Types
  import opened Counting
  import opened VersionLists
  import opened Protocol
  import opened Invariant
  import opened Machine
  import opened Books
  import opened MachineInvariant

  /** `refs` are the refcnt fields of all blobs ever created, `held` the references in callers' hands, and
      `keys` the blob of each map entry's key. */
  datatype Blobs = Blobs(content: seq<Bytes>, refs: seq<nat>, held: seq<nat>, keys: seq<BlobId>)

  predicate ValuesBelow(vs: seq<Version>, n: nat) {
    forall i | 0 <= i < |vs| :: vs[i].value.Some? ==> vs[i].value.value < n
  }

  ghost predicate BlobsWf(w: World, b: Blobs) {
    && |b.content| == |b.refs| == |b.held|
    && |b.keys| == |w.entries|
    && (forall i | 0 <= i < |b.keys| :: b.keys[i] < |b.content| && b.content[b.keys[i]] == w.entries[i])
    && (forall k | k in w.core.lists :: ValuesBelow(w.core.lists[k], |b.refs|))
  }

  // ----- References

  function RefBlob(refs: seq<nat>, v: Value): (r: seq<nat>)
    requires v.Some? ==> v.value < |refs|
    ensures |r| == |refs|
  {
    if v.None? then refs else refs[v.value := refs[v.value] + 1]
  }

  /** blob_unref.  A blob whose count reaches zero is freed. */
  function UnrefBlob(refs: seq<nat>, v: Value): (r: seq<nat>)
    requires v.Some? ==> v.value < |refs|
    ensures |r| == |refs|
  {
    if v.None? || refs[v.value] == 0 then refs else refs[v.value := refs[v.value] - 1]
  }

  function DropValues(refs: seq<nat>, vs: seq<Version>): (r: seq<nat>)
    requires ValuesBelow(vs, |refs|)
    ensures |r| == |refs|
    decreases |vs|
  {
    if vs == [] then refs else DropValues(UnrefBlob(refs, vs[0].value), vs[1..])
  }

  // ----- Calls

  function BlobCreate(b: Blobs, bytes: Bytes): Blobs {
    b.(content := b.content + [bytes], refs := b.refs + [1], held := b.held + [1])
  }

  /** The key is inherited: a new entry keeps it, otherwise it is disposed of. */
  function AdoptKey(w: World, b: Blobs, key: BlobId): Blobs
    requires BlobsWf(w, b) && key < |b.content| && b.held[key] > 0
  {
    var b' := b.(held := b.held[key := b.held[key] - 1]);
    if b.content[key] in w.core.lists then b'.(refs := UnrefBlob(b.refs, Some(key)))
    else b'.(keys := b.keys + [key])
  }

  function CollectBlobs(w: World, b: Blobs, k: Key): Blobs
    requires WorldWf(w) && BlobsWf(w, b)
  {
    var vs := At(w.core.lists, k);
    PartsBelow(vs, w.core.status, |b.refs|);
    b.(refs := DropValues(DropValues(b.refs, Outdated(vs, w.core.status)), Doomed(vs, w.core.status)))
  }

  lemma {:induction false} SupersededBelow(vs: seq<Version>, st: seq<Status>, n: nat)
    requires CreatorsBelow(vs, |st|) && ValuesBelow(vs, n)
    ensures ValuesBelow(Superseded(vs, st), n) && ValuesBelow(KeepLatest(vs, st), n)
  {
    if vs != [] {
      SupersededBelow(vs[1..], st, n);
    }
  }

  lemma PartsBelow(vs: seq<Version>, st: seq<Status>, n: nat)
    requires CreatorsBelow(vs, |st|) && ValuesBelow(vs, n)
    ensures ValuesBelow(Outdated(vs, st), n) && ValuesBelow(Collected(vs, st), n) && ValuesBelow(Doomed(vs, st), n)
  {
    SupersededBelow(vs[..FirstAborted(vs, st)], st, n);
  }

  /** The version just replaced gives its blob back. */
  function ReplacedBlobs(refs: seq<nat>, vs: seq<Version>, vs': seq<Version>): (r: seq<nat>)
    requires ValuesBelow(vs, |refs|)
    ensures |r| == |refs|
  {
    if |vs'| == |vs| && vs != [] then UnrefBlob(refs, vs[|vs| - 1].value) else refs
  }

  /** PUT consumes the caller's reference to the value, for the new version or, rejected, for nothing. */
  function PutBlobs(w: World, b: Blobs, t: Tid, k: Key, v: Value): Blobs
    requires WorldWf(w) && BlobsWf(w, b) && k in w.core.lists && t < |w.core.status|
    requires v.Some? ==> v.value < |b.refs| && b.held[v.value] > 0
  {
    var vs := w.core.lists[k];
    var b' := if v.None? then b else b.(held := b.held[v.value := b.held[v.value] - 1]);
    if !AdmitsId(vs, w.ids, t) then b'.(refs := UnrefBlob(b.refs, v))
    else b'.(refs := ReplacedBlobs(b.refs, vs, InstallId(vs, w.ids, Version(t, v))))
  }

  /** GET takes one reference for the new version, before a replaced version gives its own back, and one for the
      caller after that. */
  function GetBlobs(w: World, b: Blobs, t: Tid, k: Key): Blobs
    requires WorldWf(w) && BlobsWf(w, b) && k in w.core.lists && t < |w.core.status|
  {
    var vs := w.core.lists[k];
    var v := LastValue(vs);
    if !AdmitsId(vs, w.ids, t) then b
    else
      var replaced := ReplacedBlobs(RefBlob(b.refs, v), vs, InstallId(vs, w.ids, Version(t, v)));
      b.(refs := RefBlob(replaced, v),
         held := if v.None? then b.held else b.held[v.value := b.held[v.value] + 1])
  }

  // ----- The invariant

  function CountValue(vs: seq<Version>, x: BlobId): nat {
    if vs == [] then 0 else (if vs[0].value == Some(x) then 1 else 0) + CountValue(vs[1..], x)
  }

  function PerEntryValue(lists: map<Key, seq<Version>>, entries: seq<Key>, x: BlobId): seq<nat> {
    seq(|entries|, i requires 0 <= i < |entries| => CountValue(At(lists, entries[i]), x))
  }

  /** How many versions in the store hold the blob. */
  function ValueRefs(lists: map<Key, seq<Version>>, entries: seq<Key>, x: BlobId): nat {
    Sum(PerEntryValue(lists, entries, x))
  }

  /** How many map entries hold the blob as their key. */
  function KeyRefs(keys: seq<BlobId>, x: BlobId): nat {
    if keys == [] then 0 else KeyRefs(keys[..|keys| - 1], x) + if keys[|keys| - 1] == x then 1 else 0
  }

  ghost predicate BlobOk(w: World, b: Blobs, x: BlobId)
    requires x < |b.refs| == |b.held|
  {
    b.refs[x] == ValueRefs(w.core.lists, w.entries, x) + KeyRefs(b.keys, x) + b.held[x]
  }

  /** Conservation: a blob's count is the number of versions and keys that hold it plus the references in
      callers' hands. */
  ghost predicate BlobInv(w: World, b: Blobs) {
    && WorldWf(w) && EntriesOk(w.core.lists, w.entries)
    && BlobsWf(w, b)
    && forall x | 0 <= x < |b.refs| :: BlobOk(w, b, x)
  }

  // ----- Counting values

  lemma {:induction false} CountValueAppend(a: seq<Version>, c: seq<Version>, x: BlobId)
    ensures CountValue(a + c, x) == CountValue(a, x) + CountValue(c, x)
  {
    if a == [] {
      assert a + c == c;
    } else {
      assert (a + c)[1..] == a[1..] + c;
      CountValueAppend(a[1..], c, x);
    }
  }

  lemma {:induction false} CountValueAtLeast(vs: seq<Version>, i: nat)
    requires i < |vs| && vs[i].value.Some?
    ensures CountValue(vs, vs[i].value.value) > 0
  {
    if i > 0 {
      CountValueAtLeast(vs[1..], i - 1);
    }
  }

  lemma ValueListChange(lists: map<Key, seq<Version>>, entries: seq<Key>, k: Key, vs: seq<Version>, x: BlobId)
    requires EntriesOk(lists, entries) && k in lists
    ensures ValueRefs(lists[k := vs], entries, x) ==
            ValueRefs(lists, entries, x) - CountValue(lists[k], x) + CountValue(vs, x)
    ensures CountValue(lists[k], x) <= ValueRefs(lists, entries, x)
  {
    var i :| 0 <= i < |entries| && entries[i] == k;
    SumChange(PerEntryValue(lists, entries, x), PerEntryValue(lists[k := vs], entries, x), i);
    SumAtLeast(PerEntryValue(lists, entries, x), i);
  }

  lemma ValueEntryAdded(lists: map<Key, seq<Version>>, entries: seq<Key>, k: Key, x: BlobId)
    requires EntriesOk(lists, entries) && k !in lists
    ensures ValueRefs(lists[k := []], entries + [k], x) == ValueRefs(lists, entries, x)
  {
    assert PerEntryValue(lists[k := []], entries + [k], x) == PerEntryValue(lists, entries, x) + [0];
    SumSnoc(PerEntryValue(lists, entries, x), 0);
  }

  lemma {:induction false} DropValuesAt(refs: seq<nat>, vs: seq<Version>, x: BlobId)
    requires ValuesBelow(vs, |refs|) && x < |refs| && CountValue(vs, x) <= refs[x]
    ensures DropValues(refs, vs)[x] == refs[x] - CountValue(vs, x)
    decreases |vs|
  {
    if vs != [] {
      DropValuesAt(UnrefBlob(refs, vs[0].value), vs[1..], x);
    }
  }

  lemma {:induction false} CountReplaceLast(vs: seq<Version>, v: Version, x: BlobId)
    requires vs != []
    ensures CountValue(vs[..|vs| - 1] + [v], x) ==
            CountValue(vs, x) - (if vs[|vs| - 1].value == Some(x) then 1 else 0) + if v.value == Some(x) then 1 else 0
    ensures vs[|vs| - 1].value == Some(x) ==> CountValue(vs, x) > 0
  {
    var n := |vs| - 1;
    assert vs == vs[..n] + [vs[n]];
    CountValueAppend(vs[..n], [vs[n]], x);
    CountValueAppend(vs[..n], [v], x);
    assert [v][1..] == [] && [vs[n]][1..] == [];
  }

  lemma {:induction false} CountAppendOne(vs: seq<Version>, v: Version, x: BlobId)
    ensures CountValue(vs + [v], x) == CountValue(vs, x) + if v.value == Some(x) then 1 else 0
  {
    CountValueAppend(vs, [v], x);
    assert [v][1..] == [];
  }

  lemma KeyRefsSnoc(keys: seq<BlobId>, key: BlobId, x: BlobId)
    ensures KeyRefs(keys + [key], x) == KeyRefs(keys, x) + if key == x then 1 else 0
  {
    assert (keys + [key])[..|keys|] == keys;
  }

  // ----- The calls keep the books

  /** The state in which a key without an entry has been given an empty one. */
  function WithEntry(w: World, k: Key): World {
    if k in w.core.lists then w
    else w.(core := w.core.(lists := w.core.lists[k := []]), entries := w.entries + [k])
  }

  lemma AdoptKeyKeeps(w: World, b: Blobs, key: BlobId)
    requires BlobInv(w, b) && key < |b.content| && b.held[key] > 0
    ensures BlobInv(WithEntry(w, b.content[key]), AdoptKey(w, b, key))
  {
    var k, w', b' := b.content[key], WithEntry(w, b.content[key]), AdoptKey(w, b, key);
    AdoptKeyWf(w, b, key);
    forall x | 0 <= x < |b'.refs| ensures BlobOk(w', b', x) {
      assert BlobOk(w, b, x);
      KeyRefsSnoc(b.keys, key, x);
      if k !in w.core.lists { ValueEntryAdded(w.core.lists, w.entries, k, x); }
    }
  }

  lemma AdoptKeyWf(w: World, b: Blobs, key: BlobId)
    requires WorldWf(w) && EntriesOk(w.core.lists, w.entries) && BlobsWf(w, b) && key < |b.content| && b.held[key] > 0
    ensures var w' := WithEntry(w, b.content[key]);
            WorldWf(w') && EntriesOk(w'.core.lists, w'.entries) && BlobsWf(w', AdoptKey(w, b, key))
  {
    if b.content[key] !in w.core.lists { EntryAdded(w.core.lists, w.entries, b.content[key], 0); }
  }

  lemma CollectedValues(vs: seq<Version>, st: seq<Status>, x: BlobId)
    requires CreatorsBelow(vs, |st|) && CommittedFirst(vs, st)
    ensures CountValue(vs, x) == CountValue(Outdated(vs, st), x) + CountValue(Collected(vs, st), x) +
            CountValue(Doomed(vs, st), x)
  {
    CollectSplits(vs, st);
    CountValueAppend(Outdated(vs, st) + Collected(vs, st), Doomed(vs, st), x);
    CountValueAppend(Outdated(vs, st), Collected(vs, st), x);
  }

  lemma CollectBlobsWf(w: World, b: Blobs, k: Key)
    requires WorldWf(w) && EntriesOk(w.core.lists, w.entries) && BlobsWf(w, b) && k in w.core.lists
    ensures var w' := GarbageCollect(w, k);
            WorldWf(w') && EntriesOk(w'.core.lists, w'.entries) && BlobsWf(w', CollectBlobs(w, b, k))
  {
    GarbageCollectWf(w, k);
    PartsBelow(w.core.lists[k], w.core.status, |b.refs|);
    ListChange(w.core.lists, w.entries, k, Collected(w.core.lists[k], w.core.status), 0);
  }

  lemma CollectBlobsKeeps(w: World, b: Blobs, k: Key)
    requires BlobInv(w, b) && k in w.core.lists && CommittedFirst(w.core.lists[k], w.core.status)
    ensures BlobInv(GarbageCollect(w, k), CollectBlobs(w, b, k))
  {
    CollectBlobsWf(w, b, k);
    hide EntriesOk, BlobsWf, CommittedFirst, GarbageCollect, CollectBlobs, WorldWf, ValuesBelow;
    forall x | 0 <= x < |CollectBlobs(w, b, k).refs| ensures BlobOk(GarbageCollect(w, k), CollectBlobs(w, b, k), x) {
      SameBlobs(w, b, k);
      assert BlobOk(w, b, x);
      CollectBlobsAt(w, b, k, x);
    }
  }

  lemma SameBlobs(w: World, b: Blobs, k: Key)
    requires WorldWf(w) && BlobsWf(w, b)
    ensures |CollectBlobs(w, b, k).refs| == |b.refs| == |CollectBlobs(w, b, k).held|
  {
  }

  lemma CollectBlobsAt(w: World, b: Blobs, k: Key, x: BlobId)
    requires WorldWf(w) && EntriesOk(w.core.lists, w.entries) && BlobsWf(w, b)
    requires k in w.core.lists && CommittedFirst(w.core.lists[k], w.core.status) && x < |b.refs| && BlobOk(w, b, x)
    ensures var w', b' := GarbageCollect(w, k), CollectBlobs(w, b, k); BlobOk(w', b', x)
  {
    var vs, st := w.core.lists[k], w.core.status;
    PartsBelow(vs, st, |b.refs|);
    CollectedValues(vs, st, x);
    ValueListChange(w.core.lists, w.entries, k, Collected(vs, st), x);
    DropValuesAt(b.refs, Outdated(vs, st), x);
    DropValuesAt(DropValues(b.refs, Outdated(vs, st)), Doomed(vs, st), x);
    hide EntriesOk, Wf, BlobsWf, CommittedFirst, DropValues, CountValue, ValueRefs, Collected, Outdated, Doomed;
  }

  /** Installing `v` in `vs` and giving back a replaced version's blob uses up exactly one reference to the
      new value: what is left over does not change otherwise. */
  lemma InstallValues(vs: seq<Version>, ids: seq<nat>, v: Version, refs: seq<nat>, x: BlobId)
    requires CreatorsBelow(vs, |ids|) && v.creator < |ids| && ValuesBelow(vs, |refs|) && x < |refs|
    requires CountValue(vs, x) <= refs[x]
    ensures var vs' := InstallId(vs, ids, v);
            ReplacedBlobs(refs, vs, vs')[x] + CountValue(vs, x) + (if v.value == Some(x) then 1 else 0) ==
            refs[x] + CountValue(vs', x)
  {
    if vs != [] && MaxId(vs, ids) == ids[v.creator] {
      CountReplaceLast(vs, v, x);
    } else {
      CountAppendOne(vs, v, x);
    }
  }

  lemma InstallBelow(vs: seq<Version>, ids: seq<nat>, v: Version, n: nat)
    requires CreatorsBelow(vs, |ids|) && v.creator < |ids| && ValuesBelow(vs, n) &&
             (v.value.Some? ==> v.value.value < n)
    ensures ValuesBelow(InstallId(vs, ids, v), n)
  {
  }

  lemma LastValueBelow(vs: seq<Version>, n: nat)
    requires ValuesBelow(vs, n)
    ensures LastValue(vs).Some? ==> LastValue(vs).value < n
  {
  }

  /** What the lists look like after the operation that follows the collection. */
  ghost predicate Installed(w: World, w': World, t: Tid, k: Key, v: Value)
    requires WorldWf(w) && k in w.core.lists && t < |w.ids|
  {
    && WorldWf(w') && w'.entries == w.entries
    && w'.core.lists == if AdmitsId(w.core.lists[k], w.ids, t)
                        then w.core.lists[k := InstallId(w.core.lists[k], w.ids, Version(t, v))]
                        else w.core.lists
  }

  lemma InstalledWf(w: World, w': World, b: Blobs, b': Blobs, t: Tid, k: Key, v: Value)
    requires WorldWf(w) && EntriesOk(w.core.lists, w.entries) && BlobsWf(w, b) && k in w.core.lists && t < |w.ids|
    requires (v.Some? ==> v.value < |b.refs|) && Installed(w, w', t, k, v)
    requires b'.content == b.content && |b'.refs| == |b.refs| == |b'.held| && b'.keys == b.keys
    ensures EntriesOk(w'.core.lists, w'.entries) && BlobsWf(w', b')
  {
    InstallBelow(w.core.lists[k], w.ids, Version(t, v), |b.refs|);
  }

  lemma PutBlobsAt(w: World, w': World, b: Blobs, t: Tid, k: Key, v: Value, x: BlobId)
    requires WorldWf(w) && EntriesOk(w.core.lists, w.entries) && BlobsWf(w, b) && k in w.core.lists && t < |w.ids|
    requires (v.Some? ==> v.value < |b.refs| && b.held[v.value] > 0) && Installed(w, w', t, k, v)
    requires x < |b.refs| && BlobOk(w, b, x)
    ensures BlobOk(w', PutBlobs(w, b, t, k, v), x)
  {
    var vs := w.core.lists[k];
    ValueListChange(w.core.lists, w.entries, k, InstallId(vs, w.ids, Version(t, v)), x);
    InstallValues(vs, w.ids, Version(t, v), b.refs, x);
    hide EntriesOk, Wf, BlobsWf, CountValue, ValueRefs, InstallId, AdmitsId, ReplacedBlobs;
  }

  lemma PutBlobsKeeps(w: World, w': World, b: Blobs, t: Tid, k: Key, v: Value)
    requires BlobInv(w, b) && k in w.core.lists && t < |w.ids|
    requires (v.Some? ==> v.value < |b.refs| && b.held[v.value] > 0) && Installed(w, w', t, k, v)
    ensures BlobInv(w', PutBlobs(w, b, t, k, v))
  {
    var b' := PutBlobs(w, b, t, k, v);
    InstalledWf(w, w', b, b', t, k, v);
    hide EntriesOk, BlobsWf, Wf, Installed;
    forall x | 0 <= x < |b'.refs| ensures BlobOk(w', b', x) {
      assert BlobOk(w, b, x);
      PutBlobsAt(w, w', b, t, k, v, x);
    }
  }

  /** A GET finds the blob that it returns alive, and replacing the version that held it does not free it: in
      between, when only the new version's reference has been taken, its count is positive. */
  lemma GetBlobAlive(w: World, b: Blobs, t: Tid, k: Key)
    requires BlobInv(w, b) && k in w.core.lists && t < |w.ids|
    ensures var vs := w.core.lists[k]; var v := LastValue(vs);
            v.Some? ==>
              && v.value < |b.refs| && b.refs[v.value] > 0
              && ReplacedBlobs(RefBlob(b.refs, v), vs, InstallId(vs, w.ids, Version(t, v)))[v.value] > 0
  {
    var vs := w.core.lists[k];
    if LastValue(vs).Some? {
      HeldByLast(w, b, k);
      hide BlobInv, InstallId;
    }
  }

  lemma HeldByLast(w: World, b: Blobs, k: Key)
    requires BlobInv(w, b) && k in w.core.lists && LastValue(w.core.lists[k]).Some?
    ensures var x := LastValue(w.core.lists[k]).value; x < |b.refs| == |b.held| && b.refs[x] >= 1 + b.held[x]
  {
    var vs := w.core.lists[k];
    assert BlobOk(w, b, LastValue(vs).value);
    CountValueAtLeast(vs, |vs| - 1);
    ValueListChange(w.core.lists, w.entries, k, vs, LastValue(vs).value);
  }

  /** A PUT of the blob that the replaced version holds does not free it either. */
  lemma PutBlobAlive(w: World, b: Blobs, t: Tid, k: Key, v: BlobId)
    requires BlobInv(w, b) && k in w.core.lists && t < |w.ids| && v < |b.refs| && b.held[v] > 0
    ensures ReplacedBlobs(b.refs, w.core.lists[k], InstallId(w.core.lists[k], w.ids, Version(t, Some(v))))[v] > 0
  {
    var vs := w.core.lists[k];
    assert BlobOk(w, b, v);
    if vs != [] && LastValue(vs) == Some(v) { HeldByLast(w, b, k); }
    hide BlobInv, InstallId;
  }

  lemma GetBlobsAt(w: World, w': World, b: Blobs, t: Tid, k: Key, x: BlobId)
    requires WorldWf(w) && EntriesOk(w.core.lists, w.entries) && BlobsWf(w, b) && k in w.core.lists && t < |w.ids|
    requires Installed(w, w', t, k, LastValue(w.core.lists[k]))
    requires x < |b.refs| && BlobOk(w, b, x)
    ensures BlobOk(w', GetBlobs(w, b, t, k), x)
  {
    hide EntriesOk, CountValue, ValueRefs, InstallId, AdmitsId, ReplacedBlobs;
    var vs := w.core.lists[k];
    var v := LastValue(vs);
    ValueListChange(w.core.lists, w.entries, k, InstallId(vs, w.ids, Version(t, v)), x);
    InstallValues(vs, w.ids, Version(t, v), RefBlob(RefBlob(b.refs, v), v), x);
    TakenLater(b.refs, vs, InstallId(vs, w.ids, Version(t, v)));
  }

  /** The caller's reference to what the last version holds may as well be taken before the replacement. */
  lemma TakenLater(refs: seq<nat>, vs: seq<Version>, vs': seq<Version>)
    requires ValuesBelow(vs, |refs|)
    ensures var v := LastValue(vs);
            RefBlob(ReplacedBlobs(RefBlob(refs, v), vs, vs'), v) == ReplacedBlobs(RefBlob(RefBlob(refs, v), v), vs, vs')
  {
  }

  lemma GetBlobsKeeps(w: World, w': World, b: Blobs, t: Tid, k: Key)
    requires BlobInv(w, b) && k in w.core.lists && t < |w.ids|
    requires Installed(w, w', t, k, LastValue(w.core.lists[k]))
    ensures BlobInv(w', GetBlobs(w, b, t, k))
  {
    var b' := GetBlobs(w, b, t, k);
    LastValueBelow(w.core.lists[k], |b.refs|);
    InstalledWf(w, w', b, b', t, k, LastValue(w.core.lists[k]));
    hide EntriesOk, BlobsWf, Wf, Installed;
    forall x | 0 <= x < |b'.refs| ensures BlobOk(w', b', x) {
      assert BlobOk(w, b, x);
      GetBlobsAt(w, w', b, t, k, x);
    }
  }

  lemma {:induction false} BlobCreateKeeps(w: World, b: Blobs, bytes: Bytes)
    requires BlobInv(w, b)
    ensures BlobInv(w, BlobCreate(b, bytes))
  {
    hide EntriesOk, Wf;
    var n, b' := |b.refs|, BlobCreate(b, bytes);
    assert BlobsWf(w, b');
    forall x | 0 <= x < |b'.refs| ensures BlobOk(w, b', x) {
      if x < n {
        assert BlobOk(w, b, x);
      } else {
        NoNewKeys(b.keys, n);
        forall i | 0 <= i < |w.entries| ensures CountValue(At(w.core.lists, w.entries[i]), n) == 0 {
          NoNewValues(At(w.core.lists, w.entries[i]), n);
        }
        SumZero(PerEntryValue(w.core.lists, w.entries, n));
      }
    }
  }

  lemma {:induction false} NoNewKeys(keys: seq<BlobId>, n: nat)
    requires forall i | 0 <= i < |keys| :: keys[i] < n
    ensures KeyRefs(keys, n) == 0
  {
    if keys != [] {
      NoNewKeys(keys[..|keys| - 1], n);
    }
  }

  lemma {:induction false} NoNewValues(vs: seq<Version>, n: nat)
    requires ValuesBelow(vs, n)
    ensures CountValue(vs, n) == 0
  {
    if vs != [] {
      NoNewValues(vs[1..], n);
    }
  }

  // ----- PUT and GET as wholes

  function BlobsAfterPut(w: World, b: Blobs, t: Tid, key: BlobId, v: Value): Blobs
    requires BlobInv(w, b) && t < |w.ids| && key < |b.content| && b.held[key] > 0
    requires v.Some? ==> v.value < |b.refs| && b.held[v.value] > (if v.value == key then 1 else 0)
  {
    var k := b.content[key];
    AdoptKeyKeeps(w, b, key);
    CollectBlobsWf(WithEntry(w, k), AdoptKey(w, b, key), k);
    PutBlobs(GarbageCollect(WithEntry(w, k), k), CollectBlobs(WithEntry(w, k), AdoptKey(w, b, key), k), t, k, v)
  }

  function BlobsAfterGet(w: World, b: Blobs, t: Tid, key: BlobId): Blobs
    requires BlobInv(w, b) && t < |w.ids| && key < |b.content| && b.held[key] > 0
  {
    var k := b.content[key];
    AdoptKeyKeeps(w, b, key);
    CollectBlobsWf(WithEntry(w, k), AdoptKey(w, b, key), k);
    GetBlobs(GarbageCollect(WithEntry(w, k), k), CollectBlobs(WithEntry(w, k), AdoptKey(w, b, key), k), t, k)
  }

  /** Adding the entry first makes no difference to the collection. */
  lemma CollectWithEntry(w: World, k: Key)
    requires WorldWf(w)
    ensures WorldWf(WithEntry(w, k)) && GarbageCollect(WithEntry(w, k), k) == GarbageCollect(w, k)
  {
    var v := WithEntry(w, k);
    if k !in w.core.lists {
      assert Collected([], w.core.status) == [];
      assert w.core.lists[k := []][k := []] == w.core.lists[k := []];
    }
  }

  lemma AccessInstalls(w: World, t: Tid, k: Key, act: Action)
    requires WorldWf(w) && t < |w.handles| && w.handles[t] > 0 && WorldWf(StoreAccess(w, t, k, act))
    ensures WorldWf(GarbageCollect(w, k)) && k in GarbageCollect(w, k).core.lists
    ensures Installed(GarbageCollect(w, k), StoreAccess(w, t, k, act), t, k, act.value)
  {
    GarbageCollectWf(w, k);
  }

  lemma ListOrdered(w: World, k: Key)
    requires WorldInv(w)
    ensures CommittedFirst(At(w.core.lists, k), w.core.status)
  {
    assert KeyInv(w.core, k);
    ListShape(w.core, k);
  }

  /** A PUT conserves every blob's references, whether it is admitted, replaces a version or is rejected. */
  lemma PutConserves(w: World, b: Blobs, t: Tid, key: BlobId, v: Value)
    requires WorldInv(w) && BlobInv(w, b) && key < |b.content| && b.held[key] > 0
    requires Allowed(w, CallPut(t, b.content[key], v))
    requires v.Some? ==> v.value < |b.refs| && b.held[v.value] > (if v.value == key then 1 else 0)
    ensures BlobInv(StorePut(w, t, b.content[key], v), BlobsAfterPut(w, b, t, key, v))
  {
    var k := b.content[key];
    AdoptKeyKeeps(w, b, key);
    ListOrdered(w, k);
    AccessKeepsWorld(w, t, k, Put(v));
    CollectWithEntry(w, k);
    AccessInstalls(w, t, k, Put(v));
    hide WorldInv, GarbageCollect, StoreAccess, AdoptKey, Wf, EntriesOk, Installed, Access, CommittedFirst, BlobsWf;
    CollectBlobsKeeps(WithEntry(w, k), AdoptKey(w, b, key), k);
    PutBlobsKeeps(GarbageCollect(w, k), StoreAccess(w, t, k, Put(v)),
        CollectBlobs(WithEntry(w, k), AdoptKey(w, b, key), k), t, k, v);
  }

  /** So does a GET, which hands the caller one reference to the value it returns. */
  lemma GetConserves(w: World, b: Blobs, t: Tid, key: BlobId)
    requires WorldInv(w) && BlobInv(w, b) && key < |b.content| && b.held[key] > 0
    requires Allowed(w, CallGet(t, b.content[key]))
    ensures BlobInv(StoreGet(w, t, b.content[key]), BlobsAfterGet(w, b, t, key))
  {
    var k := b.content[key];
    var act := Get(ReadValue(w.core, k));
    AdoptKeyKeeps(w, b, key);
    ListOrdered(w, k);
    AccessKeepsWorld(w, t, k, act);
    CollectWithEntry(w, k);
    AccessInstalls(w, t, k, act);
    assert act.value == LastValue(GarbageCollect(w, k).core.lists[k]);
    hide WorldInv, GarbageCollect, StoreAccess, AdoptKey, Wf, EntriesOk, Installed, Access, CommittedFirst, BlobsWf;
    CollectBlobsKeeps(WithEntry(w, k), AdoptKey(w, b, key), k);
    GetBlobsKeeps(GarbageCollect(w, k), StoreAccess(w, t, k, act),
        CollectBlobs(WithEntry(w, k), AdoptKey(w, b, key), k), t, k);
  }
}
