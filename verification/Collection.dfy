/** The garbage collection pass over a version list in memory. */
module Collection {
  import opened Types
  import opened VersionLists
  import opened Protocol
  import opened References
  import opened Waiting
  import opened Machine
  import opened Books
  import opened Transactions
  import opened VersionLinks
  import opened BlobBooks
  import opened BlobPools

  /** Every version of the list holds a reference to its creator, besides the references in `held`, and one to
      its blob. */
  ghost predicate Enough(others: seq<nat>, refs: seq<nat>, vs: seq<Version>, held: seq<nat>) {
    && |others| == |held| && (forall x | 0 <= x < |others| :: others[x] >= held[x] + CountBy(vs, x))
    && ValuesBelow(vs, |refs|) && forall x | 0 <= x < |refs| :: refs[x] >= CountValue(vs, x)
  }

  lemma EnoughFirst(others: seq<nat>, refs: seq<nat>, vs: seq<Version>, held: seq<nat>)
    requires Enough(others, refs, vs, held) && vs != [] && vs[0].creator < |others|
    ensures others[vs[0].creator] > 0 && Covers(others, held)
    ensures vs[0].value.Some? ==> vs[0].value.value < |refs| && refs[vs[0].value.value] > 0
    ensures Enough(others[vs[0].creator := others[vs[0].creator] - 1], UnrefBlob(refs, vs[0].value), vs[1..], held)
  {
    var v := vs[0];
    assert v.value.Some? ==> CountValue(vs, v.value.value) > 0;
  }

  /** The records of creators and blobs are known. */
  ghost predicate Creators(tm: Manager, pool: Pool, nodes: seq<VersionNode>)
    reads tm`all, pool`all
  {
    forall i | 0 <= i < |nodes| :: tm.Has(nodes[i].creator) && pool.Has(nodes[i].blob)
  }

  ghost predicate AllHeard(waitcnt: seq<nat>, deps: seq<seq<Tid>>, held: seq<nat>) {
    forall d | 0 <= d < |waitcnt| :: Heard(d, waitcnt, deps, held)
  }

  ghost predicate NoneCommitted(vs: seq<Version>, st: seq<Status>) {
    CreatorsBelow(vs, |st|) && forall i | 0 <= i < |vs| :: st[vs[i].creator] != Committed
  }

  /** What the pass needs of the manager, and keeps. */
  ghost predicate Steady(tm: Manager, pool: Pool, others: seq<nat>, held: seq<nat>)
    reads tm, tm.all, tm.ring, pool, pool.all
  {
    && tm.Sound(others) && tm.StatusOk() && tm.WaitsOk() && AllHeard(tm.waits.waitcnt, tm.deps, held)
    && pool.Ok()
  }

  lemma SteadyFacts(tm: Manager, pool: Pool, others: seq<nat>, held: seq<nat>)
    requires Steady(tm, pool, others, held)
    ensures tm.Known() && tm.CountsOk() && tm.ListOk() && tm.StatusOk() && tm.WaitsOk() && DepsBelow(tm.deps)
    ensures |tm.counts| == |tm.deps| == |tm.status| == |tm.waits.phase| == |tm.waits.waitcnt| == |tm.waits.sem| ==
            |tm.all| == |others|
    ensures forall x | 0 <= x < |others| && others[x] > 0 :: tm.counts[x] > 0
  {
  }

  /** version_dispose: the creator and the blob lose the version's references. */
  method VersionDispose(tm: Manager, pool: Pool, vp: VersionNode, ghost others: seq<nat>, ghost held: seq<nat>)
    requires tm.Has(vp.creator) && Steady(tm, pool, others, held) && others[vp.creator.name] > 0
    requires pool.Has(vp.blob) && (vp.blob != null ==> pool.refs[vp.blob.bid] > 0)
    modifies tm`counts, tm`ring, tm.all`refcnt, tm.all`next, tm.all`prev, tm.transList`next, tm.transList`prev
    modifies pool`refs, pool.all`refcnt
    ensures Steady(tm, pool, others[vp.creator.name := others[vp.creator.name] - 1], held)
    ensures DepsBelow(tm.deps) && tm.counts == Unref(old(tm.counts), tm.deps, vp.creator.name)
    ensures pool.refs == UnrefBlob(old(pool.refs), Val(vp.blob))
  {
    hide AllHeard, Unref, UnrefBlob, Val, tm.Known, tm.CountsOk, tm.ListOk, tm.Sound, tm.StatusOk, tm.WaitsOk,
         pool.Ok, DepsBelow;
    SteadyFacts(tm, pool, others, held);
    tm.TransUnref(vp.creator, others);
    pool.BlobUnref(vp.blob);
  }

  /** One step of remove_later_list: the creator of a doomed version is aborted, with a reference of its own,
      and the version disposed of. */
  method DropDoomed(tm: Manager, pool: Pool, vp: VersionNode, ghost others: seq<nat>, ghost held: seq<nat>)
    requires tm.Has(vp.creator) && Steady(tm, pool, others, held) && others[vp.creator.name] > 0 && Covers(others, held)
    requires pool.Has(vp.blob) && (vp.blob != null ==> vp.blob.bid < |pool.refs| && pool.refs[vp.blob.bid] > 0)
    requires vp.creator.status != Committed
    modifies tm`status, tm`waits, tm.all`status, tm.all`waitcnt, tm.all`sem
    modifies tm`counts, tm`ring, tm.all`refcnt, tm.all`next, tm.all`prev, tm.transList`next, tm.transList`prev
    modifies pool`refs, pool.all`refcnt
    ensures Steady(tm, pool, others[vp.creator.name := others[vp.creator.name] - 1], held)
    ensures DepsBelow(tm.deps) && tm.counts == Unref(old(tm.counts), tm.deps, vp.creator.name)
    ensures tm.status == old(tm.status)[vp.creator.name := Aborted]
    ensures tm.waits == if old(tm.status[vp.creator.name]) == Pending then Wake(old(tm.waits), vp.creator.name)
                        else old(tm.waits)
    ensures pool.refs == UnrefBlob(old(pool.refs), Val(vp.blob))
  {
    hide Steady, Unref, UnrefBlob, Wake, Covers;
    AbortCreator(tm, pool, vp.creator, others, held);
    VersionDispose(tm, pool, vp, others, held);
  }

  /** trans_abort on behalf of a version's creator, with a reference taken for the purpose. */
  method AbortCreator(tm: Manager, pool: Pool, creator: Transaction, ghost others: seq<nat>, ghost held: seq<nat>)
    requires tm.Has(creator) && Steady(tm, pool, others, held) && others[creator.name] > 0 && Covers(others, held)
    requires creator.status != Committed
    modifies tm`status, tm`waits, tm.all`status, tm.all`waitcnt, tm.all`sem
    modifies tm`counts, tm`ring, tm.all`refcnt, tm.all`next, tm.all`prev, tm.transList`next, tm.transList`prev
    ensures Steady(tm, pool, others, held) && tm.counts == old(tm.counts)
    ensures tm.status == old(tm.status)[creator.name := Aborted]
    ensures tm.waits == if old(tm.status[creator.name]) == Pending then Wake(old(tm.waits), creator.name)
            else old(tm.waits)
  {
    hide tm.Known, tm.CountsOk, tm.ListOk, tm.DepsOk, tm.StatusOk, tm.WaitsOk, Graph, Ref, Unref, Wake, Covers,
         AllHeard;
    ghost var c: Tid := creator.name;
    AbortFacts(tm, pool, creator, others, held);
    RefForAbort(tm.counts, tm.deps, others, c, held);
    var tp := tm.TransRef(creator);
    assert tm.Sound(others[c := others[c] + 1]);
    var r := tm.TransAbort(tp, others[c := others[c] + 1], held);
    WakeHeard(old(tm.waits), tm.deps, held, c);
  }

  lemma AbortFacts(tm: Manager, pool: Pool, creator: Transaction, others: seq<nat>, held: seq<nat>)
    requires tm.Has(creator) && Steady(tm, pool, others, held) && others[creator.name] > 0
    ensures tm.Known() && tm.CountsOk() && tm.ListOk() && tm.StatusOk() && tm.WaitsOk() && tm.DepsOk()
    ensures |tm.counts| == |tm.deps| == |tm.status| == |tm.waits.phase| == |tm.waits.waitcnt| == |tm.waits.sem| ==
            |tm.all| == |others|
    ensures tm.counts[creator.name] > 0 && tm.status[creator.name] == creator.status
    ensures Graph(tm.counts, tm.deps, others) && Heard(creator.name, tm.waits.waitcnt, tm.deps, held)
  {
  }

  lemma RefForAbort(counts: seq<nat>, deps: seq<seq<Tid>>, others: seq<nat>, c: Tid, held: seq<nat>)
    requires Graph(counts, deps, others) && c < |counts| && counts[c] > 0 && Covers(others, held)
    ensures DepsBelow(deps) && Graph(Ref(counts, c), deps, others[c := others[c] + 1]) &&
            Covers(others[c := others[c] + 1], held)
    ensures Unref(Ref(counts, c), deps, c) == counts
    ensures others[c := others[c] + 1][c := others[c := others[c] + 1][c] - 1] == others
  {
    RefBalanced(counts, deps, others, c);
    hide Balanced;
    assert Ref(counts, c)[c := counts[c]] == counts;
  }

  lemma WakeHeard(waits: Waits, deps: seq<seq<Tid>>, held: seq<nat>, c: Tid)
    requires c < |waits.waitcnt| == |waits.sem| && AllHeard(waits.waitcnt, deps, held)
    ensures AllHeard(Wake(waits, c).waitcnt, deps, held)
  {
    forall d | 0 <= d < |waits.waitcnt| ensures Heard(d, Wake(waits, c).waitcnt, deps, held) {
      assert Heard(d, waits.waitcnt, deps, held);
    }
  }

  // ----- The aborted version and everything after it

  /** The reference counts of transactions and blobs, the statuses and the waits that an operation changes. */
  datatype Ledger = Ledger(counts: seq<nat>, status: seq<Status>, waits: Waits, refs: seq<nat>)

  ghost function LedgerOf(tm: Manager, pool: Pool): Ledger
    reads tm`counts, tm`status, tm`waits, pool`refs
  {
    Ledger(tm.counts, tm.status, tm.waits, pool.refs)
  }

  ghost predicate Fit(b: Ledger, deps: seq<seq<Tid>>, vs: seq<Version>) {
    && DepsBelow(deps) && |b.counts| == |deps| == |b.status| == |b.waits.phase| == |b.waits.waitcnt| == |b.waits.sem|
    && CreatorsBelow(vs, |b.status|) && ValuesBelow(vs, |b.refs|)
  }

  /** What dropping the doomed versions `vs` leads to. */
  ghost function AllDropped(b: Ledger, deps: seq<seq<Tid>>, vs: seq<Version>): Ledger
    requires Fit(b, deps, vs)
  {
    Ledger(DropCreators(b.counts, deps, vs), AbortCreators(vs, b.status), WakeCreators(b.waits, b.status, vs),
           DropValues(b.refs, vs))
  }

  ghost predicate Ahead(b: Ledger, deps: seq<seq<Tid>>, vs: seq<Version>, goal: Ledger) {
    Fit(b, deps, vs) && AllDropped(b, deps, vs) == goal
  }

  ghost function OneDropped(b: Ledger, deps: seq<seq<Tid>>, v: Version): Ledger
    requires Fit(b, deps, [v])
  {
    var c := v.creator;
    assert [v][0] == v;
    Ledger(Unref(b.counts, deps, c), b.status[c := Aborted],
        if b.status[c] == Pending then Wake(b.waits, c) else b.waits,
           UnrefBlob(b.refs, v.value))
  }

  lemma AheadStep(b: Ledger, deps: seq<seq<Tid>>, vs: seq<Version>, goal: Ledger)
    requires vs != [] && Ahead(b, deps, vs, goal)
    ensures Fit(b, deps, [vs[0]]) && Ahead(OneDropped(b, deps, vs[0]), deps, vs[1..], goal)
  {
  }

  lemma ImageRest(nodes: seq<VersionNode>)
    requires nodes != []
    ensures Image(nodes)[1..] == Image(nodes[1..])
  {
  }

  lemma DoomedFirst(tm: Manager, pool: Pool, nodes: seq<VersionNode>, others: seq<nat>, held: seq<nat>)
    requires Steady(tm, pool, others, held) && nodes != [] && Creators(tm, pool, nodes)
    requires Enough(others, pool.refs, Image(nodes), held) && NoneCommitted(Image(nodes), tm.status)
    ensures var c := nodes[0].creator; var bp := nodes[0].blob;
            && tm.Has(c) && c.name < |tm.status| == |tm.counts| == |others| && c.status != Committed
            && others[c.name] > 0 && Covers(others, held)
            && pool.Has(bp) && (bp != null ==> bp.bid < |pool.refs| && pool.refs[bp.bid] > 0)
            && Enough(others[c.name := others[c.name] - 1], UnrefBlob(pool.refs, Val(bp)), Image(nodes[1..]), held)
            && NoneCommitted(Image(nodes[1..]), tm.status[c.name := Aborted])
            && Creators(tm, pool, nodes[1..])
  {
    hide Enough, Steady, Covers;
    SteadySizes(tm, pool, others, held);
    EnoughFirst(others, pool.refs, Image(nodes), held);
    ImageRest(nodes);
  }

  lemma SteadySizes(tm: Manager, pool: Pool, others: seq<nat>, held: seq<nat>)
    requires Steady(tm, pool, others, held)
    ensures |tm.counts| == |tm.status| == |tm.all| == |others| && |pool.all| == |pool.refs|
    ensures forall t | 0 <= t < |tm.all| :: tm.all[t].status == tm.status[t]
  {
  }

  method DropNext(tm: Manager, pool: Pool, curr: VersionNode, ghost nodes: seq<VersionNode>, ghost others: seq<nat>,
                  ghost held: seq<nat>, ghost goal: Ledger)
    requires nodes != [] && nodes[0] == curr && Creators(tm, pool, nodes) && Steady(tm, pool, others, held)
    requires Enough(others, pool.refs, Image(nodes), held) && NoneCommitted(Image(nodes), tm.status)
    requires Ahead(LedgerOf(tm, pool), tm.deps, Image(nodes), goal)
    modifies tm`status, tm`waits, tm.all`status, tm.all`waitcnt, tm.all`sem
    modifies tm`counts, tm`ring, tm.all`refcnt, tm.all`next, tm.all`prev, tm.transList`next, tm.transList`prev
    modifies pool`refs, pool.all`refcnt
    ensures Creators(tm, pool, nodes[1..]) && NoneCommitted(Image(nodes[1..]), tm.status)
    ensures curr.creator.name < |others| && others[curr.creator.name] > 0
    ensures var less := others[curr.creator.name := others[curr.creator.name] - 1];
            Steady(tm, pool, less, held) && Enough(less, pool.refs, Image(nodes[1..]), held)
    ensures Ahead(LedgerOf(tm, pool), tm.deps, Image(nodes[1..]), goal)
  {
    hide Steady, Creators, Enough, NoneCommitted, Ahead, Unref, Wake, UnrefBlob, Fit;
    DoomedFirst(tm, pool, nodes, others, held);
    ImageRest(nodes);
    AheadStep(LedgerOf(tm, pool), tm.deps, Image(nodes), goal);
    DropDoomed(tm, pool, curr, others, held);
  }

  /** remove_later_list, the disposal. */
  method DropAll(tm: Manager, pool: Pool, head: VersionNode?, ghost nodes: seq<VersionNode>, ghost others: seq<nat>,
                 ghost held: seq<nat>, ghost goal: Ledger)
    returns (ghost left: seq<nat>)
    requires Follow(head, nodes) && Creators(tm, pool, nodes) && Steady(tm, pool, others, held)
    requires Enough(others, pool.refs, Image(nodes), held) && NoneCommitted(Image(nodes), tm.status)
    requires Ahead(LedgerOf(tm, pool), tm.deps, Image(nodes), goal)
    modifies tm`status, tm`waits, tm.all`status, tm.all`waitcnt, tm.all`sem
    modifies tm`counts, tm`ring, tm.all`refcnt, tm.all`next, tm.all`prev, tm.transList`next, tm.transList`prev
    modifies pool`refs, pool.all`refcnt
    ensures Steady(tm, pool, left, held) && LedgerOf(tm, pool) == goal
  {
    hide Follow, Steady, Creators, Enough, NoneCommitted, Ahead;
    ghost var rest := nodes;
    var curr := head;
    left := others;
    while curr != null
      invariant Follow(curr, rest) && Creators(tm, pool, rest) && Steady(tm, pool, left, held)
      invariant Enough(left, pool.refs, Image(rest), held) && NoneCommitted(Image(rest), tm.status)
      invariant Ahead(LedgerOf(tm, pool), tm.deps, Image(rest), goal)
      decreases |rest|
    {
      FollowNext(curr, rest);
      var next := curr.next;
      DropNext(tm, pool, curr, rest, left, held, goal);
      left := left[curr.creator.name := left[curr.creator.name] - 1];
      curr, rest := next, rest[1..];
    }
    FollowEnd(curr, rest);
    AheadEnd(LedgerOf(tm, pool), tm.deps, goal);
  }

  lemma AheadEnd(b: Ledger, deps: seq<seq<Tid>>, goal: Ledger)
    requires Ahead(b, deps, [], goal)
    ensures b == goal
  {
  }

  lemma FollowNext(curr: VersionNode, rest: seq<VersionNode>)
    requires Follow(curr, rest)
    ensures rest != [] && rest[0] == curr && Follow(curr.next, rest[1..])
  {
    assert forall i | 1 <= i < |rest| :: rest[1..][i - 1] == rest[i];
  }

  lemma FollowEnd(curr: VersionNode?, rest: seq<VersionNode>)
    requires Follow(curr, rest) && curr == null
    ensures Image(rest) == []
  {
  }

  lemma AheadStart(tm: Manager, pool: Pool, vs: seq<Version>, others: seq<nat>, held: seq<nat>)
    requires Steady(tm, pool, others, held) && CreatorsBelow(vs, |tm.status|) && Enough(others, pool.refs, vs, held)
    ensures Fit(LedgerOf(tm, pool), tm.deps, vs) &&
            Ahead(LedgerOf(tm, pool), tm.deps, vs, AllDropped(LedgerOf(tm, pool), tm.deps, vs))
  {
  }

  /** remove_later_list. */
  method RemoveLaterList(tm: Manager, pool: Pool, e: MapEntry, head: VersionNode, ghost j: nat, ghost others: seq<nat>,
                         ghost held: seq<nat>)
    returns (ghost left: seq<nat>)
    requires e.Linked() && j < |e.nodes| && e.nodes[j] == head && Creators(tm, pool, e.nodes[j..]) &&
             Steady(tm, pool, others, held)
    requires Enough(others, pool.refs, Image(e.nodes[j..]), held) && NoneCommitted(Image(e.nodes[j..]), tm.status)
    modifies tm`status, tm`waits, tm.all`status, tm.all`waitcnt, tm.all`sem
    modifies tm`counts, tm`ring, tm.all`refcnt, tm.all`next, tm.all`prev, tm.transList`next, tm.transList`prev
    modifies pool`refs, pool.all`refcnt
    modifies e`versions, e`nodes, e.nodes`next
    ensures e.Linked() && e.nodes == old(e.nodes)[..j] && Steady(tm, pool, left, held)
    ensures var vs := Image(old(e.nodes)[j..]);
            Fit(old(LedgerOf(tm, pool)), tm.deps, vs) &&
                LedgerOf(tm, pool) == AllDropped(old(LedgerOf(tm, pool)), tm.deps, vs)
  {
    hide Follow, Steady, Creators, Enough, Ahead, e.Linked, AllDropped;
    ghost var vs := Image(e.nodes[j..]);
    AheadStart(tm, pool, vs, others, held);
    ghost var nodes := e.nodes[j..];
    e.CutBefore(head, j);
    left := DropAll(tm, pool, head, nodes, others, held, AllDropped(LedgerOf(tm, pool), tm.deps, vs));
  }

  // ----- The whole pass

  /** How far the pass has come: `c` versions removed, `i` looked at, none of them aborted; the committed ones
      among them are those removed and, when there is one, the most recent, at `c`. */
  ghost predicate Scanned(vs: seq<Version>, st: seq<Status>, c: nat, i: nat, found: bool) {
    && CreatorsBelow(vs, |st|) && c <= i <= |vs| && (if found then c < i else c == 0)
    && (forall j | 0 <= j < i :: st[vs[j].creator] != Aborted)
    && (forall j | 0 <= j < i :: st[vs[j].creator] == Committed <==> found && j <= c)
  }

  lemma ScanStep(vs: seq<Version>, st: seq<Status>, c: nat, i: nat, found: bool)
    requires Scanned(vs, st, c, i, found) && CommittedFirst(vs, st) && i < |vs| && st[vs[i].creator] != Aborted
    ensures st[vs[i].creator] == Committed ==>
              if found then i == c + 1 && Scanned(vs, st, c + 1, i + 1, true) else i == 0 && Scanned(vs, st, 0, 1, true)
    ensures st[vs[i].creator] == Pending ==> Scanned(vs, st, c, i + 1, found)
  {
    if st[vs[i].creator] == Committed {
      assert forall j | 0 <= j < i :: st[vs[j].creator] == Committed;
      assert i > 0 ==> st[vs[i - 1].creator] == Committed;
    }
  }

  lemma {:induction false} KeepLatestIs(p: seq<Version>, st: seq<Status>, c: nat, found: bool)
    requires Scanned(p, st, c, |p|, found)
    ensures Superseded(p, st) == p[..c] && KeepLatest(p, st) == p[c..]
  {
    hide Scanned;
    ScannedRest(p, st, c, found);
    if p != [] {
      if c > 0 {
        KeepLatestIs(p[1..], st, c - 1, true);
      } else {
        NothingSuperseded(p[1..], st);
      }
    }
  }

  lemma ScannedRest(p: seq<Version>, st: seq<Status>, c: nat, found: bool)
    requires Scanned(p, st, c, |p|, found)
    ensures CreatorsBelow(p, |st|) && c <= |p| && (found ==> c < |p|)
    ensures p != [] && c > 0 ==> found && Scanned(p[1..], st, c - 1, |p| - 1, true)
    ensures p != [] && c > 0 ==> st[p[0].creator] == Committed && HasCommitted(p[1..], st)
    ensures p != [] && c == 0 ==> CreatorsBelow(p[1..], |st|) && !HasCommitted(p[1..], st)
  {
    if p != [] {
      var rest := p[1..];
      assert forall j | 0 <= j < |rest| :: rest[j] == p[j + 1];
      if c > 0 { assert st[rest[c - 1].creator] == Committed; }
    }
  }

  lemma ScanEnds(vs: seq<Version>, st: seq<Status>, c: nat, i: nat, found: bool)
    requires Scanned(vs, st, c, i, found) && (i == |vs| || st[vs[i].creator] == Aborted)
    ensures Outdated(vs, st) == vs[..c] && Collected(vs, st) == vs[c..i] && Doomed(vs, st) == vs[i..]
  {
    assert FirstAborted(vs, st) == i;
    assert Scanned(vs[..i], st, c, i, found);
    KeepLatestIs(vs[..i], st, c, found);
    assert vs[..i][..c] == vs[..c] && vs[..i][c..] == vs[c..i];
  }

  lemma {:induction false} DropCreatorsSnoc(counts: seq<nat>, deps: seq<seq<Tid>>, vs: seq<Version>, v: Version)
    requires DepsBelow(deps) && |counts| == |deps| && CreatorsBelow(vs + [v], |counts|)
    ensures CreatorsBelow(vs, |counts|) && v.creator < |counts|
    ensures DropCreators(counts, deps, vs + [v]) == Unref(DropCreators(counts, deps, vs), deps, v.creator)
    decreases |vs|
  {
    assert (vs + [v])[|vs|] == v && forall i | 0 <= i < |vs| :: (vs + [v])[i] == vs[i];
    if vs == [] {
      assert [v][1..] == [];
    } else {
      assert (vs + [v])[1..] == vs[1..] + [v];
      DropCreatorsSnoc(Unref(counts, deps, vs[0].creator), deps, vs[1..], v);
    }
  }

  /** What disposing of superseded versions leads to. */
  ghost function Disposed(b: Ledger, deps: seq<seq<Tid>>, vs: seq<Version>): Ledger
    requires Fit(b, deps, vs)
  {
    b.(counts := DropCreators(b.counts, deps, vs), refs := DropValues(b.refs, vs))
  }

  lemma FitPart(b: Ledger, deps: seq<seq<Tid>>, vs: seq<Version>, c: nat)
    requires Fit(b, deps, vs) && c <= |vs|
    ensures Fit(b, deps, vs[..c]) && Fit(b, deps, vs[c..])
  {
  }

  lemma {:induction false} DropValuesSnoc(refs: seq<nat>, vs: seq<Version>, v: Version)
    requires ValuesBelow(vs + [v], |refs|)
    ensures ValuesBelow(vs, |refs|) && (v.value.Some? ==> v.value.value < |refs|)
    ensures DropValues(refs, vs + [v]) == UnrefBlob(DropValues(refs, vs), v.value)
    decreases |vs|
  {
    assert (vs + [v])[|vs|] == v && forall i | 0 <= i < |vs| :: (vs + [v])[i] == vs[i];
    if vs == [] {
      assert [v][1..] == [];
    } else {
      assert (vs + [v])[1..] == vs[1..] + [v];
      DropValuesSnoc(UnrefBlob(refs, vs[0].value), vs[1..], v);
    }
  }

  lemma DisposedSnoc(b: Ledger, deps: seq<seq<Tid>>, vs: seq<Version>, c: nat)
    requires Fit(b, deps, vs) && c < |vs|
    ensures Fit(b, deps, vs[..c]) && Fit(b, deps, vs[..c + 1])
    ensures DepsBelow(deps) && vs[c].creator < |deps| && (vs[c].value.Some? ==> vs[c].value.value < |b.refs|)
    ensures var d := Disposed(b, deps, vs[..c]);
            |d.counts| == |deps| && |d.refs| == |b.refs| &&
            Disposed(b, deps, vs[..c + 1]) ==
                d.(counts := Unref(d.counts, deps, vs[c].creator), refs := UnrefBlob(d.refs, vs[c].value))
  {
    FitPart(b, deps, vs, c);
    FitPart(b, deps, vs, c + 1);
    assert vs[..c + 1] == vs[..c] + [vs[c]];
    DropCreatorsSnoc(b.counts, deps, vs[..c], vs[c]);
    DropValuesSnoc(b.refs, vs[..c], vs[c]);
  }

  /** What the pass has in hand between two steps: the versions from `c` on, and the counts after the earlier
      ones have been disposed of. */
  ghost predicate Under(tm: Manager, pool: Pool, e: MapEntry, others: seq<nat>, held: seq<nat>, ns: seq<VersionNode>,
                        c: nat,
                        b: Ledger)
    reads tm, tm.all, tm.ring, e, e.nodes, pool, pool.all
  {
    && e.Linked() && c <= |ns| && e.nodes == ns[c..] && Creators(tm, pool, ns)
    && Steady(tm, pool, others, held) && Enough(others, pool.refs, Image(ns)[c..], held)
    && Fit(b, tm.deps, Image(ns)) && Fit(b, tm.deps, Image(ns)[..c])
    && LedgerOf(tm, pool) == Disposed(b, tm.deps, Image(ns)[..c])
  }

  lemma UnderStart(tm: Manager, pool: Pool, e: MapEntry, others: seq<nat>, held: seq<nat>)
    requires e.Linked() && Creators(tm, pool, e.nodes) && Steady(tm, pool, others, held) &&
             Enough(others, pool.refs, Image(e.nodes), held)
    ensures Under(tm, pool, e, others, held, e.nodes, 0, LedgerOf(tm, pool))
  {
    assert Image(e.nodes)[0..] == Image(e.nodes) && e.nodes[0..] == e.nodes && Image(e.nodes)[..0] == [];
  }

  /** A more recent committed version has turned up: the one before it is removed and disposed of. */
  method Retire(tm: Manager, pool: Pool, e: MapEntry, recent: VersionNode, ghost others: seq<nat>, ghost held: seq<nat>,
                ghost ns: seq<VersionNode>, ghost c: nat, ghost b: Ledger) returns (ghost left: seq<nat>)
    requires Under(tm, pool, e, others, held, ns, c, b) && c < |ns| && recent == ns[c]
    modifies tm`counts, tm`ring, tm.all`refcnt, tm.all`next, tm.all`prev, tm.transList`next, tm.transList`prev
    modifies pool`refs, pool.all`refcnt
    modifies e`versions, e`nodes, ns`next, ns`prev
    ensures Under(tm, pool, e, left, held, ns, c + 1, b)
  {
    hide Steady, Enough, e.Linked, Disposed, Unref, UnrefBlob, Creators, Fit, Image, Dropped, DepsBelow, Val;
    RetireFacts(tm, pool, others, held, ns, c, b);
    e.RemoveNode(recent, 0);
    VersionDispose(tm, pool, recent, others, held);
    left := others[recent.creator.name := others[recent.creator.name] - 1];
  }

  lemma RetireFacts(tm: Manager, pool: Pool, others: seq<nat>, held: seq<nat>, ns: seq<VersionNode>, c: nat, b: Ledger)
    requires Steady(tm, pool, others, held) && c < |ns| && Creators(tm, pool, ns)
    requires Enough(others, pool.refs, Image(ns)[c..], held) && Fit(b, tm.deps, Image(ns))
    ensures Fit(b, tm.deps, Image(ns)[..c]) && Fit(b, tm.deps, Image(ns)[..c + 1]) && DepsBelow(tm.deps)
    ensures var t := ns[c].creator; var bp := ns[c].blob;
            && tm.Has(t) && t.name < |others| == |tm.deps| && others[t.name] > 0
            && pool.Has(bp) && (bp != null ==> bp.bid < |pool.refs| && bp.bid < |b.refs| && pool.refs[bp.bid] > 0)
            && Enough(others[t.name := others[t.name] - 1], UnrefBlob(pool.refs, Val(bp)), Image(ns)[c + 1..], held)
            && var d := Disposed(b, tm.deps, Image(ns)[..c]);
               |d.counts| == |tm.deps| && |d.refs| == |b.refs| &&
               Disposed(b, tm.deps, Image(ns)[..c + 1]) ==
                   d.(counts := Unref(d.counts, tm.deps, t.name), refs := UnrefBlob(d.refs, Val(bp)))
    ensures Dropped(ns[c..], 0) == ns[c + 1..]
  {
    hide Enough, Disposed, Fit, Unref, UnrefBlob, tm.Known, tm.CountsOk, tm.ListOk, tm.DepsOk, tm.StatusOk,
         tm.WaitsOk;
    var vs := Image(ns);
    SteadyFacts(tm, pool, others, held);
    EnoughFirst(others, pool.refs, vs[c..], held);
    assert vs[c..][1..] == vs[c + 1..];
    DisposedSnoc(b, tm.deps, vs, c);
  }

  /** What the pass makes of the counts, statuses and waits. */
  ghost function AfterPass(b: Ledger, deps: seq<seq<Tid>>, vs: seq<Version>): Ledger
    requires Fit(b, deps, vs)
  {
    PartsFit(b, deps, vs);
    AllDropped(Disposed(b, deps, Outdated(vs, b.status)), deps, Doomed(vs, b.status))
  }

  lemma PartsFit(b: Ledger, deps: seq<seq<Tid>>, vs: seq<Version>)
    requires Fit(b, deps, vs)
    ensures Fit(b, deps, Outdated(vs, b.status))
    ensures Fit(Disposed(b, deps, Outdated(vs, b.status)), deps, Doomed(vs, b.status))
  {
    PartsBelow(vs, b.status, |b.refs|);
  }

  lemma ScanStart(vs: seq<Version>, st: seq<Status>)
    requires CreatorsBelow(vs, |st|)
    ensures Scanned(vs, st, 0, 0, false)
  {
  }

  lemma HeadAt(tm: Manager, pool: Pool, e: MapEntry, others: seq<nat>, held: seq<nat>, ns: seq<VersionNode>, c: nat,
               b: Ledger,
               i: nat)
    requires Under(tm, pool, e, others, held, ns, c, b) && c <= i <= |ns|
    ensures i == c ==> e.versions == NodeAt(ns, i)
    ensures CreatorsBelow(Image(ns), |b.status|) && |Image(ns)| == |ns|
    ensures i < |ns| ==> ns[i].creator.status == b.status[Image(ns)[i].creator] && ns[i].next == NodeAt(ns, i + 1)
  {
    if i < |ns| {
      assert e.nodes[i - c] == ns[i];
      assert tm.all[ns[i].creator.name] == ns[i].creator;
    }
  }

  lemma RestDoomed(vs: seq<Version>, st: seq<Status>, i: nat)
    requires CreatorsBelow(vs, |st|) && CommittedFirst(vs, st) && i < |vs| && st[vs[i].creator] == Aborted
    ensures NoneCommitted(vs[i..], st)
  {
  }

  lemma {:induction false} EnoughRest(others: seq<nat>, refs: seq<nat>, vs: seq<Version>, held: seq<nat>, j: nat)
    requires Enough(others, refs, vs, held) && j <= |vs|
    ensures Enough(others, refs, vs[j..], held)
  {
    assert vs == vs[..j] + vs[j..];
    forall x | 0 <= x < |others| ensures others[x] >= held[x] + CountBy(vs[j..], x) {
      CountByAppend(vs[..j], vs[j..], x);
    }
    forall x | 0 <= x < |refs| ensures refs[x] >= CountValue(vs[j..], x) {
      CountValueAppend(vs[..j], vs[j..], x);
    }
  }

  lemma PassEnds(tm: Manager, pool: Pool, e: MapEntry, others: seq<nat>, held: seq<nat>, ns: seq<VersionNode>,
                 c: nat, b: Ledger)
    requires Under(tm, pool, e, others, held, ns, c, b)
    requires Outdated(Image(ns), b.status) == Image(ns)[..c] && Collected(Image(ns), b.status) == Image(ns)[c..]
    requires Doomed(Image(ns), b.status) == []
    ensures e.Linked() && Image(e.nodes) == Collected(Image(ns), b.status) && Steady(tm, pool, others, held)
    ensures Fit(b, tm.deps, Image(ns)) && LedgerOf(tm, pool) == AfterPass(b, tm.deps, Image(ns))
    ensures forall n | n in e.nodes :: n in ns
  {
    hide Steady, Enough, e.Linked, Creators, Outdated, Collected, Doomed, Follow;
    assert Image(e.nodes) == Image(ns)[c..];
  }

  lemma RestSlices(ns: seq<VersionNode>, c: nat, i: nat)
    requires c <= i < |ns|
    ensures ns[c..][i - c..] == ns[i..] && ns[c..][..i - c] == ns[c..i]
    ensures Image(ns)[c..][i - c..] == Image(ns)[i..]
    ensures Image(ns[i..]) == Image(ns)[i..] && Image(ns[c..i]) == Image(ns)[c..i]
  {
  }

  lemma RestFacts(tm: Manager, pool: Pool, e: MapEntry, others: seq<nat>, held: seq<nat>, ns: seq<VersionNode>,
                  c: nat, i: nat,
                  b: Ledger)
    requires Under(tm, pool, e, others, held, ns, c, b) && c <= i < |ns| && CreatorsBelow(Image(ns), |b.status|)
    requires CommittedFirst(Image(ns), b.status) && b.status[Image(ns)[i].creator] == Aborted
    ensures |e.nodes| == |ns| - c && e.nodes[i - c] == ns[i] && e.nodes[i - c..] == ns[i..] &&
            e.nodes[..i - c] == ns[c..i]
    ensures Image(ns[i..]) == Image(ns)[i..] && Image(ns[c..i]) == Image(ns)[c..i]
    ensures e.Linked() && Steady(tm, pool, others, held) && Creators(tm, pool, ns[i..]) && tm.status == b.status
    ensures Enough(others, pool.refs, Image(ns)[i..], held) && NoneCommitted(Image(ns)[i..], b.status)
  {
    hide Steady, Enough, e.Linked, CommittedFirst, Image, Fit, NoneCommitted;
    RestDoomed(Image(ns), b.status, i);
    EnoughRest(others, pool.refs, Image(ns)[c..], held, i - c);
    RestSlices(ns, c, i);
  }

  method RemoveRest(tm: Manager, pool: Pool, e: MapEntry, head: VersionNode, ghost others: seq<nat>,
                    ghost held: seq<nat>,
                    ghost ns: seq<VersionNode>, ghost c: nat, ghost i: nat, ghost b: Ledger)
      returns (ghost left: seq<nat>)
    requires Under(tm, pool, e, others, held, ns, c, b) && c <= i < |ns| && head == ns[i] &&
             CreatorsBelow(Image(ns), |b.status|)
    requires CommittedFirst(Image(ns), b.status) && b.status[Image(ns)[i].creator] == Aborted
    requires Outdated(Image(ns), b.status) == Image(ns)[..c] && Doomed(Image(ns), b.status) == Image(ns)[i..]
    modifies tm`status, tm`waits, tm.all`status, tm.all`waitcnt, tm.all`sem
    modifies tm`counts, tm`ring, tm.all`refcnt, tm.all`next, tm.all`prev, tm.transList`next, tm.transList`prev
    modifies pool`refs, pool.all`refcnt
    modifies e`versions, e`nodes, ns`next
    ensures e.Linked() && Image(e.nodes) == Image(ns)[c..i] && Steady(tm, pool, left, held)
    ensures Fit(b, tm.deps, Image(ns)) && LedgerOf(tm, pool) == AfterPass(b, tm.deps, Image(ns))
    ensures forall n | n in e.nodes :: n in ns
  {
    hide Under, Steady, Enough, e.Linked, Creators, CommittedFirst, NoneCommitted, Image, AllDropped, Outdated,
         Doomed;
    RestFacts(tm, pool, e, others, held, ns, c, i, b);
    RestLedger(tm, pool, e, others, held, ns, c, b);
    left := RemoveLaterList(tm, pool, e, head, i - c, others, held);
  }

  lemma RestLedger(tm: Manager, pool: Pool, e: MapEntry, others: seq<nat>, held: seq<nat>, ns: seq<VersionNode>,
                   c: nat, b: Ledger)
    requires Under(tm, pool, e, others, held, ns, c, b) && CreatorsBelow(Image(ns), |b.status|)
    requires Outdated(Image(ns), b.status) == Image(ns)[..c]
    ensures Fit(b, tm.deps, Image(ns)) &&
            Fit(b, tm.deps, Outdated(Image(ns), b.status)) &&
                LedgerOf(tm, pool) == Disposed(b, tm.deps, Outdated(Image(ns), b.status))
  {
  }

  /** garbage_collection: the linked list is left as the specification of the pass says. */
  method GarbageCollection(tm: Manager, pool: Pool, e: MapEntry, ghost others: seq<nat>,
                           ghost held: seq<nat>) returns (ghost left: seq<nat>)
    requires e.Linked() && Creators(tm, pool, e.nodes) && Steady(tm, pool, others, held) &&
             Enough(others, pool.refs, Image(e.nodes), held)
    requires CreatorsBelow(Image(e.nodes), |tm.status|) && CommittedFirst(Image(e.nodes), tm.status)
    modifies tm`status, tm`waits, tm.all`status, tm.all`waitcnt, tm.all`sem
    modifies tm`counts, tm`ring, tm.all`refcnt, tm.all`next, tm.all`prev, tm.transList`next, tm.transList`prev
    modifies pool`refs, pool.all`refcnt
    modifies e`versions, e`nodes, e.nodes`next, e.nodes`prev
    ensures e.Linked() && Image(e.nodes) == Collected(Image(old(e.nodes)), old(tm.status)) &&
            Steady(tm, pool, left, held)
    ensures Fit(old(LedgerOf(tm, pool)), tm.deps, Image(old(e.nodes)))
    ensures LedgerOf(tm, pool) == AfterPass(old(LedgerOf(tm, pool)), tm.deps, Image(old(e.nodes)))
    ensures forall n | n in e.nodes :: n in old(e.nodes)
  {
    hide Steady, Enough, e.Linked, Under, Creators, Fit, Scanned, AfterPass, Collected, CommittedFirst, Image,
         CreatorsBelow;
    ghost var ns, b, c, i := e.nodes, LedgerOf(tm, pool), 0, 0;
    ghost var vs := Image(ns);
    UnderStart(tm, pool, e, others, held);
    ScanStart(vs, b.status);
    left := others;
    var head := e.versions;
    var recent: VersionNode? := null;
    HeadAt(tm, pool, e, left, held, ns, c, b, i);
    while head != null && head.creator.status != Aborted
      invariant c <= i <= |ns| && Under(tm, pool, e, left, held, ns, c, b)
      invariant Scanned(vs, b.status, c, i, recent != null)
      invariant recent != null ==> c < |ns| && recent == ns[c]
      invariant head == NodeAt(ns, i)
      decreases |ns| - i
    {
      HeadAt(tm, pool, e, left, held, ns, c, b, i);
      ScanStep(vs, b.status, c, i, recent != null);
      var next := head.next;
      if head.creator.status == Committed {
        if recent != null {
          left := Retire(tm, pool, e, recent, left, held, ns, c, b);
          c := c + 1;
        }
        recent := head;
      }
      head := next;
      i := i + 1;
    }
    HeadAt(tm, pool, e, left, held, ns, c, b, i);
    ScanEnds(vs, b.status, c, i, recent != null);
    if head != null {
      left := RemoveRest(tm, pool, e, head, left, held, ns, c, i, b);
    } else {
      PassEnds(tm, pool, e, left, held, ns, c, b);
    }
  }
}
