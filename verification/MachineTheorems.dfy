/** What holds in every state that the transaction manager and the store can get into. */
module MachineTheorems {
  import opened Types
  import opened Counting
  import opened VersionLists
  import opened Protocol
  import opened Invariant
  import opened Serializability
  import opened References
  import opened Waiting
  import opened Machine
  import opened Books
  import opened Ids
  import opened MachineInvariant
  import Recoverability

  // ----- The machine runs the protocol

  lemma {:induction false} RunsJoin(a: State, es: seq<Event>, b: State, fs: seq<Event>, c: State)
    requires Runs(a, es, b) && Runs(b, fs, c)
    ensures Runs(a, es + fs, c)
    decreases |es|
  {
    if es == [] {
      assert es + fs == fs;
    } else {
      RunsJoin(Apply(a, es[0]), es[1..], b, fs, c);
      assert (es + fs)[1..] == es[1..] + fs;
    }
  }

  lemma RunsOne(s: State, e: Event)
    requires Wf(s) && Enabled(s, e)
    ensures Runs(s, [e], Apply(s, e))
  {
    assert [e][1..] == [];
  }

  lemma IdleMayOperate(w: World, t: Tid)
    requires WorldInv(w) && t < |w.handles| && w.waits.phase[t].Idle?
    ensures w.core.status[t] != Committed
  {
    Underway(w, t);
  }

  lemma ReturnIsEvent(w: World, t: Tid, own: Status) returns (es: seq<Event>)
    requires WorldInv(w) && t < |w.handles| && w.handles[t] > 0 && own != Pending
    requires own == Committed ==> w.waits.phase[t] == Scan(|w.core.deps[t]|)
    ensures |es| <= 1 && Runs(w.core, es, Return(w, t, own).core)
  {
    if w.core.status[t] != Pending {
      es := [];
    } else if own == Committed {
      ReadyToCommit(w, t);
      es := [EvCommit(t)];
      RunsOne(w.core, EvCommit(t));
    } else {
      es := [EvAbort(t)];
      RunsOne(w.core, EvAbort(t));
    }
  }

  lemma StepIsEvent(w: World, t: Tid) returns (es: seq<Event>)
    requires WorldInv(w) && CanStep(w, t)
    ensures |es| <= 1 && Runs(w.core, es, CommitStep(w, t).core)
  {
    Underway(w, t);
    var p, ds := w.waits.phase[t], w.core.deps[t];
    hide WorldInv;
    if !p.Blocked? && p.at == |ds| {
      es := ReturnIsEvent(w, t, Committed);
    } else if !p.Blocked? && w.core.status[ds[p.at]] == Aborted {
      es := ReturnIsEvent(w, t, Aborted);
    } else {
      es := [];
    }
  }

  /** Every call takes the protocol through at most one step. */
  lemma DoIsEvent(w: World, c: Call) returns (es: seq<Event>)
    requires WorldInv(w) && Allowed(w, c)
    ensures |es| <= 1 && Runs(w.core, es, Do(w, c).core)
  {
    es := [];
    match c
    case CallCreate => es := [EvCreate]; RunsOne(w.core, EvCreate);
    case CallRef(t) =>
    case CallUnref(t) =>
    case CallPut(t, k, v) =>
      es := [EvPut(t, k, v)];
      IdleMayOperate(w, t);
      AccessKeepsWorld(w, t, k, Put(v));
      RunsOne(w.core, EvPut(t, k, v));
    case CallGet(t, k) =>
      es := [EvGet(t, k)];
      IdleMayOperate(w, t);
      AccessKeepsWorld(w, t, k, Get(ReadValue(w.core, k)));
      RunsOne(w.core, EvGet(t, k));
    case CallCommit(t) =>
    case StepCommit(t) => es := StepIsEvent(w, t);
    case CallAbort(t) => es := ReturnIsEvent(w, t, Aborted);
  }

  lemma {:induction false} RunsToIsRun(w: World, cs: seq<Call>, w': World) returns (es: seq<Event>)
    requires WorldInv(w) && RunsTo(w, cs, w')
    ensures Runs(w.core, es, w'.core)
    decreases |cs|
  {
    if cs == [] {
      es := [];
    } else {
      var first := DoIsEvent(w, cs[0]);
      DoKeeps(w, cs[0]);
      hide WorldInv;
      var rest := RunsToIsRun(Do(w, cs[0]), cs[1..], w');
      RunsJoin(w.core, first, Do(w, cs[0]).core, rest, w'.core);
      es := first + rest;
    }
  }

  /** So every theorem about reachable states of the protocol holds of the machine. */
  lemma PossibleReachable(w: World)
    requires Possible(w)
    ensures Reachable(w.core)
  {
    StartInv();
    var cs :| RunsTo(START, cs, w);
    var es := RunsToIsRun(START, cs, w);
  }

  // ----- Serializability in the order of ids

  lemma {:induction false} TransactionLogBy(log: seq<Op>, t: Tid, i: nat)
    requires i < |TransactionLog(log, t)|
    ensures TransactionLog(log, t)[i].tid == t && TransactionLog(log, t)[i] in log
  {
    var r := TransactionLog(log[..|log| - 1], t);
    if i < |r| {
      TransactionLogBy(log[..|log| - 1], t, i);
    }
  }

  lemma {:induction false} SerialLogBelow(s: State, n: nat, i: nat)
    requires n <= |s.status| && i < |SerialLog(s, n)|
    ensures SerialLog(s, n)[i].tid < n && s.status[SerialLog(s, n)[i].tid] == Committed && SerialLog(s, n)[i] in s.log
  {
    var before := SerialLog(s, n - 1);
    if i < |before| {
      SerialLogBelow(s, n - 1, i);
    } else {
      TransactionLogBy(s.log, n - 1, i - |before|);
    }
  }

  lemma {:induction false} SerialLogAscends(s: State, n: nat, i: nat, j: nat)
    requires n <= |s.status| && i <= j < |SerialLog(s, n)|
    ensures SerialLog(s, n)[i].tid <= SerialLog(s, n)[j].tid
  {
    var before := SerialLog(s, n - 1);
    SerialLogBelow(s, n, i);
    if j < |before| {
      SerialLogAscends(s, n - 1, i, j);
    } else {
      TransactionLogBy(s.log, n - 1, j - |before|);
    }
  }

  /** The serial log has the operations of every committed transaction, as issued, and nothing else. */
  lemma {:induction false} SerialLogExact(s: State, n: nat, t: Tid)
    requires n <= |s.status|
    ensures TransactionLog(SerialLog(s, n), t) ==
            if t < n && s.status[t] == Committed then TransactionLog(s.log, t) else []
  {
    if n > 0 {
      SerialLogExact(s, n - 1, t);
      if s.status[n - 1] == Committed {
        TransactionLogAppend(SerialLog(s, n - 1), TransactionLog(s.log, n - 1), t);
        TransactionLogTwice(s.log, n - 1, t);
      } else {
        assert SerialLog(s, n) == SerialLog(s, n - 1);
      }
    }
  }

  lemma {:induction false} TransactionLogAppend(a: seq<Op>, b: seq<Op>, t: Tid)
    ensures TransactionLog(a + b, t) == TransactionLog(a, t) + TransactionLog(b, t)
  {
    if b == [] {
      assert a + b == a;
    } else {
      assert (a + b)[..|a + b| - 1] == a + b[..|b| - 1];
      TransactionLogAppend(a, b[..|b| - 1], t);
    }
  }

  lemma {:induction false} TransactionLogTwice(log: seq<Op>, u: Tid, t: Tid)
    ensures TransactionLog(TransactionLog(log, u), t) == if t == u then TransactionLog(log, u) else []
  {
    if log != [] {
      var o, r := log[|log| - 1], TransactionLog(log[..|log| - 1], u);
      TransactionLogTwice(log[..|log| - 1], u, t);
      assert (r + [o])[..|r|] == r;
    }
  }

  /** Serializability, with the numeric ids as the serialization order: the serial execution visits the
      committed transactions by increasing id, no two of those that operated share an id, and every GET
      returns what it returned in the concurrent run. */
  lemma SerializableById(w: World)
    requires Possible(w)
    ensures |w.ids| == |w.core.status|
    ensures var log := SerialLog(w.core, |w.core.status|);
            && Consistent(map[], log)
            && (forall i | 0 <= i < |log| :: log[i].tid < |w.ids|)
            && (forall i, j | 0 <= i <= j < |log| && log[i].tid != log[j].tid :: w.ids[log[i].tid] < w.ids[log[j].tid])
  {
    PossibleReachable(w);
    Serializable(w.core);
    PossibleInv(w);
    var s, n := w.core, |w.core.status|;
    var log := SerialLog(s, n);
    hide Inv, WaitInv, BooksOk, Consistent, SerialLog, Reachable, Possible;
    forall i | 0 <= i < |log| ensures log[i].tid < |w.ids| {
      SerialLogBelow(s, n, i);
    }
    forall i, j | 0 <= i <= j < |log| && log[i].tid != log[j].tid ensures w.ids[log[i].tid] < w.ids[log[j].tid] {
      SerialLogAscends(s, n, i, j);
      SerialLogBelow(s, n, i);
      assert Tracked(w, log[i].tid);
    }
  }

  // ----- Ids

  /** The transaction list, newest first, is strictly descending by id, and a new transaction gets an id
      above all of it. */
  lemma IdsDescend(w: World, a: Tid, b: Tid)
    requires Possible(w) && a < b < |w.counts| && w.counts[a] > 0 && w.counts[b] > 0
    ensures |w.ids| == |w.counts|
    ensures w.ids[a] < w.ids[b] < NextId(w.ids, w.counts)
  {
    PossibleInv(w);
    assert Tracked(w, a) && Tracked(w, b);
    NextIdIsNew(w, b);
  }

  /** The id of a committed transaction that operated on the store is never handed out again, freed or not. */
  lemma CommittedIdNeverReissued(w: World, t: Tid, cs: seq<Call>, w': World, u: Tid)
    requires Possible(w) && t < |w.core.status| && w.core.status[t] == Committed && HasOps(w.core.log, t)
    requires RunsTo(w, cs, w') && t < u < |w'.ids|
    ensures t < |w'.ids| && w'.ids[t] < w'.ids[u]
  {
    PossibleInv(w);
    RunsKeepWorld(w, cs, w');
    var es := RunsToIsRun(w, cs, w');
    RunsGrow(w.core, es, w'.core);
    hide Inv, WaitInv, BooksOk;
    assert Tracked(w', t) by {
      var i :| 0 <= i < |w.core.log| && w.core.log[i].tid == t;
      assert w'.core.log[i].tid == t;
    }
  }

  lemma AccessLog(s: State, t: Tid, k: Key, act: Action)
    requires Wf(s) && t < |s.status|
    ensures s.log <= Access(s, t, k, act).log
  {
  }

  lemma {:induction false} RunsGrow(s: State, es: seq<Event>, s': State)
    requires Inv(s) && Runs(s, es, s')
    ensures s.log <= s'.log && |s.status| <= |s'.status|
    ensures forall t | 0 <= t < |s.status| && s.status[t] == Committed :: s'.status[t] == Committed
    decreases |es|
  {
    if es != [] {
      Recoverability.ApplyLater(s, es[0]);
      ApplyKeeps(s, es[0]);
      if es[0].EvPut? { AccessLog(s, es[0].t, es[0].k, Put(es[0].v)); }
      if es[0].EvGet? { AccessLog(s, es[0].t, es[0].k, Get(ReadValue(s, es[0].k))); }
      hide Inv;
      RunsGrow(Apply(s, es[0]), es[1..], s');
    }
  }

  lemma {:induction false} RunsSnoc(w: World, cs: seq<Call>, w': World, c: Call)
    requires RunsTo(w, cs, w') && WorldWf(w') && Allowed(w', c)
    ensures RunsTo(w, cs + [c], Do(w', c))
    decreases |cs|
  {
    if cs == [] {
      assert [c][1..] == [] && cs + [c] == [c];
      assert RunsTo(Do(w, c), [], Do(w, c));
    } else {
      RunsSnoc(Do(w, cs[0]), cs[1..], w', c);
      assert (cs + [c])[1..] == cs[1..] + [c];
    }
  }

  lemma PossibleDo(w: World, c: Call)
    requires Possible(w) && WorldWf(w) && Allowed(w, c)
    ensures Possible(Do(w, c)) && WorldWf(Do(w, c))
  {
    var cs :| RunsTo(START, cs, w);
    RunsSnoc(START, cs, w, c);
    PossibleInv(Do(w, c));
  }

  /** Ids are handed out without gaps. */
  ghost predicate NoGaps(ids: seq<nat>) {
    forall t, x: nat | 0 <= t < |ids| && x <= ids[t] :: x in ids
  }

  lemma NextNoGaps(ids: seq<nat>, counts: seq<nat>)
    requires |ids| == |counts| && NoGaps(ids)
    ensures NoGaps(ids + [NextId(ids, counts)])
  {
    NewestLiveInRange(counts);
    var next := NextId(ids, counts);
    forall t, x: nat | 0 <= t < |ids| + 1 && x <= (ids + [next])[t] ensures x in ids + [next] {
      if t < |ids| {
        assert x in ids;
      } else if x < next {
        assert x <= ids[NewestLive(counts).value];
        assert x in ids;
      }
    }
  }

  lemma AccessIds(w: World, t: Tid, k: Key, act: Action)
    requires WorldWf(w) && t < |w.handles| && w.handles[t] > 0
    ensures StoreAccess(w, t, k, act).ids == w.ids
  {
  }

  lemma StepIds(w: World, t: Tid)
    requires WorldWf(w) && CanStep(w, t)
    ensures CommitStep(w, t).ids == w.ids
  {
  }

  lemma DoNoGaps(w: World, c: Call)
    requires WorldInv(w) && Allowed(w, c) && NoGaps(w.ids)
    ensures NoGaps(Do(w, c).ids)
  {
    hide Inv, WaitInv, BooksOk, IdOrder, Handled;
    if c.CallCreate? { NextNoGaps(w.ids, w.counts); }
    if c.CallPut? { AccessIds(w, c.t, c.k, Put(c.v)); }
    if c.CallGet? { AccessIds(w, c.t, c.k, Get(ReadValue(w.core, c.k))); }
    if c.StepCommit? { StepIds(w, c.t); }
    hide StoreAccess, CommitStep, NoGaps, Wf, NextId;
  }

  lemma {:induction false} RunsNoGaps(w: World, cs: seq<Call>, w': World)
    requires WorldInv(w) && NoGaps(w.ids) && RunsTo(w, cs, w')
    ensures NoGaps(w'.ids)
    decreases |cs|
  {
    if cs != [] {
      DoKeeps(w, cs[0]);
      DoNoGaps(w, cs[0]);
      hide WorldInv;
      RunsNoGaps(Do(w, cs[0]), cs[1..], w');
    }
  }

  /** Ids are not always unique over a whole run: the next id is a new one exactly when nothing was created
      yet or some transaction with the greatest id handed out so far has not been freed. */
  lemma NextIdFreshExactly(w: World)
    requires Possible(w)
    ensures |w.ids| == |w.counts|
    ensures NextId(w.ids, w.counts) !in w.ids <==>
            w.ids == [] || exists t | 0 <= t < |w.counts| ::
              w.counts[t] > 0 && forall u | 0 <= u < |w.ids| :: w.ids[u] <= w.ids[t]
  {
    hide Possible, NoGaps, Inv, WaitInv, BooksOk, IdOrder, Handled;
    PossibleInv(w);
    PossibleNoGaps(w);
    NewestHasGreatest(w);
    FreshWithoutGaps(w.ids, w.counts);
  }

  lemma PossibleNoGaps(w: World)
    requires Possible(w)
    ensures NoGaps(w.ids)
  {
    StartInv();
    var cs :| RunsTo(START, cs, w);
    RunsNoGaps(START, cs, w);
  }

  lemma FreshWithoutGaps(ids: seq<nat>, counts: seq<nat>)
    requires |ids| == |counts| && NoGaps(ids)
    requires forall t | 0 <= t < |counts| && counts[t] > 0 :: ids[t] < NextId(ids, counts)
    ensures NextId(ids, counts) !in ids <==>
            ids == [] || exists t | 0 <= t < |counts| :: counts[t] > 0 && forall u | 0 <= u < |ids| :: ids[u] <= ids[t]
  {
    var next := NextId(ids, counts);
    NewestLiveInRange(counts);
    if next !in ids && ids != [] {
      forall u | 0 <= u < |ids| ensures ids[u] < next {
        assert next <= ids[u] ==> next in ids;
      }
      assert ids[0] < next;
      var t := NewestLive(counts).value;
      assert counts[t] > 0 && forall u | 0 <= u < |ids| :: ids[u] <= ids[t];
    }
  }

  lemma NewestHasGreatest(w: World)
    requires WorldInv(w)
    ensures forall t | 0 <= t < |w.counts| && w.counts[t] > 0 :: w.ids[t] < NextId(w.ids, w.counts)
  {
    forall t | 0 <= t < |w.counts| && w.counts[t] > 0 ensures w.ids[t] < NextId(w.ids, w.counts) {
      assert Tracked(w, t);
      NextIdIsNew(w, t);
    }
  }

  /** A transaction that aborts without operating is freed, and its id goes to the next one. */
  lemma IdOfFreedReissued()
    ensures exists w :: Possible(w) && w.ids == [0, 0]
  {
    assert RunsTo(START, [], START);
    var a, b, c := Do(START, CallCreate), OneAborted(), TwoCreated();
    PossibleDo(START, CallCreate);
    assert a.waits.phase == [Idle] && a.handles == [1];
    PossibleDo(a, CallAbort(0));
    OneAbortedIs();
    PossibleDo(b, CallCreate);
    TwoCreatedIs();
  }

  ghost function OneAborted(): World {
    World(State([Aborted], [[]], map[], map[], []), [0], [0], [0], Waits([Done], [0], [0]), [])
  }

  ghost function TwoCreated(): World {
    World(State([Aborted, Pending], [[], []], map[], map[], []), [0, 0], [0, 1], [0, 1],
        Waits([Done, Idle], [0, 0], [0, 0]), [])
  }

  lemma OneAbortedIs()
    ensures WorldWf(START) && WorldWf(TransCreate(START)) && Return(TransCreate(START), 0, Aborted) == OneAborted()
  {
  }

  lemma TwoCreatedIs()
    ensures WorldWf(OneAborted()) && TransCreate(OneAborted()) == TwoCreated()
  {
    assert NewestLive([0]).None?;
  }

  // ----- Operations by an aborted transaction

  /** A PUT that comes too late aborts its transaction, and a caller with another reference to it can go on: the
      next PUT, of another key, takes effect. */
  lemma AbortedMayOperate(k: Key, j: Key, v: Value)
    requires j != k
    ensures exists w ::
              && Possible(w) && WorldWf(w) && w.core.status == [Aborted, Pending]
              && Allowed(w, CallPut(0, j, v))
              && Do(w, CallPut(0, j, v)).core.log == w.core.log + [Op(0, j, Put(v), None)]
  {
    hide Possible, Do;
    StartPossible();
    TwoPendingIs();
    PossibleDo(START, CallCreate);
    PossibleDo(Do(START, CallCreate), CallCreate);
    HeldTwiceIs();
    YoungerPutIs(k);
    OlderRejectedIs(k);
    PossibleDo(TwoPending(1), CallRef(0));
    PossibleDo(TwoPending(2), CallPut(1, k, None));
    PossibleDo(YoungerPut(k), CallPut(0, k, None));
    LateGoesOn(k, j, v);
  }

  lemma StartPossible()
    ensures WorldWf(START) && Possible(START)
  {
    assert RunsTo(START, [], START);
  }

  /** Two transactions, the older one with `n` references in its caller's hands. */
  ghost function TwoPending(n: nat): World {
    World(State([Pending, Pending], [[], []], map[], map[], []), [0, 1], [n, 1], [n, 1],
        Waits([Idle, Idle], [0, 0], [0, 0]), [])
  }

  /** The younger one has put `k`. */
  ghost function YoungerPut(k: Key): World {
    TwoPending(2).(
      core := State([Pending, Pending], [[], []], map[k := [Version(1, None)]], map[k := []],
                    [Op(1, k, Put(None), None)]),
      counts := [2, 2], entries := [k])
  }

  /** The older one has come too late for `k`. */
  ghost function OlderRejected(k: Key): World {
    YoungerPut(k).(core := YoungerPut(k).core.(status := [Aborted, Pending]), counts := [1, 2], handles := [1, 1])
  }

  lemma TwoPendingIs()
    ensures WorldWf(START) && Allowed(START, CallCreate) && WorldWf(Do(START, CallCreate))
    ensures Allowed(Do(START, CallCreate), CallCreate) && Do(Do(START, CallCreate), CallCreate) == TwoPending(1)
  {
    var w := Do(START, CallCreate);
    assert w == World(State([Pending], [[]], map[], map[], []), [0], [1], [1], Waits([Idle], [0], [0]), []);
  }

  lemma HeldTwiceIs()
    ensures WorldWf(TwoPending(1)) && Allowed(TwoPending(1), CallRef(0))
    ensures Do(TwoPending(1), CallRef(0)) == TwoPending(2)
  {
  }

  lemma FirstTouchIs(k: Key)
    ensures var w := TwoPending(2);
            && WorldWf(w)
            && GarbageCollect(w, k) ==
               w.(core := w.core.(lists := map[k := []], retired := map[k := []]), entries := [k])
  {
    Recoverability.CollectNothing([], TwoPending(2).core.status);
  }

  lemma YoungerPutIs(k: Key)
    ensures WorldWf(TwoPending(2)) && Allowed(TwoPending(2), CallPut(1, k, None))
    ensures Do(TwoPending(2), CallPut(1, k, None)) == YoungerPut(k)
  {
    hide GarbageCollect;
    FirstTouchIs(k);
    var w, v := TwoPending(2), Version(1, None);
    assert InstallId([], w.ids, v) == [v];
    assert AddDependencies([], [v], 1, w.core.status) == [];
    assert RefDependencies([2, 2], [], [v], 1, w.core.status) == [2, 2];
  }

  lemma OlderRejectedIs(k: Key)
    ensures WorldWf(YoungerPut(k)) && Allowed(YoungerPut(k), CallPut(0, k, None))
    ensures Do(YoungerPut(k), CallPut(0, k, None)) == OlderRejected(k)
  {
    hide GarbageCollect;
    SecondTouchIs(k);
    var w := YoungerPut(k);
    assert Unref(w.counts, w.core.deps, 0) == [1, 2];
  }

  lemma SecondTouchIs(k: Key)
    ensures WorldWf(YoungerPut(k)) && GarbageCollect(YoungerPut(k), k) == YoungerPut(k)
  {
    Recoverability.CollectNothing([Version(1, None)], YoungerPut(k).core.status);
  }

  lemma LateGoesOn(k: Key, j: Key, v: Value)
    requires j != k
    ensures var w := OlderRejected(k);
            && WorldWf(w) && Allowed(w, CallPut(0, j, v))
            && Do(w, CallPut(0, j, v)).core.log == w.core.log + [Op(0, j, Put(v), None)]
  {
  }

  // ----- Reference counts

  /** How many live transactions have a dependency node for `d`. */
  function DependencyNodes(w: World, d: Tid): nat
    requires |w.counts| == |w.core.deps|
  {
    Sum(DepHolders(w.counts, w.core.deps, d))
  }

  /** Conservation: every reference count is the number of versions that name the transaction, plus the
      dependency nodes that point to it, plus the references that callers hold. */
  lemma ReferencesConserved(w: World, t: Tid)
    requires Possible(w) && t < |w.counts|
    ensures |w.counts| == |w.core.deps| == |w.handles|
    ensures w.counts[t] == VersionRefs(w.core.lists, w.entries, t) + DependencyNodes(w, t) + w.handles[t]
  {
    PossibleInv(w);
    hide Inv, WaitInv, IdOrder;
  }

  /** No version names a freed transaction and no dependency node of a live transaction points to one. */
  lemma NothingDangles(w: World, k: Key, i: nat, t: Tid, d: Tid)
    requires Possible(w)
    ensures k in w.core.lists && i < |w.core.lists[k]| ==>
              w.core.lists[k][i].creator < |w.counts| && w.counts[w.core.lists[k][i].creator] > 0
    ensures t < |w.counts| == |w.core.deps| && w.counts[t] > 0 && d in w.core.deps[t] ==>
              d < |w.counts| && w.counts[d] > 0
  {
    PossibleInv(w);
    if k in w.core.lists && i < |w.core.lists[k]| {
      ListLive(w, k);
    }
    if t < |w.counts| && w.counts[t] > 0 && d in w.core.deps[t] {
      NodeIsLive(w, t, d);
    }
  }

  lemma NodeIsLive(w: World, t: Tid, d: Tid)
    requires WorldInv(w) && t < |w.counts| && w.counts[t] > 0 && d in w.core.deps[t]
    ensures d < |w.counts| && w.counts[d] > 0
  {
    assert d < t;
    hide Inv, WaitInv, IdOrder, EntriesOk;
    SumAtLeast(DepHolders(w.counts, w.core.deps, d), t);
  }

  // ----- Wake-ups

  /** No wake-up is lost: registrations plus unconsumed posts are the threads blocked on a transaction, and
      once it is decided nothing is registered any more. */
  lemma WakeUpsMatched(w: World, d: Tid)
    requires Possible(w) && d < |w.core.status|
    ensures |w.waits.waitcnt| == |w.waits.sem| == |w.waits.phase| == |w.core.deps| == |w.core.status|
    ensures w.waits.waitcnt[d] + w.waits.sem[d] == Sum(Waiters(w.waits.phase, w.core.deps, d))
    ensures w.core.status[d] != Pending ==> w.waits.waitcnt[d] == 0
    ensures w.core.status[d] == Pending ==> w.waits.sem[d] == 0
  {
    PossibleInv(w);
    hide Inv, BooksOk, IdOrder;
  }

  /** A thread blocks only on an older transaction in its dependency list, and once that is decided it can
      always go on. */
  lemma WokenOnDecision(w: World, t: Tid)
    requires WorldInv(w) && t < |w.core.status| && w.waits.phase[t].Blocked?
    ensures w.waits.phase[t].at < |w.core.deps[t]| && w.core.deps[t][w.waits.phase[t].at] < t
    ensures w.core.status[w.core.deps[t][w.waits.phase[t].at]] != Pending ==> CanStep(w, t)
  {
    Underway(w, t);
    hide Inv, BooksOk, IdOrder;
    var i := w.waits.phase[t].at;
    if w.core.status[w.core.deps[t][i]] != Pending {
      BlockedCanResume(w.core.status, w.core.deps, w.waits, t, i);
    }
  }

  /** Whoever was aborted while its thread was waiting still comes back aborted. */
  lemma AbortedStaysAborted(w: World, t: Tid, cs: seq<Call>, w': World)
    requires Possible(w) && t < |w.core.status| && w.core.status[t] == Aborted && RunsTo(w, cs, w')
    ensures t < |w'.core.status| && w'.core.status[t] == Aborted
  {
    PossibleInv(w);
    var es := RunsToIsRun(w, cs, w');
    Recoverability.RunsLater(w.core, es, w'.core);
  }
}
