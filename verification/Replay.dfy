/** A client of the store: it makes any sequence of calls that the machine allows, one after the other, on a store
    of its own.  So every run of the machine is a run on the memory. */
module Replays {
  import opened Types
  import opened Data
  import opened VersionLists
  import opened Protocol
  import opened Waiting
  import opened Machine
  import opened MachineInvariant
  import opened References
  import opened BlobBooks
  import opened BlobRuns
  import opened BlobPools
  import opened Transactions
  import opened Effects
  import opened Stores

  /** What the client remembers: the transactions and blobs it has created, and where each commit stands. */
  datatype Client = Client(ts: seq<Transaction>, bs: seq<Blob>, ps: seq<Phase>)

  ghost predicate Knows(st: Store, c: Client)
    reads st`s, st.tm`all, st.pool`all
  {
    c.ts == st.tm.all && c.bs == st.pool.all && c.ps == st.s.w.waits.phase
  }

  lemma KnownTransaction(st: Store, c: Client, t: Tid)
    requires st.Valid() && Knows(st, c) && t < |st.s.w.core.status|
    ensures t < |c.ts| == |c.ps| && c.ts[t].name == t && st.tm.Has(c.ts[t])
  {
    hide st.Table, st.Lists, st.BlobsShown, st.KeysShown, Reached, WorldInv, BlobInv, Possible;
    PossibleWf(st.s.w);
  }

  lemma KnownBlob(st: Store, c: Client, x: BlobId)
    requires st.Valid() && Knows(st, c) && x < |st.s.b.content|
    ensures x < |c.bs| && c.bs[x].bid == x && st.pool.Has(c.bs[x]) && c.bs[x].prefix == c.bs[x].content + [0]
    ensures c.bs[x].content == st.s.b.content[x]
  {
    hide st.Table, st.Lists, st.KeysShown, StockInv, Reached;
  }

  /** Which transaction a call is about, and what it does to the phases. */
  function Subject(call: Machine.Call): Tid {
    match call
    case CallCreate => 0
    case CallRef(t) => t
    case CallUnref(t) => t
    case CallPut(t, _, _) => t
    case CallGet(t, _) => t
    case CallCommit(t) => t
    case StepCommit(t) => t
    case CallAbort(t) => t
  }

  lemma PhasesAfter(s: Stocked, call: Machine.Call)
    requires StockInv(s) && MayMove(s, Other(call))
    ensures !call.CallPut? && !call.CallGet?
    ensures var w' := Step(s, Other(call)).w; var t := Subject(call); var ps := s.w.waits.phase;
            if call.CallCreate? then w'.waits.phase == ps + [Idle]
            else t < |s.w.core.status| == |ps| == |w'.waits.phase|
                 && w'.waits.phase == ps[t := w'.waits.phase[t]]
                 && (call.CallRef? || call.CallUnref? ==> w'.waits.phase == ps)
                 && (call.CallCommit? ==> w'.waits.phase[t] == Scan(0))
                 && (call.CallAbort? ==> w'.waits.phase[t] == Done)
  {
    hide BlobInv, Possible, WorldInv, Unref, Wf;
    PossibleWf(s.w);
  }

  method Create(st: Store, c: Client) returns (c': Client)
    requires st.Valid() && Knows(st, c)
    modifies st.Repr()
    ensures st.Valid() && MayMove(old(st.s), Other(CallCreate)) && st.s == Step(old(st.s), Other(CallCreate)) &&
            Knows(st, c')
    ensures fresh(st.Repr() - old(st.Repr()))
  {
    hide st.Valid, MayMove, Step, StockInv, Reached, Machine.TransCreate;
    st.CreateFacts();
    st.OtherFacts(CallCreate);
    StockOf(st);
    PhasesAfter(st.s, CallCreate);
    var tp := st.TransCreate();
    c' := c.(ts := c.ts + [tp], ps := c.ps + [Idle]);
  }

  lemma StockOf(st: Store)
    requires st.Valid()
    ensures StockInv(st.s)
  {
  }

  method Hold(st: Store, t: Tid, more: bool, c: Client)
    requires st.Valid() && Knows(st, c) && MayMove(st.s, Other(if more then CallRef(t) else CallUnref(t)))
    modifies st.Repr()
    ensures st.Valid() && st.s == Step(old(st.s), Other(if more then CallRef(t) else CallUnref(t))) && Knows(st, c)
    ensures st.Repr() == old(st.Repr())
  {
    hide st.Valid, MayMove, Step, StockInv, Reached, Referred, Unreferred;
    StockOf(st);
    PhasesAfter(st.s, if more then CallRef(t) else CallUnref(t));
    KnownTransaction(st, c, t);
    if more {
      var r := st.TransRef(c.ts[t]);
    } else {
      st.TransUnref(c.ts[t]);
    }
  }

  /** A step of a commit that is under way. */
  method Continue(st: Store, t: Tid, c: Client) returns (c': Client)
    requires st.Valid() && Knows(st, c) && MayMove(st.s, Other(StepCommit(t)))
    modifies st.Repr()
    ensures st.Valid() && st.s == Step(old(st.s), Other(StepCommit(t))) && Knows(st, c')
    ensures st.Repr() == old(st.Repr())
  {
    hide st.Valid, MayMove, Step, StockInv, Reached, Stepped, Consumed;
    StockOf(st);
    PhasesAfter(st.s, StepCommit(t));
    KnownTransaction(st, c, t);
    var next, r := st.CommitStep(c.ts[t], c.ps[t]);
    c' := c.(ps := c.ps[t := next]);
  }

  /** The beginning of a commit. */
  method Enter(st: Store, t: Tid, c: Client) returns (c': Client)
    requires st.Valid() && Knows(st, c) && MayMove(st.s, Other(CallCommit(t)))
    modifies st.Repr()
    ensures st.Valid() && st.s == Step(old(st.s), Other(CallCommit(t)))
    ensures Knows(st, c') && st.Repr() == old(st.Repr())
  {
    hide st.Valid, MayMove, Step, StockInv, Reached;
    StockOf(st);
    PhasesAfter(st.s, CallCommit(t));
    KnownTransaction(st, c, t);
    st.EnterCommit(c.ts[t]);
    c' := c.(ps := c.ps[t := Scan(0)]);
  }

  method GiveUp(st: Store, t: Tid, c: Client) returns (c': Client)
    requires st.Valid() && Knows(st, c) && MayMove(st.s, Other(CallAbort(t)))
    modifies st.Repr()
    ensures st.Valid() && st.s == Step(old(st.s), Other(CallAbort(t)))
    ensures Knows(st, c') && st.Repr() == old(st.Repr())
  {
    hide st.Valid, MayMove, Step, StockInv, Reached, Returned;
    StockOf(st);
    PhasesAfter(st.s, CallAbort(t));
    KnownTransaction(st, c, t);
    var r := st.TransAbort(c.ts[t]);
    c' := c.(ps := c.ps[t := Done]);
  }

  /** A call about a transaction that the client has created. */
  method Transact(st: Store, call: Machine.Call, c: Client) returns (c': Client)
    requires st.Valid() && Knows(st, c) && MayMove(st.s, Other(call)) && !call.CallCreate?
    modifies st.Repr()
    ensures st.Valid() && st.s == Step(old(st.s), Other(call)) && Knows(st, c')
    ensures st.Repr() == old(st.Repr())
  {
    hide st.Valid, st.Repr, Step, StockInv, Reached, Knows, Allowed;
    c' := c;
    match call {
      case CallRef(t) => Hold(st, t, true, c);
      case CallUnref(t) => Hold(st, t, false, c);
      case CallCommit(t) => c' := Enter(st, t, c);
      case StepCommit(t) => c' := Continue(st, t, c);
      case CallAbort(t) => c' := GiveUp(st, t, c);
      case _ =>
    }
  }

  // ----- Store operations and blobs

  lemma PhasesSame(s: Stocked, m: Move)
    requires StockInv(s) && MayMove(s, m) && !m.Other?
    ensures Step(s, m).w.waits.phase == s.w.waits.phase
    ensures m.Share? || m.Drop? ==> m.x < |s.b.content|
    ensures m.PutBlob? || m.GetBlob? ==> m.t < |s.w.core.status| && m.key < |s.b.content|
    ensures m.PutBlob? && m.v.Some? ==> m.v.value < |s.b.content|
  {
    hide BlobInv, WorldInv, Possible, BlobsAfterPut, BlobsAfterGet, BlobCreate, Wf;
    PossibleWf(s.w);
    if m.PutBlob? { AccessPhases(s.w, m.t, s.b.content[m.key], Put(m.v)); }
    if m.GetBlob? { AccessPhases(s.w, m.t, s.b.content[m.key], Get(ReadValue(s.w.core, s.b.content[m.key]))); }
  }

  lemma AccessPhases(w: World, t: Tid, k: Key, act: Action)
    requires WorldWf(w) && t < |w.core.status| && w.handles[t] > 0
    ensures StoreAccess(w, t, k, act).waits.phase == w.waits.phase
  {
    GarbageCollectWf(w, k);
    hide Wf, Unref, DropCreators, AbortCreators, RefDependencies, AddDependencies, InstallId, AdmitsId;
  }

  method MakeBlob(st: Store, bytes: Bytes, c: Client) returns (c': Client)
    requires st.Valid() && Knows(st, c)
    modifies st.Repr()
    ensures st.Valid() && MayMove(old(st.s), Make(bytes)) && st.s == Step(old(st.s), Make(bytes)) && Knows(st, c')
    ensures fresh(st.Repr() - old(st.Repr()))
  {
    hide st.Valid, MayMove, Step, StockInv, Reached, BlobBooks.BlobCreate;
    st.MakeFacts(bytes);
    var bp := st.BlobCreate(bytes);
    c' := c.(bs := c.bs + [bp]);
  }

  method Handle(st: Store, x: BlobId, more: bool, c: Client)
    requires st.Valid() && Knows(st, c) && MayMove(st.s, if more then Share(x) else Drop(x))
    modifies st.Repr()
    ensures st.Valid() && st.s == Step(old(st.s), if more then Share(x) else Drop(x)) && Knows(st, c)
    ensures st.Repr() == old(st.Repr())
  {
    hide st.Valid, MayMove, Step, StockInv, Reached, Shared, Unshared;
    StockOf(st);
    PhasesSame(st.s, if more then Share(x) else Drop(x));
    KnownBlob(st, c, x);
    if more { st.BlobRef(c.bs[x]); } else { st.BlobUnref(c.bs[x]); }
  }

  method PutKey(st: Store, tp: Transaction, key: StoredKey, value: Blob?)
    requires st.Valid() && st.tm.Has(tp) && key.Hashed() && st.pool.Has(key.blob) && st.pool.Has(value)
    requires MayMove(st.s, PutBlob(tp.name, key.blob.bid, Val(value)))
    modifies st.Repr()
    ensures st.Valid() && st.s == Step(old(st.s), PutBlob(tp.name, key.blob.bid, Val(value)))
    ensures st.tm.all == old(st.tm.all) && st.pool.all == old(st.pool.all)
    ensures fresh(st.Repr() - old(st.Repr()))
  {
    hide st.Valid, MayMove, Step, StockInv, Reached, PutDone, GetDone, st.Newest, Admitted, ReadValue, Wf;
    var r := st.StorePut(tp, key, value);
  }

  method GetKey(st: Store, tp: Transaction, key: StoredKey)
    requires st.Valid() && st.tm.Has(tp) && key.Hashed() && st.pool.Has(key.blob)
    requires MayMove(st.s, GetBlob(tp.name, key.blob.bid))
    modifies st.Repr()
    ensures st.Valid() && st.s == Step(old(st.s), GetBlob(tp.name, key.blob.bid))
    ensures st.tm.all == old(st.tm.all) && st.pool.all == old(st.pool.all)
    ensures fresh(st.Repr() - old(st.Repr()))
  {
    hide st.Valid, MayMove, Step, StockInv, Reached, PutDone, GetDone, st.Newest, Admitted, ReadValue, Wf;
    var r, valuep := st.StoreGet(tp, key);
  }

  /** A PUT, with a key made for it. */
  method PutMove(st: Store, t: Tid, key: BlobId, v: Value, c: Client)
    requires st.Valid() && Knows(st, c) && MayMove(st.s, PutBlob(t, key, v))
    modifies st.Repr()
    ensures st.Valid() && st.s == Step(old(st.s), PutBlob(t, key, v)) && Knows(st, c)
    ensures fresh(st.Repr() - old(st.Repr()))
  {
    hide st.Valid, MayMove, Step, StockInv, Reached;
    StockOf(st);
    PhasesSame(st.s, PutBlob(t, key, v));
    KnownTransaction(st, c, t);
    KnownBlob(st, c, key);
    var value: Blob? := null;
    if v.Some? {
      KnownBlob(st, c, v.value);
      value := c.bs[v.value];
    }
    var k := st.KeyCreate(c.bs[key]);
    PutKey(st, c.ts[t], k, value);
  }

  method GetMove(st: Store, t: Tid, key: BlobId, c: Client)
    requires st.Valid() && Knows(st, c) && MayMove(st.s, GetBlob(t, key))
    modifies st.Repr()
    ensures st.Valid() && st.s == Step(old(st.s), GetBlob(t, key)) && Knows(st, c)
    ensures fresh(st.Repr() - old(st.Repr()))
  {
    hide st.Valid, MayMove, Step, StockInv, Reached;
    StockOf(st);
    PhasesSame(st.s, GetBlob(t, key));
    KnownTransaction(st, c, t);
    KnownBlob(st, c, key);
    var k := st.KeyCreate(c.bs[key]);
    GetKey(st, c.ts[t], k);
  }

  method Perform(st: Store, m: Move, c: Client) returns (c': Client)
    requires st.Valid() && Knows(st, c) && MayMove(st.s, m)
    modifies st.Repr()
    ensures st.Valid() && st.s == Step(old(st.s), m) && Knows(st, c')
    ensures fresh(st.Repr() - old(st.Repr()))
  {
    hide st.Valid, st.Repr, MayMove, Step, StockInv, Reached, Knows;
    c' := c;
    match m
    case Make(bytes) => c' := MakeBlob(st, bytes, c);
    case Share(x) => Handle(st, x, true, c);
    case Drop(x) => Handle(st, x, false, c);
    case PutBlob(t, key, v) => PutMove(st, t, key, v, c);
    case GetBlob(t, key) => GetMove(st, t, key, c);
    case Other(call) =>
      if call.CallCreate? { c' := Create(st, c); } else { c' := Transact(st, call, c); }
  }

  /** Every run of the machine can be carried out on the memory, from an empty store on, and leaves the memory
      showing the state in which the run ends. */
  method Replay(ms: seq<Move>, ghost end: Stocked) returns (st: Store)
    requires MovesTo(EMPTY, ms, end)
    ensures st.Valid() && st.s == end && fresh(st) && fresh(st.Repr())
  {
    hide st.Valid, st.Repr, MayMove, Step, StockInv, Knows, MovesTo;
    st := new Store();
    var c := Client([], [], []);
    NewClient(st, c);
    ghost var repr := st.Repr();
    var i := 0;
    assert ms[0..] == ms;
    while i < |ms|
      invariant 0 <= i <= |ms| && st.Valid() && fresh(st) && Knows(st, c)
      invariant fresh(repr) && st.Repr() <= repr
      invariant MovesTo(st.s, ms[i..], end)
    {
      NextMove(st.s, ms[i..], end);
      assert ms[i..][0] == ms[i] && ms[i..][1..] == ms[i + 1..];
      ghost var before := st.Repr();
      label L:
      c := Perform(st, ms[i], c);
      ghost var grown := st.Repr() - before;
      assert fresh@L(grown);
      forall o | o in grown ensures fresh(o) {
        assert fresh@L(o);
      }
      repr := before + grown;
      i := i + 1;
    }
    LastMove(st.s, ms[i..], end);
  }

  lemma NewClient(st: Store, c: Client)
    requires st.Valid() && st.s == EMPTY && st.tm.all == [] && st.pool.all == [] && c == Client([], [], [])
    ensures Knows(st, c)
  {
  }

  lemma NextMove(s: Stocked, ms: seq<Move>, s': Stocked)
    requires MovesTo(s, ms, s') && ms != []
    ensures StockInv(s) && MayMove(s, ms[0]) && MovesTo(Step(s, ms[0]), ms[1..], s')
  {
  }

  lemma LastMove(s: Stocked, ms: seq<Move>, s': Stocked)
    requires MovesTo(s, ms, s') && ms == []
    ensures s == s'
  {
  }
}
