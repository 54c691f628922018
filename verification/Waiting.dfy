/** Commit as a client thread runs it: it walks the dependency list, registers with each pending dependency
    and blocks on that transaction's semaphore until the decision wakes it. */
module Waiting {
  import opened Types
  import opened Counting
  import opened VersionLists
  import opened Protocol

  /** Where the thread of a transaction is: no commit asked for yet, about to look at dependency `at`,
      blocked on its semaphore, just woken from it, or back from commit or abort. */
  datatype Phase = Idle | Scan(at: nat) | Blocked(at: nat) | Woken(at: nat) | Done

  datatype Waits = Waits(phase: seq<Phase>, waitcnt: seq<nat>, sem: seq<nat>)

  predicate BlockedOn(phase: Phase, ds: seq<Tid>, d: Tid) {
    phase.Blocked? && phase.at < |ds| && ds[phase.at] == d
  }

  /** One unit for every thread blocked on `d`. */
  function Waiters(phase: seq<Phase>, deps: seq<seq<Tid>>, d: Tid): seq<nat>
    requires |phase| == |deps|
  {
    seq(|phase|, t requires 0 <= t < |phase| => if BlockedOn(phase[t], deps[t], d) then 1 else 0)
  }

  // ----- What the steps do

  /** The decider posts once for every registered waiter. */
  function Wake(w: Waits, d: Tid): Waits
    requires d < |w.waitcnt| == |w.sem|
  {
    w.(sem := w.sem[d := w.sem[d] + w.waitcnt[d]], waitcnt := w.waitcnt[d := 0])
  }

  /** Aborting the creators of `vs` wakes the waiters of those that were still pending. */
  function WakeCreators(w: Waits, st: seq<Status>, vs: seq<Version>): (r: Waits)
    requires CreatorsBelow(vs, |st|) && |w.phase| == |w.waitcnt| == |w.sem| == |st|
    ensures r.phase == w.phase && |r.waitcnt| == |r.sem| == |st|
    decreases |vs|
  {
    if vs == [] then w
    else
      var c := vs[0].creator;
      WakeCreators(if st[c] == Pending then Wake(w, c) else w, st[c := Aborted], vs[1..])
  }

  function Register(w: Waits, t: Tid, i: nat, d: Tid): Waits
    requires t < |w.phase| && d < |w.waitcnt|
  {
    w.(waitcnt := w.waitcnt[d := w.waitcnt[d] + 1], phase := w.phase[t := Blocked(i)])
  }

  function Resume(w: Waits, t: Tid, i: nat, d: Tid): Waits
    requires t < |w.phase| && d < |w.sem| && w.sem[d] > 0
  {
    w.(sem := w.sem[d := w.sem[d] - 1], phase := w.phase[t := Woken(i)])
  }

  function Goto(w: Waits, t: Tid, p: Phase): Waits
    requires t < |w.phase|
  {
    w.(phase := w.phase[t := p])
  }

  function Enter(w: Waits): Waits {
    Waits(w.phase + [Idle], w.waitcnt + [0], w.sem + [0])
  }

  // ----- The invariant

  /** No wake-up is lost and none is invented: registrations and unconsumed posts together match the
      threads blocked on the transaction. */
  ghost predicate Matched(deps: seq<seq<Tid>>, w: Waits)
    requires |w.phase| == |w.waitcnt| == |w.sem| == |deps|
  {
    forall d | 0 <= d < |deps| :: w.waitcnt[d] + w.sem[d] == Sum(Waiters(w.phase, deps, d))
  }

  /** Posts exist only for decided transactions, registrations only for pending ones. */
  ghost predicate Posted(st: seq<Status>, w: Waits)
    requires |w.waitcnt| == |w.sem| == |st|
  {
    forall d | 0 <= d < |st| :: if st[d] == Pending then w.sem[d] == 0 else w.waitcnt[d] == 0
  }

  ghost predicate AllCommittedDeps(st: seq<Status>, ds: seq<Tid>, n: nat)
    requires n <= |ds|
  {
    forall i | 0 <= i < n :: ds[i] < |st| && st[ds[i]] == Committed
  }

  ghost predicate PhaseOk(st: seq<Status>, ds: seq<Tid>, own: Status, p: Phase) {
    match p
    case Idle => own != Committed
    case Scan(i) => own != Committed && i <= |ds| && AllCommittedDeps(st, ds, i)
    case Blocked(i) => own != Committed && i < |ds| && AllCommittedDeps(st, ds, i)
    case Woken(i) => own != Committed && i < |ds| && AllCommittedDeps(st, ds, i) && ds[i] < |st| && st[ds[i]] != Pending
    case Done => own != Pending
  }

  ghost predicate WaitInv(st: seq<Status>, deps: seq<seq<Tid>>, w: Waits) {
    && |w.phase| == |w.waitcnt| == |w.sem| == |deps| == |st|
    && DepsBelow(deps)
    && Matched(deps, w)
    && Posted(st, w)
    && forall t | 0 <= t < |st| :: PhaseOk(st, deps[t], st[t], w.phase[t])
  }

  // ----- Preservation

  lemma WaitersSame(phase: seq<Phase>, phase': seq<Phase>, deps: seq<seq<Tid>>, t: Tid, d: Tid)
    requires t < |phase| == |phase'| == |deps| && phase' == phase[t := phase'[t]]
    requires BlockedOn(phase'[t], deps[t], d) == BlockedOn(phase[t], deps[t], d)
    ensures Waiters(phase', deps, d) == Waiters(phase, deps, d)
  {
  }

  lemma GotoMatched(deps: seq<seq<Tid>>, w: Waits, t: Tid, p: Phase)
    requires |w.phase| == |w.waitcnt| == |w.sem| == |deps| && Matched(deps, w)
    requires t < |deps| && !p.Blocked? && !w.phase[t].Blocked?
    ensures Matched(deps, Goto(w, t, p))
  {
    forall d | 0 <= d < |deps| ensures w.waitcnt[d] + w.sem[d] == Sum(Waiters(w.phase[t := p], deps, d)) {
      WaitersSame(w.phase, w.phase[t := p], deps, t, d);
    }
  }

  lemma RegisterMatched(deps: seq<seq<Tid>>, w: Waits, t: Tid, i: nat)
    requires |w.phase| == |w.waitcnt| == |w.sem| == |deps| && Matched(deps, w)
    requires t < |deps| && i < |deps[t]| && deps[t][i] < |deps| && !w.phase[t].Blocked?
    ensures Matched(deps, Register(w, t, i, deps[t][i]))
  {
    var w' := Register(w, t, i, deps[t][i]);
    forall d | 0 <= d < |deps| ensures w'.waitcnt[d] + w'.sem[d] == Sum(Waiters(w'.phase, deps, d)) {
      SumChange(Waiters(w.phase, deps, d), Waiters(w'.phase, deps, d), t);
    }
  }

  lemma ResumeMatched(deps: seq<seq<Tid>>, w: Waits, t: Tid, i: nat)
    requires |w.phase| == |w.waitcnt| == |w.sem| == |deps| && Matched(deps, w)
    requires t < |deps| && i < |deps[t]| && deps[t][i] < |deps| && w.phase[t] == Blocked(i) && w.sem[deps[t][i]] > 0
    ensures Matched(deps, Resume(w, t, i, deps[t][i]))
  {
    var w' := Resume(w, t, i, deps[t][i]);
    forall d | 0 <= d < |deps| ensures w'.waitcnt[d] + w'.sem[d] == Sum(Waiters(w'.phase, deps, d)) {
      SumChange(Waiters(w.phase, deps, d), Waiters(w'.phase, deps, d), t);
    }
  }

  lemma EnterMatched(deps: seq<seq<Tid>>, w: Waits)
    requires |w.phase| == |w.waitcnt| == |w.sem| == |deps| && Matched(deps, w)
    requires DepsBelow(deps) && forall t | 0 <= t < |deps| && w.phase[t].Blocked? :: w.phase[t].at < |deps[t]|
    ensures Matched(deps + [[]], Enter(w))
  {
    var w' := Enter(w);
    forall d | 0 <= d < |deps| + 1 ensures w'.waitcnt[d] + w'.sem[d] == Sum(Waiters(w'.phase, deps + [[]], d)) {
      assert Waiters(w'.phase, deps + [[]], d) == Waiters(w.phase, deps, d) + [0];
      SumSnoc(Waiters(w.phase, deps, d), 0);
      if d == |deps| {
        forall t | 0 <= t < |deps| ensures Waiters(w.phase, deps, d)[t] == 0 {
          assert forall i | 0 <= i < |deps[t]| :: deps[t][i] in deps[t];
        }
        SumZero(Waiters(w.phase, deps, d));
      }
    }
  }

  /** Dependencies grow only while their owner is idle. */
  lemma GrowMatched(deps: seq<seq<Tid>>, w: Waits, t: Tid, ds: seq<Tid>)
    requires |w.phase| == |w.waitcnt| == |w.sem| == |deps| && Matched(deps, w)
    requires t < |deps| && w.phase[t].Idle?
    ensures Matched(deps[t := ds], w)
  {
    forall d | 0 <= d < |deps| ensures w.waitcnt[d] + w.sem[d] == Sum(Waiters(w.phase, deps[t := ds], d)) {
      assert Waiters(w.phase, deps[t := ds], d) == Waiters(w.phase, deps, d);
    }
  }

  lemma PhaseLater(st: seq<Status>, st': seq<Status>, ds: seq<Tid>, own: Status, own': Status, p: Phase)
    requires |st'| == |st| && forall t | 0 <= t < |st| && st[t] != Pending :: st'[t] == st[t]
    requires PhaseOk(st, ds, own, p) && (own' == own || own' == Aborted)
    ensures PhaseOk(st', ds, own', p)
  {
  }

  lemma WakeBooks(st: seq<Status>, deps: seq<seq<Tid>>, w: Waits, t: Tid, own: Status)
    requires |w.phase| == |w.waitcnt| == |w.sem| == |deps| == |st| && Matched(deps, w) && Posted(st, w)
    requires t < |st| && st[t] == Pending && own != Pending
    ensures Matched(deps, Wake(w, t)) && Posted(st[t := own], Wake(w, t))
  {
  }

  /** Aborting a pending transaction, from whatever thread, and posting for its waiters. */
  lemma AbortKeepsWaits(st: seq<Status>, deps: seq<seq<Tid>>, w: Waits, t: Tid)
    requires WaitInv(st, deps, w) && t < |st| && st[t] == Pending
    ensures WaitInv(st[t := Aborted], deps, Wake(w, t))
  {
    WakeBooks(st, deps, w, t, Aborted);
    var st' := st[t := Aborted];
    hide Matched, Posted;
    forall u | 0 <= u < |st| ensures PhaseOk(st', deps[u], st'[u], w.phase[u]) {
      PhaseLater(st, st', deps[u], st[u], st'[u], w.phase[u]);
    }
  }

  /** The thread of a pending transaction decides it, posts for its waiters and returns. */
  lemma FinishKeeps(st: seq<Status>, deps: seq<seq<Tid>>, w: Waits, t: Tid, own: Status)
    requires WaitInv(st, deps, w) && t < |st| && st[t] == Pending && own != Pending && !w.phase[t].Blocked?
    ensures WaitInv(st[t := own], deps, Goto(Wake(w, t), t, Done))
  {
    WakeBooks(st, deps, w, t, own);
    GotoMatched(deps, Wake(w, t), t, Done);
    var st', w' := st[t := own], Goto(Wake(w, t), t, Done);
    hide Matched, Posted;
    forall u | 0 <= u < |st| ensures PhaseOk(st', deps[u], st'[u], w'.phase[u]) {
      if u != t { PhaseLater(st, st', deps[u], st[u], st'[u], w.phase[u]); }
    }
  }

  lemma {:induction false} WakeCreatorsKeeps(st: seq<Status>, deps: seq<seq<Tid>>, w: Waits, vs: seq<Version>)
    requires WaitInv(st, deps, w) && CreatorsBelow(vs, |st|)
    requires forall i | 0 <= i < |vs| :: st[vs[i].creator] != Committed
    ensures WaitInv(AbortCreators(vs, st), deps, WakeCreators(w, st, vs))
    decreases |vs|
  {
    if vs != [] {
      var c := vs[0].creator;
      if st[c] == Pending {
        assert PhaseOk(st, deps[c], st[c], w.phase[c]);
        AbortKeepsWaits(st, deps, w, c);
        WakeCreatorsKeeps(st[c := Aborted], deps, Wake(w, c), vs[1..]);
      } else {
        assert st[c := Aborted] == st;
        WakeCreatorsKeeps(st, deps, w, vs[1..]);
      }
    }
  }

  /** A new transaction, idle, with nothing registered. */
  lemma EnterKeeps(st: seq<Status>, deps: seq<seq<Tid>>, w: Waits)
    requires WaitInv(st, deps, w)
    ensures WaitInv(st + [Pending], deps + [[]], Enter(w))
  {
    assert forall t | 0 <= t < |deps| && w.phase[t].Blocked? :: PhaseOk(st, deps[t], st[t], w.phase[t]);
    EnterMatched(deps, w);
    var st', deps', w' := st + [Pending], deps + [[]], Enter(w);
    hide Matched;
    forall t | 0 <= t < |st'| ensures PhaseOk(st', deps'[t], st'[t], w'.phase[t]) {
      if t < |st| { PhaseWider(st, st', deps[t], st[t], w.phase[t]); }
    }
  }

  lemma PhaseWider(st: seq<Status>, st': seq<Status>, ds: seq<Tid>, own: Status, p: Phase)
    requires PhaseOk(st, ds, own, p) && st <= st'
    ensures PhaseOk(st', ds, own, p)
  {
  }

  lemma GrowKeeps(st: seq<Status>, deps: seq<seq<Tid>>, w: Waits, t: Tid, ds: seq<Tid>)
    requires WaitInv(st, deps, w) && t < |st| && w.phase[t].Idle? && DepsBelow(deps[t := ds])
    ensures WaitInv(st, deps[t := ds], w)
  {
    GrowMatched(deps, w, t, ds);
    assert forall u | 0 <= u < |st| :: PhaseOk(st, deps[u], st[u], w.phase[u]);
    hide Matched, Posted;
  }

  /** A thread moves on without blocking. */
  lemma GotoKeeps(st: seq<Status>, deps: seq<seq<Tid>>, w: Waits, t: Tid, p: Phase)
    requires WaitInv(st, deps, w) && t < |st| && !w.phase[t].Blocked? && !p.Blocked?
    requires PhaseOk(st, deps[t], st[t], p)
    ensures WaitInv(st, deps, Goto(w, t, p))
  {
    GotoMatched(deps, w, t, p);
  }

  lemma RegisterKeeps(st: seq<Status>, deps: seq<seq<Tid>>, w: Waits, t: Tid, i: nat)
    requires WaitInv(st, deps, w) && t < |st| && w.phase[t] == Scan(i) && i < |deps[t]|
    requires deps[t][i] < t && st[deps[t][i]] == Pending
    ensures WaitInv(st, deps, Register(w, t, i, deps[t][i]))
  {
    RegisterMatched(deps, w, t, i);
    assert PhaseOk(st, deps[t], st[t], w.phase[t]);
  }

  lemma ResumeKeeps(st: seq<Status>, deps: seq<seq<Tid>>, w: Waits, t: Tid, i: nat)
    requires WaitInv(st, deps, w) && t < |st| && w.phase[t] == Blocked(i) && i < |deps[t]|
    requires deps[t][i] < t && w.sem[deps[t][i]] > 0
    ensures WaitInv(st, deps, Resume(w, t, i, deps[t][i]))
  {
    ResumeMatched(deps, w, t, i);
    assert PhaseOk(st, deps[t], st[t], w.phase[t]);
  }

  /** Once a transaction is decided nobody is registered with it any more, and every thread still blocked
      on it finds a post to consume. */
  lemma BlockedCanResume(st: seq<Status>, deps: seq<seq<Tid>>, w: Waits, t: Tid, i: nat)
    requires WaitInv(st, deps, w) && t < |st| && w.phase[t] == Blocked(i) && i < |deps[t]|
    requires deps[t][i] < |st| && st[deps[t][i]] != Pending
    ensures w.waitcnt[deps[t][i]] == 0 && w.sem[deps[t][i]] > 0
  {
    SumAtLeast(Waiters(w.phase, deps, deps[t][i]), t);
  }
}
