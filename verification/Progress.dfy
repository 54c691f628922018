/** Commits never deadlock: once every pending transaction has asked to commit, somebody can always go on,
    and everybody is decided after finitely many steps. */
module Progress {
  import opened Types
  import opened Counting
  import opened Protocol
  import opened Waiting
  import opened Machine
  import opened MachineInvariant
  import opened MachineTheorems

  predicate Active(p: Phase) {
    !(p.Idle? || p.Done?)
  }

  /** Every pending transaction is inside trans_commit. */
  ghost predicate AllAsked(w: World)
    requires WorldWf(w)
  {
    forall t | 0 <= t < |w.core.status| && w.core.status[t] == Pending :: Active(w.waits.phase[t])
  }

  /** Everybody is decided and no thread is inside trans_commit. */
  ghost predicate AllDone(w: World)
    requires WorldWf(w)
  {
    forall t | 0 <= t < |w.core.status| :: w.core.status[t] != Pending && !Active(w.waits.phase[t])
  }

  /** The steps that the thread of a transaction has left at most. */
  function StepsLeft(p: Phase, ds: seq<Tid>): nat {
    match p
    case Idle => 0
    case Done => 0
    case Scan(i) => if i <= |ds| then 3 * (|ds| - i) + 2 else 0
    case Blocked(i) => if i < |ds| then 3 * (|ds| - i) + 1 else 0
    case Woken(i) => if i < |ds| then 3 * (|ds| - i) else 0
  }

  function PerThread(phase: seq<Phase>, deps: seq<seq<Tid>>): seq<nat>
    requires |phase| == |deps|
  {
    seq(|phase|, t requires 0 <= t < |phase| => StepsLeft(phase[t], deps[t]))
  }

  function Measure(w: World): nat
    requires WorldWf(w)
  {
    Sum(PerThread(w.waits.phase, w.core.deps))
  }

  // ----- Every step uses up some of the measure

  function NextPhase(p: Phase, ds: seq<Tid>, st: seq<Status>): Phase
    requires match p
             case Idle => false
             case Done => false
             case Scan(i) => i <= |ds|
             case Blocked(i) => i < |ds|
             case Woken(i) => i < |ds|
    requires forall i | 0 <= i < |ds| :: ds[i] < |st|
  {
    match p
    case Blocked(i) => Woken(i)
    case Scan(i) =>
      if i == |ds| || st[ds[i]] == Aborted then Done else if st[ds[i]] == Pending then Blocked(i) else Scan(i + 1)
    case Woken(i) =>
      if st[ds[i]] == Aborted then Done else if st[ds[i]] == Pending then Scan(i) else Scan(i + 1)
  }

  lemma StepPhase(w: World, t: Tid)
    requires WorldWf(w) && CanStep(w, t)
    requires forall i | 0 <= i < |w.core.deps[t]| :: w.core.deps[t][i] < t
    ensures CommitStep(w, t).waits.phase ==
            w.waits.phase[t := NextPhase(w.waits.phase[t], w.core.deps[t], w.core.status)]
    ensures CommitStep(w, t).core.deps == w.core.deps
  {
    hide Wf;
  }

  lemma StepMovesOne(w: World, t: Tid)
    requires WorldInv(w) && CanStep(w, t)
    ensures var w' := CommitStep(w, t);
            && w'.core.deps == w.core.deps && |w'.waits.phase| == |w.waits.phase|
            && (forall u | 0 <= u < |w.waits.phase| && u != t :: w'.waits.phase[u] == w.waits.phase[u])
            && StepsLeft(w'.waits.phase[t], w.core.deps[t]) < StepsLeft(w.waits.phase[t], w.core.deps[t])
  {
    hide WorldInv, Wf, CommitStep;
    Underway(w, t);
    StepPhase(w, t);
  }

  lemma StepDecreases(w: World, t: Tid)
    requires WorldInv(w) && CanStep(w, t)
    ensures WorldInv(CommitStep(w, t)) && Measure(CommitStep(w, t)) < Measure(w)
  {
    CommitStepKeepsWorld(w, t);
    StepMovesOne(w, t);
    var w' := CommitStep(w, t);
    hide WorldInv, CommitStep, StepsLeft, Wf;
    SumChange(PerThread(w.waits.phase, w.core.deps), PerThread(w'.waits.phase, w'.core.deps), t);
  }

  lemma StepStatus(w: World, t: Tid)
    requires WorldInv(w) && CanStep(w, t)
    ensures var w' := CommitStep(w, t);
            && |w'.core.status| == |w.core.status|
            && (forall u | 0 <= u < |w.core.status| && u != t :: w'.core.status[u] == w.core.status[u])
            && (w'.core.status[t] == w.core.status[t] || (w.core.status[t] == Pending && w'.waits.phase[t].Done?))
            && (w'.waits.phase[t].Done? ==> w'.core.status[t] != Pending)
            && (Active(w'.waits.phase[t]) || w'.waits.phase[t].Done?)
            && (w'.core.status[t] == Aborted && w.core.status[t] == Pending ==>
                  exists d | d in w.core.deps[t] :: d < t && w.core.status[d] == Aborted)
  {
    Underway(w, t);
    hide WorldInv, WorldWf;
    var p, ds := w.waits.phase[t], w.core.deps[t];
    if !p.Blocked? && p.at < |ds| && w.core.status[ds[p.at]] == Aborted {
      assert ds[p.at] in ds;
    }
  }

  lemma StepKeepsAsked(w: World, t: Tid)
    requires WorldInv(w) && CanStep(w, t) && AllAsked(w)
    ensures WorldInv(CommitStep(w, t)) && AllAsked(CommitStep(w, t))
  {
    CommitStepKeepsWorld(w, t);
    StepMovesOne(w, t);
    StepStatus(w, t);
    hide WorldInv, CommitStep, StepsLeft;
  }

  // ----- Somebody can always go on

  /** Follow the waits-for edges down from a blocked thread: they lead to older transactions, so they end at
      a thread that can take a step. */
  lemma {:induction false} FindStep(w: World, t: Tid) returns (u: Tid)
    requires WorldInv(w) && AllAsked(w) && t < |w.core.status| && Active(w.waits.phase[t])
    ensures CanStep(w, u)
    decreases t
  {
    Underway(w, t);
    var p, ds := w.waits.phase[t], w.core.deps[t];
    assert w.handles[t] > 0;
    if !p.Blocked? {
      u := t;
    } else if w.core.status[ds[p.at]] != Pending {
      WokenOnDecision(w, t);
      u := t;
    } else {
      assert Active(w.waits.phase[ds[p.at]]);
      u := FindStep(w, ds[p.at]);
    }
  }

  /** When nobody can go on, everybody is decided and no thread is left inside trans_commit. */
  lemma StuckMeansDone(w: World)
    requires WorldInv(w) && AllAsked(w) && forall u: Tid :: !CanStep(w, u)
    ensures AllDone(w)
  {
    forall t | 0 <= t < |w.core.status| ensures w.core.status[t] != Pending && !Active(w.waits.phase[t]) {
      if Active(w.waits.phase[t]) {
        var u := FindStep(w, t);
      }
    }
  }

  // ----- Finitely many steps

  ghost predicate CommitStepsOnly(cs: seq<Call>) {
    forall i | 0 <= i < |cs| :: cs[i].StepCommit?
  }

  /** However the threads are scheduled, they take no more steps than the measure says. */
  lemma {:induction false} StepsBounded(w: World, cs: seq<Call>, w': World)
    requires WorldInv(w) && CommitStepsOnly(cs) && RunsTo(w, cs, w')
    ensures WorldInv(w') && |cs| + Measure(w') <= Measure(w)
    decreases |cs|
  {
    if cs != [] {
      StepDecreases(w, cs[0].t);
      assert forall i | 0 <= i < |cs[1..]| :: cs[1..][i] == cs[i + 1];
      hide WorldInv, Measure, CommitStep;
      StepsBounded(Do(w, cs[0]), cs[1..], w');
    }
  }

  /** Deadlock freedom and termination: from any state in which every pending transaction has asked to
      commit, the commit threads can run until everybody is decided. */
  lemma {:induction false} EverybodyDecided(w: World) returns (cs: seq<Call>, w': World)
    requires WorldInv(w) && AllAsked(w)
    ensures CommitStepsOnly(cs) && RunsTo(w, cs, w') && WorldInv(w')
    ensures AllDone(w')
    decreases Measure(w)
  {
    assert WorldWf(w);
    hide WorldInv, Wf, CommitStep, Measure;
    if t :| 0 <= t < |w.core.status| && Active(w.waits.phase[t]) {
      var u := FindStep(w, t);
      StepDecreases(w, u);
      StepKeepsAsked(w, u);
      hide WorldInv;
      var rest, final := EverybodyDecided(CommitStep(w, u));
      StepFirst(w, u, rest, final);
      cs, w' := [StepCommit(u)] + rest, final;
    } else {
      cs, w' := [], w;
    }
  }

  lemma {:induction false} StepsKeepAsked(w: World, cs: seq<Call>, w': World)
    requires WorldInv(w) && AllAsked(w) && CommitStepsOnly(cs) && RunsTo(w, cs, w')
    ensures WorldInv(w') && AllAsked(w')
    decreases |cs|
  {
    if cs != [] {
      StepKeepsAsked(w, cs[0].t);
      assert forall i | 0 <= i < |cs[1..]| :: cs[1..][i] == cs[i + 1];
      hide WorldInv, AllAsked, CommitStep;
      StepsKeepAsked(Do(w, cs[0]), cs[1..], w');
    }
  }

  /** Under any schedule at all: whatever steps the commit threads take, there are no more of them than the
      measure says, and as long as somebody is undecided or inside trans_commit another step can be taken.  So
      every schedule that is not cut short ends with everybody decided. */
  lemma EveryScheduleDecides(w: World, cs: seq<Call>, w': World)
    requires WorldInv(w) && AllAsked(w) && CommitStepsOnly(cs) && RunsTo(w, cs, w')
    ensures WorldInv(w') && |cs| + Measure(w') <= Measure(w)
    ensures AllDone(w') <==> forall u: Tid :: !CanStep(w', u)
  {
    StepsBounded(w, cs, w');
    StepsKeepAsked(w, cs, w');
    if forall u: Tid :: !CanStep(w', u) { StuckMeansDone(w'); }
    hide WorldInv, Measure, RunsTo;
  }

  lemma StepFirst(w: World, u: Tid, rest: seq<Call>, w': World)
    requires WorldWf(w) && CanStep(w, u) && CommitStepsOnly(rest) && RunsTo(CommitStep(w, u), rest, w')
    ensures CommitStepsOnly([StepCommit(u)] + rest) && RunsTo(w, [StepCommit(u)] + rest, w')
  {
    assert ([StepCommit(u)] + rest)[1..] == rest;
    hide Wf, CommitStep;
  }

  /** A commit fails only for a cause: a pending transaction that the commit steps abort has a dependency
      that has aborted. */
  lemma {:induction false} AbortedForCause(w: World, cs: seq<Call>, w': World, t: Tid)
    requires WorldInv(w) && CommitStepsOnly(cs) && RunsTo(w, cs, w')
    requires t < |w.core.status| && w.core.status[t] == Pending
    requires t < |w'.core.status| && w'.core.status[t] == Aborted
    ensures exists d | d in w.core.deps[t] :: d < |w'.core.status| && w'.core.status[d] == Aborted
    decreases |cs|
  {
    hide CommitStep, StepsLeft, Wf, CanStep;
    if cs != [] {
      var u := cs[0].t;
      var next := CommitStep(w, u);
      CommitStepKeepsWorld(w, u);
      StepStatus(w, u);
      StepMovesOne(w, u);
      assert forall i | 0 <= i < |cs[1..]| :: cs[1..][i] == cs[i + 1];
      StepsKeepAborted(next, cs[1..], w');
      hide WorldInv;
      if next.core.status[t] == Pending {
        AbortedForCause(next, cs[1..], w', t);
      } else {
        assert next.core.status[t] == Aborted;
        var d :| d in w.core.deps[t] && d < t && w.core.status[d] == Aborted;
        assert next.core.status[d] == Aborted;
      }
    }
  }

  lemma {:induction false} StepsKeepAborted(w: World, cs: seq<Call>, w': World)
    requires WorldInv(w) && CommitStepsOnly(cs) && RunsTo(w, cs, w')
    ensures |w'.core.status| == |w.core.status|
    ensures forall t | 0 <= t < |w.core.status| && w.core.status[t] != Pending :: w'.core.status[t] == w.core.status[t]
    decreases |cs|
  {
    if cs != [] {
      CommitStepKeepsWorld(w, cs[0].t);
      StepStatus(w, cs[0].t);
      assert forall i | 0 <= i < |cs[1..]| :: cs[1..][i] == cs[i + 1];
      hide WorldInv, CommitStep;
      StepsKeepAborted(Do(w, cs[0]), cs[1..], w');
    }
  }
}
