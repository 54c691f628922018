/** The multi-version timestamp-ordering protocol as a step machine: transactions with a status and a
    dependency list, and one version list per key. */
module Protocol {
  import opened Types
  import opened VersionLists

  datatype Action = Put(value: Value) | Get(value: Value)

  /** One successful store operation: who did it, on which key, what it wrote or returned, and whose
      version was the last one in the list just before (for a GET, whose value it read). */
  datatype Op = Op(tid: Tid, key: Key, act: Action, from: Option<Tid>)

  /** `log` and `retired` are history: the operations in the order in which they took effect, and per
      key the superseded committed versions that collection has removed. */
  datatype State = State(
    status: seq<Status>,
    deps: seq<seq<Tid>>,
    lists: map<Key, seq<Version>>,
    retired: map<Key, seq<Version>>,
    log: seq<Op>)

  const INIT := State([], [], map[], map[], [])

  function At(m: map<Key, seq<Version>>, k: Key): seq<Version> {
    if k in m then m[k] else []
  }

  /** Every version of `k` that was not taken back, oldest first: the collected ones, then the list. */
  function Chain(s: State, k: Key): seq<Version> {
    At(s.retired, k) + At(s.lists, k)
  }

  // ----- Well-formed states

  ghost predicate ListsInRange(m: map<Key, seq<Version>>, n: nat) {
    forall k | k in m :: CreatorsBelow(m[k], n)
  }

  ghost predicate DepsBelow(deps: seq<seq<Tid>>) {
    forall t, d | 0 <= t < |deps| && d in deps[t] :: d < t
  }

  ghost predicate LogInRange(log: seq<Op>, n: nat) {
    forall i | 0 <= i < |log| :: log[i].tid < n && (log[i].from.Some? ==> log[i].from.value <= log[i].tid)
  }

  ghost predicate Wf(s: State) {
    && |s.deps| == |s.status|
    && ListsInRange(s.lists, |s.status|)
    && ListsInRange(s.retired, |s.status|)
    && DepsBelow(s.deps)
    && (forall t | 0 <= t < |s.deps| :: NoRepeats(s.deps[t]))
    && LogInRange(s.log, |s.status|)
  }

  // ----- Steps

  function Create(s: State): State {
    s.(status := s.status + [Pending], deps := s.deps + [[]])
  }

  /** The garbage collection pass that starts every PUT and GET; a key without an entry gets an empty one. */
  function Collect(s: State, k: Key): State
    requires Wf(s)
  {
    var vs := At(s.lists, k);
    s.(lists := s.lists[k := Collected(vs, s.status)],
       retired := s.retired[k := At(s.retired, k) + Outdated(vs, s.status)],
       status := AbortCreators(Doomed(vs, s.status), s.status))
  }

  /** trans_abort without its reference counting: only a pending transaction changes. */
  function Abort(s: State, t: Tid): State
    requires t < |s.status|
  {
    if s.status[t] == Pending then s.(status := s.status[t := Aborted]) else s
  }

  /** Adds the version, the dependencies and the log entry of an admitted operation. */
  function Perform(s: State, t: Tid, k: Key, act: Action): State
    requires Wf(s) && t < |s.status|
  {
    var vs := At(s.lists, k);
    var vs' := Install(vs, Version(t, act.value));
    s.(lists := s.lists[k := vs'],
       deps := s.deps[t := AddDependencies(s.deps[t], vs', t, s.status)],
       log := s.log + [Op(t, k, act, LastCreator(vs))])
  }

  lemma CollectWf(s: State, k: Key)
    requires Wf(s)
    ensures Wf(Collect(s, k))
  {
  }

  predicate Admitted(s: State, t: Tid, k: Key)
    requires Wf(s)
  {
    CollectWf(s, k);
    Admits(At(Collect(s, k).lists, k), t)
  }

  function Access(s: State, t: Tid, k: Key, act: Action): State
    requires Wf(s) && t < |s.status|
  {
    CollectWf(s, k);
    var c := Collect(s, k);
    if Admits(At(c.lists, k), t) then Perform(c, t, k, act) else Abort(c, t)
  }

  /** What a GET reads: the last version's value, which is its own write when it already has one. */
  function ReadValue(s: State, k: Key): Value
    requires Wf(s)
  {
    LastValue(At(Collect(s, k).lists, k))
  }

  function Commit(s: State, t: Tid): State
    requires t < |s.status|
  {
    s.(status := s.status[t := Committed])
  }

  datatype Event =
    | EvCreate
    | EvPut(t: Tid, k: Key, v: Value)
    | EvGet(t: Tid, k: Key)
    | EvCommit(t: Tid)
    | EvAbort(t: Tid)

  /** A committed transaction issues no more operations and is never aborted; a commit succeeds only for
      a pending transaction all of whose dependencies have committed. */
  predicate Enabled(s: State, e: Event)
    requires Wf(s)
  {
    match e
    case EvCreate => true
    case EvPut(t, k, v) => t < |s.status| && s.status[t] != Committed
    case EvGet(t, k) => t < |s.status| && s.status[t] != Committed
    case EvCommit(t) =>
      && t < |s.status| && s.status[t] == Pending
      && forall d | d in s.deps[t] :: s.status[d] == Committed
    case EvAbort(t) => t < |s.status| && s.status[t] != Committed
  }

  function Apply(s: State, e: Event): State
    requires Wf(s) && Enabled(s, e)
  {
    match e
    case EvCreate => Create(s)
    case EvPut(t, k, v) => Access(s, t, k, Put(v))
    case EvGet(t, k) => Access(s, t, k, Get(ReadValue(s, k)))
    case EvCommit(t) => Commit(s, t)
    case EvAbort(t) => Abort(s, t)
  }

  // ----- Runs

  /** `s'` follows from `s` by the interleaved steps `es`, each enabled when it is taken. */
  ghost predicate Runs(s: State, es: seq<Event>, s': State)
    decreases |es|
  {
    if es == [] then s == s'
    else Wf(s) && Enabled(s, es[0]) && Runs(Apply(s, es[0]), es[1..], s')
  }

  ghost predicate Reachable(s: State) {
    exists es :: Runs(INIT, es, s)
  }
}
