/** Every reachable state of the protocol is serializable in the order of transaction names. */
module Serializability {
  import opened Types
  import opened VersionLists
  import opened Protocol
  import opened Invariant

  // ----- Serial execution of operations on a store of values, one after the other

  type Store = map<Key, Value>

  function Read(m: Store, k: Key): Value {
    if k in m then m[k] else None
  }

  function Execute(m: Store, ops: seq<Op>): Store {
    if ops == [] then m
    else
      var before := Execute(m, ops[..|ops| - 1]);
      var o := ops[|ops| - 1];
      match o.act
      case Put(v) => before[o.key := v]
      case Get(_) => before
  }

  /** Every GET of the sequence returns what the serial store holds at that point. */
  predicate Consistent(m: Store, ops: seq<Op>) {
    ops == [] ||
    var before := ops[..|ops| - 1];
    var o := ops[|ops| - 1];
    Consistent(m, before) && (o.act.Get? ==> o.act.value == Read(Execute(m, before), o.key))
  }

  // ----- The serial order

  /** The operations of one transaction, in the order in which it issued them. */
  function TransactionLog(log: seq<Op>, t: Tid): seq<Op> {
    if log == [] then []
    else
      var o := log[|log| - 1];
      var r := TransactionLog(log[..|log| - 1], t);
      if o.tid == t then r + [o] else r
  }

  /** The operations of the committed transactions below `n`, whole transactions in increasing order. */
  function SerialLog(s: State, n: nat): seq<Op>
    requires n <= |s.status|
  {
    if n == 0 then []
    else SerialLog(s, n - 1) + if s.status[n - 1] == Committed then TransactionLog(s.log, n - 1) else []
  }

  // ----- One key at a time

  function ActionsOn(ops: seq<Op>, k: Key): seq<Action> {
    if ops == [] then []
    else
      var o := ops[|ops| - 1];
      var r := ActionsOn(ops[..|ops| - 1], k);
      if o.key == k then r + [o.act] else r
  }

  lemma {:induction false} ActionsOnAppend(a: seq<Op>, b: seq<Op>, k: Key)
    ensures ActionsOn(a + b, k) == ActionsOn(a, k) + ActionsOn(b, k)
  {
    if b == [] {
      assert a + b == a;
    } else {
      assert (a + b)[..|a + b| - 1] == a + b[..|b| - 1];
      ActionsOnAppend(a, b[..|b| - 1], k);
    }
  }

  lemma {:induction false} ActionsOfTransaction(log: seq<Op>, t: Tid, k: Key)
    ensures ActionsOn(TransactionLog(log, t), k) == OpsOf(log, t, k)
  {
    if log != [] {
      var o := log[|log| - 1];
      var r := TransactionLog(log[..|log| - 1], t);
      ActionsOfTransaction(log[..|log| - 1], t, k);
      assert (r + [o])[..|r|] == r;
    }
  }

  lemma {:induction false} ExecuteKey(ops: seq<Op>, k: Key)
    ensures Read(Execute(map[], ops), k) == Final(None, ActionsOn(ops, k))
  {
    if ops != [] {
      var o := ops[|ops| - 1];
      var acts := ActionsOn(ops[..|ops| - 1], k);
      ExecuteKey(ops[..|ops| - 1], k);
      LegalSnoc(None, acts, o.act);
    }
  }

  lemma {:induction false} ConsistentPerKey(ops: seq<Op>)
    requires forall k :: Legal(None, ActionsOn(ops, k))
    ensures Consistent(map[], ops)
  {
    if ops != [] {
      var before, o := ops[..|ops| - 1], ops[|ops| - 1];
      forall k ensures Legal(None, ActionsOn(before, k)) {
        assert Legal(None, ActionsOn(ops, k));
        LegalSnoc(None, ActionsOn(before, k), o.act);
      }
      ConsistentPerKey(before);
      ExecuteKey(before, o.key);
      assert Legal(None, ActionsOn(ops, o.key));
      LegalSnoc(None, ActionsOn(before, o.key), o.act);
    }
  }

  // ----- The chain of a key is its serial history

  /** `j` is the number of versions in `c` whose creators are below `n`. */
  predicate Splits(c: seq<Version>, j: nat, n: nat) {
    && j <= |c|
    && (forall i | 0 <= i < j :: c[i].creator < n)
    && (forall i | j <= i < |c| :: n <= c[i].creator)
  }

  function ValueAfter(c: seq<Version>, j: nat): Value
    requires j <= |c|
  {
    if j == 0 then None else c[j - 1].value
  }

  /** What a chain of committed versions has to do with a log for the serial history of the key to be
      read off it. */
  ghost predicate Records(c: seq<Version>, s: State, k: Key) {
    && Sorted(c) && CreatorsBelow(c, |s.status|) && AllCommitted(c, s.status)
    && (forall i | 0 <= i < |c| :: Explained(c, s.log, k, i))
    && (forall t | 0 <= t < |s.status| && s.status[t] == Committed && OpsOf(s.log, t, k) != [] :: Creates(c, t))
  }

  lemma {:induction false} SerialKey(c: seq<Version>, s: State, k: Key, j: nat, n: nat)
    requires Records(c, s, k) && n <= |s.status| && Splits(c, j, n)
    ensures Legal(None, ActionsOn(SerialLog(s, n), k))
    ensures Final(None, ActionsOn(SerialLog(s, n), k)) == ValueAfter(c, j)
    decreases n
  {
    if n > 0 {
      var j' := if j > 0 && c[j - 1].creator == n - 1 then j - 1 else j;
      SplitsBefore(c, j, n);
      SerialKey(c, s, k, j', n - 1);
      SerialKeyStep(c, s, k, j', n - 1);
    }
  }

  lemma SplitsBefore(c: seq<Version>, j: nat, n: nat)
    requires Sorted(c) && n > 0 && Splits(c, j, n)
    ensures Splits(c, if j > 0 && c[j - 1].creator == n - 1 then j - 1 else j, n - 1)
  {
    forall i | 0 <= i < j - 1 ensures c[i].creator < n - 1 {
      assert c[i].creator < c[j - 1].creator;
    }
  }

  /** One more transaction at the end of the serial order. */
  lemma SerialKeyStep(c: seq<Version>, s: State, k: Key, j: nat, t: Tid)
    requires Records(c, s, k) && t < |s.status| && Splits(c, j, t)
    requires Legal(None, ActionsOn(SerialLog(s, t), k))
    requires Final(None, ActionsOn(SerialLog(s, t), k)) == ValueAfter(c, j)
    ensures Legal(None, ActionsOn(SerialLog(s, t + 1), k))
    ensures Final(None, ActionsOn(SerialLog(s, t + 1), k)) ==
            ValueAfter(c, if j < |c| && c[j].creator == t then j + 1 else j)
  {
    var before, own := ActionsOn(SerialLog(s, t), k), OpsOf(s.log, t, k);
    ActionsOfTransaction(s.log, t, k);
    if s.status[t] == Committed {
      ActionsOnAppend(SerialLog(s, t), TransactionLog(s.log, t), k);
      LegalAppend(None, before, own);
      if j < |c| && c[j].creator == t {
        assert Explained(c, s.log, k, j);
        assert Incoming(c, j) == ValueAfter(c, j);
      } else {
        NotCreated(c, j, t);
        assert own == [] && before + own == before;
      }
    } else {
      assert SerialLog(s, t + 1) == SerialLog(s, t);
    }
  }

  lemma NotCreated(c: seq<Version>, j: nat, t: Tid)
    requires Sorted(c) && Splits(c, j, t) && (j < |c| ==> c[j].creator != t)
    ensures !Creates(c, t)
  {
    forall i | 0 <= i < |c| ensures c[i].creator != t {
      if i > j { assert c[j].creator < c[i].creator; }
    }
  }

  // ----- The committed part of the chain

  function CommittedPrefix(c: seq<Version>, st: seq<Status>): (n: nat)
    requires CreatorsBelow(c, |st|)
    ensures n <= |c| && AllCommitted(c[..n], st) && (n < |c| ==> st[c[n].creator] != Committed)
  {
    if c == [] || st[c[0].creator] != Committed then 0
    else
      var m := CommittedPrefix(c[1..], st);
      assert forall i | 0 < i < |c| :: c[i] == c[1..][i - 1];
      assert forall i | 0 < i <= m :: c[i] == c[1..][..m][i - 1];
      1 + m
  }

  lemma ChainShape(s: State, k: Key)
    requires Inv(s)
    ensures CreatorsBelow(Chain(s, k), |s.status|) && CommittedFirst(Chain(s, k), s.status)
    ensures Sorted(Chain(s, k)) && CommittedFirst(At(s.lists, k), s.status)
  {
    assert KeyInv(s, k);
    ListCommittedFirst(s, k);
    hide ChainExplained, ChainComplete, Ordered;
  }

  lemma PrefixExplained(c: seq<Version>, log: seq<Op>, k: Key, n: nat, i: nat)
    requires i < n <= |c| && Explained(c, log, k, i)
    ensures Explained(c[..n], log, k, i)
  {
    assert Incoming(c[..n], i) == Incoming(c, i);
  }

  lemma CommittedPart(s: State, k: Key)
    requires Inv(s)
    ensures CreatorsBelow(Chain(s, k), |s.status|)
    ensures Records(Chain(s, k)[..CommittedPrefix(Chain(s, k), s.status)], s, k)
  {
    ChainShape(s, k);
    assert KeyInv(s, k);
    var c := Chain(s, k);
    assert forall i | 0 <= i < |c| && s.status[c[i].creator] != Aborted :: Explained(c, s.log, k, i);
    PrefixRecords(c, s, k, CommittedPrefix(c, s.status));
  }

  lemma PrefixRecords(c: seq<Version>, s: State, k: Key, n: nat)
    requires n <= |c| && Sorted(c) && CreatorsBelow(c, |s.status|) && AllCommitted(c[..n], s.status)
    requires CommittedFirst(c, s.status) && (n < |c| ==> s.status[c[n].creator] != Committed)
    requires forall i | 0 <= i < |c| && s.status[c[i].creator] != Aborted :: Explained(c, s.log, k, i)
    requires forall t | 0 <= t < |s.status| && s.status[t] != Aborted && OpsOf(s.log, t, k) != [] :: Creates(c, t)
    ensures Records(c[..n], s, k)
  {
    hide Explained, OpsOf;
    forall i | 0 <= i < n ensures Explained(c[..n], s.log, k, i) {
      assert s.status[c[..n][i].creator] == Committed;
      PrefixExplained(c, s.log, k, n, i);
    }
    forall t | 0 <= t < |s.status| && s.status[t] == Committed && OpsOf(s.log, t, k) != [] ensures Creates(c[..n], t) {
      var i :| 0 <= i < |c| && c[i].creator == t;
      assert c[..n][i].creator == t;
    }
  }

  /** The serial history of a key: legal, and ending in the last committed version of its chain. */
  lemma SerialHistory(s: State, k: Key)
    requires Inv(s)
    ensures CreatorsBelow(Chain(s, k), |s.status|)
    ensures Legal(None, ActionsOn(SerialLog(s, |s.status|), k))
    ensures Final(None, ActionsOn(SerialLog(s, |s.status|), k)) ==
            ValueAfter(Chain(s, k), CommittedPrefix(Chain(s, k), s.status))
  {
    hide Inv, Records, Legal, Final, ActionsOn, SerialLog, CommittedPrefix;
    CommittedPart(s, k);
    var c := Chain(s, k)[..CommittedPrefix(Chain(s, k), s.status)];
    SerialKey(c, s, k, |c|, |s.status|);
  }

  // ----- The theorems

  /** The value of the committed version whose creator is the greatest, NULL when there is none. */
  function CurrentValue(vs: seq<Version>, st: seq<Status>): Value
    requires CreatorsBelow(vs, |st|)
  {
    if vs == [] then None
    else if st[vs[|vs| - 1].creator] == Committed then vs[|vs| - 1].value
    else CurrentValue(vs[..|vs| - 1], st)
  }

  lemma {:induction false} CurrentIsLastCommitted(vs: seq<Version>, st: seq<Status>)
    requires CreatorsBelow(vs, |st|) && CommittedFirst(vs, st)
    ensures CurrentValue(vs, st) == ValueAfter(vs, CommittedPrefix(vs, st))
    decreases |vs|
  {
    if vs != [] {
      var n := CommittedPrefix(vs, st);
      if st[vs[|vs| - 1].creator] == Committed {
        assert n == |vs|;
      } else {
        var p := vs[..|vs| - 1];
        CurrentIsLastCommitted(p, st);
        PrefixUnique(vs, st, CommittedPrefix(p, st));
      }
    }
  }

  lemma PrefixUnique(vs: seq<Version>, st: seq<Status>, n: nat)
    requires CreatorsBelow(vs, |st|) && n <= |vs|
    requires forall i | 0 <= i < n :: st[vs[i].creator] == Committed
    requires n < |vs| ==> st[vs[n].creator] != Committed
    ensures CommittedPrefix(vs, st) == n
  {
    var m := CommittedPrefix(vs, st);
    assert forall i | 0 <= i < m :: vs[..m][i] == vs[i];
  }

  /** Serializability: executing the committed transactions one at a time, in increasing order, every GET
      returns the value that it returned in the interleaved run. */
  lemma Serializable(s: State)
    requires Reachable(s)
    ensures Consistent(map[], SerialLog(s, |s.status|))
  {
    ReachableInv(s);
    forall k ensures Legal(None, ActionsOn(SerialLog(s, |s.status|), k)) {
      SerialHistory(s, k);
    }
    ConsistentPerKey(SerialLog(s, |s.status|));
  }

  /** The current value of a key is its value after that serial execution. */
  lemma CurrentIsSerial(s: State, k: Key)
    requires Reachable(s)
    ensures CreatorsBelow(At(s.lists, k), |s.status|)
    ensures CurrentValue(At(s.lists, k), s.status) == Read(Execute(map[], SerialLog(s, |s.status|)), k)
  {
    ReachableInv(s);
    CurrentIsSerialInv(s, k);
  }

  lemma CurrentIsSerialInv(s: State, k: Key)
    requires Inv(s)
    ensures CreatorsBelow(At(s.lists, k), |s.status|)
    ensures CurrentValue(At(s.lists, k), s.status) == Read(Execute(map[], SerialLog(s, |s.status|)), k)
  {
    SerialHistory(s, k);
    ExecuteKey(SerialLog(s, |s.status|), k);
    ChainShape(s, k);
    CurrentIsLastCommitted(At(s.lists, k), s.status);
    CurrentInChain(s, k);
  }

  lemma CurrentInChain(s: State, k: Key)
    requires Inv(s)
    ensures CreatorsBelow(Chain(s, k), |s.status|)
    ensures ValueAfter(Chain(s, k), CommittedPrefix(Chain(s, k), s.status)) ==
            ValueAfter(At(s.lists, k), CommittedPrefix(At(s.lists, k), s.status))
  {
    assert KeyInv(s, k);
    hide ChainExplained, ChainComplete, Ordered, Sorted;
    PrefixAfterCommitted(At(s.retired, k), At(s.lists, k), s.status);
  }

  lemma PrefixAfterCommitted(r: seq<Version>, vs: seq<Version>, st: seq<Status>)
    requires CreatorsBelow(r, |st|) && CreatorsBelow(vs, |st|) && AllCommitted(r, st)
    requires r != [] ==> vs != [] && st[vs[0].creator] == Committed
    ensures CreatorsBelow(r + vs, |st|)
    ensures ValueAfter(r + vs, CommittedPrefix(r + vs, st)) == ValueAfter(vs, CommittedPrefix(vs, st))
  {
    var n := CommittedPrefix(vs, st);
    assert forall i | 0 <= i < n :: vs[..n][i] == vs[i];
    PrefixUnique(r + vs, st, |r| + n);
  }

  lemma {:induction false} SameSerialLog(s: State, s': State, n: nat)
    requires n <= |s.status| == |s'.status| && s'.log == s.log
    requires forall t | 0 <= t < n :: s.status[t] == Committed <==> s'.status[t] == Committed
    ensures SerialLog(s', n) == SerialLog(s, n)
  {
    if n > 0 {
      SameSerialLog(s, s', n - 1);
    }
  }

  /** Collecting any key leaves the current value of every key alone. */
  lemma CollectKeepsValues(s: State, k: Key, k': Key)
    requires Reachable(s)
    ensures Wf(s) && CreatorsBelow(At(s.lists, k'), |s.status|)
    ensures Wf(Collect(s, k)) && CreatorsBelow(At(Collect(s, k).lists, k'), |s.status|)
    ensures CurrentValue(At(Collect(s, k).lists, k'), Collect(s, k).status) == CurrentValue(At(s.lists, k'), s.status)
  {
    ReachableInv(s);
    CollectKeeps(s, k);
    SameSerialLog(s, Collect(s, k), |s.status|);
    CurrentIsSerialInv(s, k');
    CurrentIsSerialInv(Collect(s, k), k');
  }
}
