/** What holds in every run of any number of threads on the skip list. */
module SkipListTheorems {
  import opened Common
  import opened SkipList
  import opened SkipListProof
  import opened SkipListSteps

  lemma StepInv(s: State, a: Step)
    requires Inv(s) && Enabled(s, a)
    ensures Inv(Next(s, a))
  {
    hide Inv;
    match a {
      case Start(t, key, height) => StartKeeps(s, a);
      case StartLess(t, key) => StartKeeps(s, a);
      case Read(t) => ReadKeeps(s, t);
      case TakeLock(t) => TakeLockKeeps(s, t);
      case Check(t) => CheckKeeps(s, t);
      case Alloc(t, junk) => AllocKeeps(s, t, junk);
      case CopyNext(t) => CopyNextKeeps(s, t);
      case Publish(t) => PublishKeeps(s, t);
      case Unlock(t) => UnlockKeeps(s, t);
      case ReadLess(t) => ReadLessKeeps(s, t);
    }
  }

  lemma {:induction false} RunInv(run: seq<State>, acts: seq<Step>, threads: nat, i: nat)
    requires IsRun(run, acts, threads) && i < |run|
    ensures Inv(run[i])
  {
    hide Inv, Next, Enabled;
    if i == 0 {
      InitialInv(threads);
    } else {
      RunInv(run, acts, threads, i - 1);
      StepInv(run[i - 1], acts[i - 1]);
    }
  }

  // ----- Order -----

  /** The node reached from the head by k links of level l. */
  ghost function Follow(s: State, l: nat, k: nat): Option<Id> {
    if k == 0 then Some(HEAD)
    else
      var p := Follow(s, l, k - 1);
      if p.Some? && p.value < |s.nodes| && l < |s.nodes[p.value].next| then s.nodes[p.value].next[l] else None
  }

  lemma {:induction false} FollowIs(s: State, l: nat, k: nat)
    requires ListsOk(s) && l < MAX_HEIGHT
    ensures Follow(s, l, k) == if k < |s.levels[l]| then Some(s.levels[l][k]) else None
  {
    assert LevelOk(s, l);
    if k > 0 {
      FollowIs(s, l, k - 1);
      if k - 1 < |s.levels[l]| { assert MemberOk(s, l, k - 1); }
    }
  }

  /** Every level is strictly ascending along its links. */
  lemma LevelsAscend(run: seq<State>, acts: seq<Step>, threads: nat, i: nat, l: nat, j: nat, k: nat)
    requires IsRun(run, acts, threads) && i < |run| && l < MAX_HEIGHT && j < k
    requires Follow(run[i], l, k).Some?
    ensures Follow(run[i], l, j).Some? && Rank(run[i], Follow(run[i], l, j).value) < Rank(run[i], Follow(run[i], l, k).value)
  {
    RunInv(run, acts, threads, i);
    FollowIs(run[i], l, j);
    FollowIs(run[i], l, k);
    assert LevelOk(run[i], l);
  }

  /** Every node of a level is a node of the level below. */
  lemma LevelsNest(run: seq<State>, acts: seq<Step>, threads: nat, i: nat, l: nat, k: nat) returns (j: nat)
    requires IsRun(run, acts, threads) && i < |run| && l + 1 < MAX_HEIGHT && Follow(run[i], l + 1, k).Some?
    ensures Follow(run[i], l, j) == Follow(run[i], l + 1, k)
  {
    RunInv(run, acts, threads, i);
    var s := run[i];
    FollowIs(s, l + 1, k);
    var n := s.levels[l + 1][k];
    assert Nested(s, l) && On(s, n, l + 1);
    assert On(s, n, l);
    j :| 0 <= j < |s.levels[l]| && s.levels[l][j] == n;
    FollowIs(s, l, j);
  }

  // ----- Results -----

  /** All calls for a key return the same node, whichever thread made them. */
  lemma OneNodePerKey(run: seq<State>, acts: seq<Step>, threads: nat, i: nat, a: nat, b: nat)
    requires IsRun(run, acts, threads) && i < |run| && a < |run[i].calls| && b < |run[i].calls|
    requires run[i].calls[a].Found? && run[i].calls[b].Found? && run[i].calls[a].key == run[i].calls[b].key
    ensures run[i].calls[a].node == run[i].calls[b].node
  {
    RunInv(run, acts, threads, i);
    var s := run[i];
    assert CallOk(s, s.calls[a]) && CallOk(s, s.calls[b]);
    Unique(s, s.calls[a].node, s.calls[b].node, 0);
  }

  /** No two nodes of the bottom list carry the same key. */
  lemma KeysUnique(run: seq<State>, acts: seq<Step>, threads: nat, i: nat, n: Id, m: Id)
    requires IsRun(run, acts, threads) && i < |run| && On(run[i], n, 0) && On(run[i], m, 0)
    requires n != HEAD && m != HEAD && n < |run[i].nodes| && m < |run[i].nodes| && run[i].nodes[n].key == run[i].nodes[m].key
    ensures n == m
  {
    RunInv(run, acts, threads, i);
    Unique(run[i], n, m, 0);
  }

  /** FindLessThan returns the last node before the key, as of its last read; its assertion never fails. */
  lemma LessIsPredecessor(run: seq<State>, acts: seq<Step>, threads: nat, i: nat, t: Tid, n: Id)
    requires IsRun(run, acts, threads) && i < |acts| && acts[i] == ReadLess(t)
    requires run[i + 1].threads[t].pc == Idle
    ensures var s, th := run[i], run[i].threads[t];
            && th.pc.Less? && On(s, th.pc.x, 0) && Rank(s, th.pc.x) < th.key
            && run[i + 1].calls == s.calls + [Pred(th.key, th.pc.x)]
            && (On(s, n, 0) && Rank(s, n) < th.key ==> Rank(s, n) <= Rank(s, th.pc.x))
  {
    RunInv(run, acts, threads, i);
    var s, th := run[i], run[i].threads[t];
    assert ThreadOk(s, t);
    if On(s, n, 0) && Rank(s, n) < th.key {
      Unique(s, th.pc.x, n, 0);
      NextOn(s, th.pc.x, 0);
    }
  }

  // ----- Complete nodes -----

  ghost predicate Built(s: State, n: Id) {
    exists t :: 0 <= t < |s.threads| && Building(s.threads[t]) == Some(n)
  }

  /** A node that nobody is building is linked at all its levels. */
  ghost predicate Whole(s: State) {
    forall n, l :: 0 < n < |s.nodes| && !Built(s, n) && 0 <= l < s.nodes[n].height ==> On(s, n, l)
  }

  /** Other threads go on building what they were building. */
  lemma StepBuilds(s: State, a: Step, n: Id)
    requires Enabled(s, a) && Built(s, n)
    ensures Built(Next(s, a), n)
            || (a.Publish? && s.threads[a.t].pc.x == n && s.threads[a.t].pc.i + 1 >= s.threads[a.t].height)
  {
    var s' := Next(s, a);
    var u :| 0 <= u < |s.threads| && Building(s.threads[u]) == Some(n);
    if u != a.t || a.CopyNext? || (a.Publish? && s.threads[a.t].pc.i + 1 < s.threads[a.t].height) {
      assert Building(s'.threads[u]) == Some(n);
    }
  }

  lemma StepWhole(s: State, a: Step)
    requires Inv(s) && Whole(s) && Enabled(s, a)
    ensures Whole(Next(s, a))
  {
    var s' := Next(s, a);
    assert ThreadOk(s, a.t);
    if a.Alloc? {
      assert Building(s'.threads[a.t]) == Some(|s.nodes|);
    }
    if a.Publish? { PublishEvolves(s, a.t); }
    forall n, l | 0 < n < |s'.nodes| && !Built(s', n) && 0 <= l < s'.nodes[n].height ensures On(s', n, l) {
      if Built(s, n) {
        StepBuilds(s, a, n);
        assert Private(s, s.threads[a.t], s.threads[a.t].pc.i, n);
        assert On(s, n, l) <==> l < s.threads[a.t].pc.i;
      } else if n < |s.nodes| {
        assert On(s, n, l);
      }
    }
  }

  lemma {:induction false} RunWhole(run: seq<State>, acts: seq<Step>, threads: nat, i: nat)
    requires IsRun(run, acts, threads) && i < |run|
    ensures Whole(run[i])
  {
    if i > 0 {
      hide Whole, Next, Enabled, Inv;
      RunWhole(run, acts, threads, i - 1);
      RunInv(run, acts, threads, i - 1);
      StepWhole(run[i - 1], acts[i - 1]);
    }
  }

  // ----- Deadlock -----

  /** Thread t cannot move until thread u releases a lock. */
  ghost predicate Waits(s: State, t: Tid, u: Tid) {
    && t < |s.threads| && s.threads[t].pc.Locking?
    && var th := s.threads[t];
    && th.pc.i < |th.preds| && NewPred(th, th.pc.i) && th.preds[th.pc.i] < |s.nodes|
    && s.nodes[th.preds[th.pc.i]].lock == Some(u)
  }

  /** The rank of the node a thread is about to lock. */
  ghost function WaitRank(s: State, t: Tid): (r: int)
    ensures r >= -1
  {
    if t < |s.threads| && s.threads[t].pc.Locking? && s.threads[t].pc.i < |s.threads[t].preds|
    then Rank(s, s.threads[t].preds[s.threads[t].pc.i]) else -1
  }

  /** A thread waits only for a node before all nodes it holds. */
  lemma HeldAbove(s: State, t: Tid, n: Id)
    requires Inv(s) && t < |s.threads| && s.threads[t].pc.Locking? && HeldBy(s, t, n)
    requires s.threads[t].pc.i < |s.threads[t].preds| && NewPred(s.threads[t], s.threads[t].pc.i)
    ensures WaitRank(s, t) < Rank(s, n)
  {
    var th := s.threads[t];
    var i := th.pc.i;
    assert ThreadOk(s, t);
    var j :| 0 <= j < |th.preds| && HeldAt(th, j) && th.preds[j] == n;
    PredsDescend(s, th, j, i - 1);
    PredsDescend(s, th, i - 1, i);
    if WaitRank(s, t) == Rank(s, th.preds[i - 1]) {
      PredsSame(s, th, i, i - 1);
    }
  }

  /** Along a chain of waiting threads the nodes waited for come ever earlier. */
  lemma WaitsDescend(s: State, t: Tid, u: Tid, v: Tid)
    requires Inv(s) && Waits(s, t, u) && Waits(s, u, v)
    ensures WaitRank(s, u) < WaitRank(s, t)
  {
    var n := s.threads[t].preds[s.threads[t].pc.i];
    assert HeldBy(s, u, n);
    HeldAbove(s, u, n);
  }

  lemma {:induction false} ChainDescends(s: State, ts: seq<Tid>, k: nat)
    requires Inv(s) && |ts| > 1 && 0 < k < |ts| - 1
    requires forall j :: 0 <= j < |ts| - 1 ==> Waits(s, ts[j], ts[j + 1])
    ensures WaitRank(s, ts[k]) < WaitRank(s, ts[0])
    decreases k
  {
    hide Inv;
    assert Waits(s, ts[k - 1], ts[k - 1 + 1]) && Waits(s, ts[k], ts[k + 1]);
    WaitsDescend(s, ts[k - 1], ts[k], ts[k + 1]);
    if k > 1 { ChainDescends(s, ts, k - 1); }
  }

  /** No cycle of threads wait for each other, and none waits for itself. */
  lemma WaitsAcyclic(run: seq<State>, acts: seq<Step>, threads: nat, i: nat, ts: seq<Tid>)
    requires IsRun(run, acts, threads) && i < |run| && |ts| > 1
    requires forall j :: 0 <= j < |ts| - 1 ==> Waits(run[i], ts[j], ts[j + 1])
    ensures ts[0] != ts[|ts| - 1]
  {
    RunInv(run, acts, threads, i);
    var s := run[i];
    assert Waits(s, ts[0], ts[0 + 1]);
    if ts[0] == ts[|ts| - 1] {
      var ring := ts + [ts[1]];
      forall j | 0 <= j < |ring| - 1 ensures Waits(s, ring[j], ring[j + 1]) {
        assert j < |ts| - 1 ==> Waits(s, ts[j], ts[j + 1]);
      }
      ChainDescends(s, ring, |ts| - 1);
      assert false;
    }
  }

  // ----- Progress -----

  /** The step a thread takes next. */
  ghost function StepOf(s: State, t: Tid): Step
    requires t < |s.threads| && s.threads[t].pc != Idle
  {
    match s.threads[t].pc {
      case Search(_, _) => Read(t)
      case Locking(_) => TakeLock(t)
      case Checking(_) => Check(t)
      case Allocating => Alloc(t, if s.threads[t].height == 0 then [] else seq(s.threads[t].height - 1, _ => None))
      case LinkRead(_, _) => CopyNext(t)
      case LinkWrite(_, _) => Publish(t)
      case Unlocking(_, _, _) => Unlock(t)
      case Less(_) => ReadLess(t)
    }
  }

  /** Every pointer a thread is about to follow is valid: only a lock can hold it up. */
  lemma OnlyLocksBlock(s: State, t: Tid)
    requires Inv(s) && t < |s.threads| && s.threads[t].pc != Idle
    ensures AtPoint(s, StepOf(s, t))
    ensures Enabled(s, StepOf(s, t)) || exists u: Tid :: u < |s.threads| && Waits(s, t, u)
  {
    var th := s.threads[t];
    assert ListsOk(s) && LocksOk(s) && ThreadOk(s, t);
    hide Inv, ListsOk, LocksOk;
    match th.pc {
      case Search(l, x) => NextOn(s, x, l);
      case Locking(i) => LockerWaits(s, t);
      case Checking(i) => assert Recorded(s, th, i); OnFacts(s, th.preds[i], i);
      case Allocating =>
      case LinkRead(i, x) => assert Recorded(s, th, i); OnFacts(s, th.preds[i], i); NodeIsOk(s, x);
      case LinkWrite(i, x) => assert Recorded(s, th, i); OnFacts(s, th.preds[i], i); NodeIsOk(s, x);
      case Unlocking(i, upto, res) => assert Recorded(s, th, i);
      case Less(x) => NextOn(s, x, 0);
    }
  }

  lemma NodeIsOk(s: State, x: Id)
    requires ListsOk(s) && x < |s.nodes|
    ensures NodeOk(s, x) && |s.levels| == MAX_HEIGHT
  {}

  lemma LockerWaits(s: State, t: Tid)
    requires LocksOk(s) && t < |s.threads| && s.threads[t].pc.Locking? && ThreadOk(s, t)
    ensures AtPoint(s, TakeLock(t)) && (Enabled(s, TakeLock(t)) || exists u: Tid :: u < |s.threads| && Waits(s, t, u))
  {
    var th := s.threads[t];
    var i := th.pc.i;
    assert Recorded(s, th, i);
    if NewPred(th, i) && s.nodes[th.preds[i]].lock.Some? {
      var u := s.nodes[th.preds[i]].lock.value;
      assert HeldBy(s, u, th.preds[i]);
      assert Waits(s, t, u);
    }
  }

  /** While some call is unfinished, some thread can move. */
  lemma {:induction false} SomeoneMoves(s: State, t: Tid) returns (u: Tid)
    requires Inv(s) && t < |s.threads| && s.threads[t].pc != Idle
    ensures u < |s.threads| && s.threads[u].pc != Idle && Enabled(s, StepOf(s, u))
    decreases WaitRank(s, t) + 1
  {
    OnlyLocksBlock(s, t);
    if Enabled(s, StepOf(s, t)) {
      u := t;
    } else {
      var v: Tid :| v < |s.threads| && Waits(s, t, v);
      BlockerIsBusy(s, t, v);
      OnlyLocksBlock(s, v);
      if Enabled(s, StepOf(s, v)) {
        u := v;
      } else {
        var w: Tid :| w < |s.threads| && Waits(s, v, w);
        WaitsDescend(s, t, v, w);
        u := SomeoneMoves(s, v);
      }
    }
  }

  lemma BlockerIsBusy(s: State, t: Tid, v: Tid)
    requires Inv(s) && Waits(s, t, v)
    ensures v < |s.threads| && s.threads[v].pc != Idle
  {
    var n := s.threads[t].preds[s.threads[t].pc.i];
    assert HeldBy(s, v, n);
  }
}
