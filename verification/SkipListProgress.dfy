/** A call that runs undisturbed comes to its end. */
module SkipListProgress {
  import opened Common
  import opened SkipList
  import opened SkipListProof
  import opened SkipListSteps
  import opened SkipListTheorems

  // ----- What calls return -----

  /** Every node a call has returned carries the key and is linked. */
  lemma ReturnedIsLinked(run: seq<State>, acts: seq<Step>, threads: nat, i: nat, c: nat)
    requires IsRun(run, acts, threads) && i < |run| && c < |run[i].calls| && run[i].calls[c].Found?
    ensures var n := run[i].calls[c].node;
            0 < n < |run[i].nodes| && run[i].nodes[n].key == run[i].calls[c].key && On(run[i], n, 0)
  {
    RunInv(run, acts, threads, i);
    assert CallOk(run[i], run[i].calls[c]);
  }

  // ----- How far a call has to go -----

  /** No other thread is inside a call. */
  ghost predicate Alone(s: State, t: Tid) {
    t < |s.threads| && forall u :: 0 <= u < |s.threads| && u != t ==> s.threads[u].pc == Idle
  }

  /** The link recorded for level l is still there. */
  ghost predicate Match(s: State, th: Thread, l: nat) {
    && l < |th.preds| && l < |th.succs| && th.preds[l] < |s.nodes| && l < |s.nodes[th.preds[l]].next|
    && s.nodes[th.preds[l]].next[l] == th.succs[l]
  }

  /** The checks still to come will succeed. */
  ghost predicate Fresh(s: State, th: Thread) {
    match th.pc {
      case Search(level, _) => forall l :: level < l < MAX_HEIGHT ==> Match(s, th, l)
      case Locking(_) => forall l :: 0 <= l < MAX_HEIGHT ==> Match(s, th, l)
      case Checking(_) => forall l :: 0 <= l < MAX_HEIGHT ==> Match(s, th, l)
      case Unlocking(_, _, res) => res.Some?
      case _ => true
    }
  }

  function Phase(pc: Pc): nat {
    match pc
    case Idle => 0
    case Unlocking(_, _, _) => 1
    case LinkRead(_, _) => 2
    case LinkWrite(_, _) => 2
    case Allocating => 3
    case Checking(_) => 4
    case Locking(_) => 4
    case Search(_, _) => 5
    case Less(_) => 5
  }

  function Level(pc: Pc): nat { if pc.Search? then pc.level else 0 }

  /** How many nodes of its level lie beyond n. */
  ghost function Beyond(s: State, n: Id, l: nat): int {
    if On(s, n, l) then |s.levels[l]| - IndexOf(s.levels[l], n) else 0
  }

  ghost function Rest(s: State, th: Thread): int {
    match th.pc
    case Search(l, x) => Beyond(s, x, l)
    case Less(x) => Beyond(s, x, 0)
    case Locking(i) => 2 * (th.height - i) + 1
    case Checking(i) => 2 * (th.height - i)
    case LinkRead(i, _) => 2 * (th.height - i) + 1
    case LinkWrite(i, _) => 2 * (th.height - i)
    case Unlocking(i, upto, _) => upto - i
    case _ => 0
  }

  /** The measure of thread t is smaller in s' than in s. */
  ghost predicate Nearer(s: State, s': State, t: Tid)
    requires t < |s.threads| && t < |s'.threads|
  {
    var th, th' := s.threads[t], s'.threads[t];
    || (!Fresh(s, th) && Fresh(s', th'))
    || ((Fresh(s, th) ==> Fresh(s', th'))
        && (|| Phase(th'.pc) < Phase(th.pc)
            || (Phase(th'.pc) == Phase(th.pc)
                && (Level(th'.pc) < Level(th.pc)
                    || (Level(th'.pc) == Level(th.pc) && 0 <= Rest(s', th') < Rest(s, th))))))
  }

  lemma NextBeyond(s: State, n: Id, l: nat)
    requires ListsOk(s) && On(s, n, l) && n < |s.nodes| && l < |s.nodes[n].next| && s.nodes[n].next[l].Some?
    ensures On(s, s.nodes[n].next[l].value, l) && 0 <= Beyond(s, s.nodes[n].next[l].value, l) < Beyond(s, n, l)
  {
    var ids := s.levels[l];
    assert LevelOk(s, l);
    var i := IndexOf(ids, n);
    assert MemberOk(s, l, i);
    var m := ids[i + 1];
    var j := IndexOf(ids, m);
  }

  // ----- One step of a thread that is alone -----

  lemma AloneEnabled(s: State, t: Tid)
    requires Inv(s) && Alone(s, t) && s.threads[t].pc != Idle
    ensures Enabled(s, StepOf(s, t))
  {
    hide Inv;
    OnlyLocksBlock(s, t);
    forall u: Tid | u < |s.threads| ensures !Waits(s, t, u) {
      if Waits(s, t, u) { BlockerIsOther(s, t, u); }
    }
  }

  lemma BlockerIsOther(s: State, t: Tid, u: Tid)
    requires Inv(s) && Waits(s, t, u)
    ensures u < |s.threads| && u != t && s.threads[u].pc != Idle
  {
    BlockerIsBusy(s, t, u);
    if u == t {
      WaitsDescend(s, t, t, t);
      assert false;
    }
  }

  lemma ReadNearer(s: State, t: Tid)
    requires Inv(s) && t < |s.threads| && Enabled(s, Read(t))
    ensures t < |Next(s, Read(t)).threads|
    ensures Next(s, Read(t)).threads[t].pc == Idle || Nearer(s, Next(s, Read(t)), t)
  {
    var th := s.threads[t];
    var l, x := th.pc.level, th.pc.x;
    assert ListsOk(s) && SearchOk(s, th, l, x) && |th.preds| == MAX_HEIGHT && |th.succs| == MAX_HEIGHT by { assert ThreadOk(s, t); }
    hide Inv, ListsOk, Beyond;
    var s' := Next(s, Read(t));
    var next := s.nodes[x].next[l];
    if next.Some? && th.key > s.nodes[next.value].key {
      NextBeyond(s, x, l);
      assert Fresh(s, th) ==> Fresh(s', s'.threads[t]) by { SameMatch(s, s', th, s'.threads[t]); }
    } else {
      assert Match(s', s'.threads[t], l);
      forall k | l < k < MAX_HEIGHT && Match(s, th, k) ensures Match(s', s'.threads[t], k) {}
    }
  }

  /** Links, and what was recorded of them, are as before. */
  lemma SameMatch(s: State, s': State, th: Thread, th': Thread)
    requires |s'.nodes| == |s.nodes| && (forall n :: 0 <= n < |s.nodes| ==> s'.nodes[n].next == s.nodes[n].next)
    requires th'.preds == th.preds && th'.succs == th.succs
    ensures forall l :: Match(s, th, l) ==> Match(s', th', l)
  {}

  lemma LockNearer(s: State, t: Tid)
    requires t < |s.threads| && Enabled(s, TakeLock(t)) && s.threads[t].pc.i < s.threads[t].height
    ensures t < |Next(s, TakeLock(t)).threads| && Nearer(s, Next(s, TakeLock(t)), t)
  {
    var s', th := Next(s, TakeLock(t)), s.threads[t];
    assert forall n :: 0 <= n < |s.nodes| ==> s'.nodes[n].next == s.nodes[n].next;
    SameMatch(s, s', th, s'.threads[t]);
  }

  lemma CheckNearer(s: State, t: Tid)
    requires t < |s.threads| && Enabled(s, Check(t)) && s.threads[t].pc.i < s.threads[t].height && |s.threads[t].preds| == MAX_HEIGHT
    ensures t < |Next(s, Check(t)).threads| && Nearer(s, Next(s, Check(t)), t)
  {
    var s', th := Next(s, Check(t)), s.threads[t];
    SameMatch(s, s', th, s'.threads[t]);
    if Fresh(s, th) { assert Match(s, th, th.pc.i); }
  }

  lemma LinkNearer(s: State, t: Tid)
    requires t < |s.threads| && (s.threads[t].pc.LinkRead? || s.threads[t].pc.LinkWrite? || s.threads[t].pc == Allocating)
    requires Enabled(s, StepOf(s, t)) && (s.threads[t].pc != Allocating ==> s.threads[t].pc.i < s.threads[t].height)
    ensures t < |Next(s, StepOf(s, t)).threads| && Nearer(s, Next(s, StepOf(s, t)), t)
  {}

  lemma UnlockNearer(s: State, t: Tid)
    requires t < |s.threads| && Enabled(s, Unlock(t))
    ensures t < |Next(s, Unlock(t)).threads|
    ensures Next(s, Unlock(t)).threads[t].pc == Idle || Nearer(s, Next(s, Unlock(t)), t)
  {}

  lemma LessNearer(s: State, t: Tid)
    requires Inv(s) && t < |s.threads| && Enabled(s, ReadLess(t))
    ensures t < |Next(s, ReadLess(t)).threads|
    ensures Next(s, ReadLess(t)).threads[t].pc == Idle || Nearer(s, Next(s, ReadLess(t)), t)
  {
    var x := s.threads[t].pc.x;
    assert ListsOk(s) && On(s, x, 0) by { assert ThreadOk(s, t); }
    hide Inv, ListsOk, Beyond;
    if s.nodes[x].next[0].Some? { NextBeyond(s, x, 0); }
  }

  /** What a step of its own leaves as it was. */
  lemma OwnFrame(s: State, t: Tid)
    requires t < |s.threads| && s.threads[t].pc != Idle && Enabled(s, StepOf(s, t))
    ensures var s' := Next(s, StepOf(s, t));
            && |s'.threads| == |s.threads| && (forall u :: 0 <= u < |s.threads| && u != t ==> s'.threads[u] == s.threads[u])
            && s'.threads[t].key == s.threads[t].key
            && (s'.threads[t].pc != Idle ==> s'.calls == s.calls && (s'.threads[t].pc.Less? <==> s.threads[t].pc.Less?))
            && (s'.threads[t].pc == Idle ==>
                  exists n :: s'.calls == s.calls + [if s.threads[t].pc.Less? then Pred(s.threads[t].key, n) else Found(s.threads[t].key, n)])
  {
    var s' := Next(s, StepOf(s, t));
    match s.threads[t].pc {
      case Search(l, x) =>
        if s'.threads[t].pc == Idle { assert s'.calls == s.calls + [Found(s.threads[t].key, s.nodes[x].next[l].value)]; }
      case Less(x) =>
        if s'.threads[t].pc == Idle { assert s'.calls == s.calls + [Pred(s.threads[t].key, x)]; }
      case Unlocking(_, _, res) =>
        if s'.threads[t].pc == Idle { assert s'.calls == s.calls + [Found(s.threads[t].key, res.value)]; }
      case _ =>
    }
  }

  lemma SoloNearer(s: State, t: Tid)
    requires Inv(s) && t < |s.threads| && s.threads[t].pc != Idle && Enabled(s, StepOf(s, t))
    ensures t < |Next(s, StepOf(s, t)).threads|
    ensures Next(s, StepOf(s, t)).threads[t].pc == Idle || Nearer(s, Next(s, StepOf(s, t)), t)
  {
    assert PcOk(s, s.threads[t]) && |s.threads[t].preds| == MAX_HEIGHT by { assert ThreadOk(s, t); }
    hide Inv, Enabled, Next, Nearer;
    match s.threads[t].pc {
      case Search(_, _) => ReadNearer(s, t);
      case Less(_) => LessNearer(s, t);
      case Locking(_) => LockNearer(s, t);
      case Checking(_) => CheckNearer(s, t);
      case Unlocking(_, _, _) => UnlockNearer(s, t);
      case _ => LinkNearer(s, t);
    }
  }

  /** The steps take s to s'. */
  ghost predicate Leads(s: State, acts: seq<Step>, s': State)
    decreases |acts|
  {
    if acts == [] then s' == s else Enabled(s, acts[0]) && Leads(Next(s, acts[0]), acts[1..], s')
  }

  lemma LeadsFirst(s: State, a: Step, acts: seq<Step>, s': State)
    requires Enabled(s, a) && Leads(Next(s, a), acts, s')
    ensures Leads(s, [a] + acts, s')
  {
    assert ([a] + acts)[1..] == acts;
  }

  lemma LeadsNowhere(s: State)
    ensures Leads(s, [], s)
  {}

  /** The call of thread t has ended and returned n. */
  ghost predicate Ends(s: State, s': State, t: Tid, n: Id)
    requires t < |s.threads|
  {
    && t < |s'.threads| && s'.threads[t].pc == Idle
    && s'.calls == s.calls + [if s.threads[t].pc.Less? then Pred(s.threads[t].key, n) else Found(s.threads[t].key, n)]
    && n < |s'.nodes| && On(s', n, 0) && (!s.threads[t].pc.Less? ==> n > 0 && s'.nodes[n].key == s.threads[t].key)
  }

  /**
    A call that from now on runs alone ends: an insertion returns a linked node
    with its key, also if it has to search once more because others were faster.
  */
  lemma {:induction false} CallEnds(s: State, t: Tid) returns (acts: seq<Step>, s': State, n: Id)
    requires Inv(s) && Alone(s, t) && s.threads[t].pc != Idle
    ensures Leads(s, acts, s') && Inv(s') && Ends(s, s', t, n)
    decreases if Fresh(s, s.threads[t]) then 0 else 1, Phase(s.threads[t].pc), Level(s.threads[t].pc), Rest(s, s.threads[t])
  {
    AloneEnabled(s, t);
    var a := StepOf(s, t);
    var s1 := Next(s, a);
    StepInv(s, a);
    OwnFrame(s, t);
    SoloNearer(s, t);
    RestBounded(s, t);
    var rest;
    if s1.threads[t].pc == Idle {
      hide Inv, Leads, Fresh, Rest, Enabled, Next, StepOf;
      s', rest := s1, [];
      LeadsNowhere(s1);
      n :| s1.calls == s.calls + [if s.threads[t].pc.Less? then Pred(s.threads[t].key, n) else Found(s.threads[t].key, n)];
      LastCall(s1);
    } else {
      hide Inv, Leads, Fresh, Rest, Enabled, Next, StepOf;
      rest, s', n := CallEnds(s1, t);
    }
    LeadsFirst(s, a, rest, s');
    acts := [a] + rest;
  }

  lemma LastCall(s: State)
    requires Inv(s) && s.calls != []
    ensures CallOk(s, s.calls[|s.calls| - 1])
  {}

  lemma RestBounded(s: State, t: Tid)
    requires Inv(s) && t < |s.threads|
    ensures Rest(s, s.threads[t]) >= 0
  {
    assert ThreadOk(s, t);
  }
}
