/**
  The skip list with one lock per node: any number of threads run
  GetWithInsertFineGrainLock and FindLessThan, one shared access per step.
*/
module SkipList {
  import opened Common

  type Tid = nat
  type Id = nat

  const MAX_HEIGHT: nat := 16
  const HEAD: Id := 0

  datatype SkNode = SkNode(key: nat, height: nat, next: seq<Option<Id>>, lock: Option<Tid>)

  datatype Pc =
    | Idle
    | Search(level: nat, x: Id)                   // about to read x->next_[level]
    | Locking(i: nat)                             // about to take the lock of preds[i]
    | Checking(i: nat)                            // about to compare succs[i] with preds[i]->next_[i]
    | Allocating                                  // about to call NewNode
    | LinkRead(i: nat, x: Id)                     // about to copy preds[i]->next_[i] to x
    | LinkWrite(i: nat, x: Id)                    // about to let preds[i]->next_[i] point to x
    | Unlocking(i: nat, upto: nat, res: Option<Id>)
    | Less(x: Id)                                 // FindLessThan, about to read x->next_[0]

  datatype Thread = Thread(pc: Pc, key: nat, height: nat, preds: seq<Id>, succs: seq<Option<Id>>, highest: nat)

  /** A finished call and what it returned. */
  datatype Call = Found(key: nat, node: Id) | Pred(key: nat, node: Id)

  /** levels[l] lists the nodes linked at level l, the head first. */
  datatype State = State(nodes: seq<SkNode>, threads: seq<Thread>, levels: seq<seq<Id>>, calls: seq<Call>)

  datatype Step =
    | Start(t: Tid, key: nat, height: nat)
    | StartLess(t: Tid, key: nat)
    | Read(t: Tid)
    | TakeLock(t: Tid)
    | Check(t: Tid)
    | Alloc(t: Tid, junk: seq<Option<Id>>)
    | CopyNext(t: Tid)
    | Publish(t: Tid)
    | Unlock(t: Tid)
    | ReadLess(t: Tid)

  function Initial(n: nat): State {
    State([SkNode(0, MAX_HEIGHT, seq(MAX_HEIGHT, _ => None), None)],
          seq(n, _ => Thread(Idle, 0, 1, seq(MAX_HEIGHT, _ => HEAD), seq(MAX_HEIGHT, _ => None), 0)),
          seq(MAX_HEIGHT, _ => [HEAD]), [])
  }

  function With(s: State, t: Tid, th: Thread): State
    requires t < |s.threads|
  {
    s.(threads := s.threads[t := th])
  }

  /** One round of FindGreaterOrEqual and, at the bottom, what follows it. */
  function ReadStep(s: State, t: Tid): State
    requires CanRead(s, t)
  {
    var th := s.threads[t];
    var (l, x) := (th.pc.level, th.pc.x);
    var next := s.nodes[x].next[l];
    if next.Some? && th.key > s.nodes[next.value].key then With(s, t, th.(pc := Search(l, next.value)))
    else
      var th1 := th.(preds := th.preds[l := x], succs := th.succs[l := next]);
      if l > 0 then With(s, t, th1.(pc := Search(l - 1, x)))
      else if next.Some? && s.nodes[next.value].key == th.key then
        With(s, t, th1.(pc := Idle)).(calls := s.calls + [Found(th.key, next.value)])
      else With(s, t, th1.(pc := Locking(0)))
  }

  ghost predicate CanRead(s: State, t: Tid) {
    && t < |s.threads| && s.threads[t].pc.Search?
    && var th := s.threads[t];
    && th.pc.level < |th.preds| && th.pc.level < |th.succs|
    && th.pc.x < |s.nodes| && th.pc.level < |s.nodes[th.pc.x].next|
    && var next := s.nodes[th.pc.x].next[th.pc.level];
       next.Some? ==> next.value < |s.nodes|
  }

  /** The pred at this level is not the one locked last. */
  predicate NewPred(th: Thread, i: nat)
    requires i < |th.preds|
  {
    i == 0 || th.preds[i] != th.preds[i - 1]
  }

  function TakeLockStep(s: State, t: Tid): State
    requires t < |s.threads| && s.threads[t].pc.Locking? && s.threads[t].pc.i < |s.threads[t].preds|
    requires s.threads[t].preds[s.threads[t].pc.i] < |s.nodes|
  {
    var th := s.threads[t];
    var i := th.pc.i;
    var n := th.preds[i];
    if NewPred(th, i) then
      With(s, t, th.(pc := Checking(i), highest := i)).(nodes := s.nodes[n := s.nodes[n].(lock := Some(t))])
    else With(s, t, th.(pc := Checking(i)))
  }

  function CheckStep(s: State, t: Tid): State
    requires t < |s.threads| && s.threads[t].pc.Checking?
    requires s.threads[t].pc.i < |s.threads[t].preds| && s.threads[t].pc.i < |s.threads[t].succs|
    requires var p := s.threads[t].preds[s.threads[t].pc.i]; p < |s.nodes| && s.threads[t].pc.i < |s.nodes[p].next|
  {
    var th := s.threads[t];
    var i := th.pc.i;
    if th.succs[i] != s.nodes[th.preds[i]].next[i] then With(s, t, th.(pc := Unlocking(0, th.highest, None)))
    else With(s, t, th.(pc := if i + 1 < th.height then Locking(i + 1) else Allocating))
  }

  /** NewNode: only the lowest link is initialised. */
  function AllocStep(s: State, t: Tid, junk: seq<Option<Id>>): State
    requires t < |s.threads|
  {
    var th := s.threads[t];
    With(s, t, th.(pc := LinkRead(0, |s.nodes|))).(nodes := s.nodes + [SkNode(th.key, th.height, [None] + junk, None)])
  }

  ghost predicate CanLink(s: State, t: Tid, i: nat, x: Id) {
    && t < |s.threads| && x < |s.nodes| && i < |s.nodes[x].next| && i < |s.threads[t].preds|
    && s.threads[t].preds[i] < |s.nodes| && i < |s.nodes[s.threads[t].preds[i]].next|
  }

  function CopyNextStep(s: State, t: Tid): State
    requires t < |s.threads| && s.threads[t].pc.LinkRead? && CanLink(s, t, s.threads[t].pc.i, s.threads[t].pc.x)
  {
    var th := s.threads[t];
    var (i, x) := (th.pc.i, th.pc.x);
    var v := s.nodes[th.preds[i]].next[i];
    With(s, t, th.(pc := LinkWrite(i, x))).(nodes := s.nodes[x := s.nodes[x].(next := s.nodes[x].next[i := v])])
  }

  /** The position of a node in a list. */
  ghost function IndexOf(ids: seq<Id>, n: Id): (j: nat)
    requires n in ids
    ensures j < |ids| && ids[j] == n
  {
    var j :| 0 <= j < |ids| && ids[j] == n; j
  }

  ghost function InsertAfter(ids: seq<Id>, p: Id, x: Id): seq<Id> {
    if p in ids then ids[..IndexOf(ids, p) + 1] + [x] + ids[IndexOf(ids, p) + 1..] else ids
  }

  ghost function PublishStep(s: State, t: Tid): State
    requires t < |s.threads| && s.threads[t].pc.LinkWrite? && CanLink(s, t, s.threads[t].pc.i, s.threads[t].pc.x)
    requires s.threads[t].pc.i < |s.levels|
  {
    var th := s.threads[t];
    var (i, x, p) := (th.pc.i, th.pc.x, th.preds[th.pc.i]);
    var pc := if i + 1 < th.height then LinkRead(i + 1, x) else Unlocking(0, i, Some(x));
    With(s, t, th.(pc := pc))
      .(nodes := s.nodes[p := s.nodes[p].(next := s.nodes[p].next[i := Some(x)])],
        levels := s.levels[i := InsertAfter(s.levels[i], p, x)])
  }

  function UnlockStep(s: State, t: Tid): State
    requires t < |s.threads| && s.threads[t].pc.Unlocking? && s.threads[t].pc.i < |s.threads[t].preds|
    requires s.threads[t].preds[s.threads[t].pc.i] < |s.nodes|
  {
    var th := s.threads[t];
    var (i, n) := (th.pc.i, th.preds[th.pc.i]);
    var nodes := if NewPred(th, i) then s.nodes[n := s.nodes[n].(lock := None)] else s.nodes;
    var pc := if i < th.pc.upto then Unlocking(i + 1, th.pc.upto, th.pc.res)
              else if th.pc.res.None? then Search(MAX_HEIGHT - 1, HEAD) else Idle;
    var calls := if i >= th.pc.upto && th.pc.res.Some? then s.calls + [Found(th.key, th.pc.res.value)] else s.calls;
    With(s, t, th.(pc := pc)).(nodes := nodes, calls := calls)
  }

  function ReadLessStep(s: State, t: Tid): State
    requires t < |s.threads| && s.threads[t].pc.Less? && s.threads[t].pc.x < |s.nodes|
    requires s.nodes[s.threads[t].pc.x].next != []
    requires var next := s.nodes[s.threads[t].pc.x].next[0]; next.Some? ==> next.value < |s.nodes|
  {
    var th := s.threads[t];
    var next := s.nodes[th.pc.x].next[0];
    if next.None? || s.nodes[next.value].key >= th.key then
      With(s, t, th.(pc := Idle)).(calls := s.calls + [Pred(th.key, th.pc.x)])
    else With(s, t, th.(pc := Less(next.value)))
  }

  /** Each step needs its program point; only TakeLock may have to wait. */
  ghost predicate AtPoint(s: State, a: Step) {
    && a.t < |s.threads|
    && var th := s.threads[a.t];
    match a {
      case Start(_, _, height) => th.pc == Idle && 1 <= height <= MAX_HEIGHT
      case StartLess(_, _) => th.pc == Idle
      case Read(_) => CanRead(s, a.t)
      case TakeLock(_) => th.pc.Locking? && th.pc.i < |th.preds| && th.preds[th.pc.i] < |s.nodes|
      case Check(_) =>
        && th.pc.Checking? && th.pc.i < |th.preds| && th.pc.i < |th.succs|
        && th.preds[th.pc.i] < |s.nodes| && th.pc.i < |s.nodes[th.preds[th.pc.i]].next|
      case Alloc(_, junk) => th.pc == Allocating && |junk| + 1 == th.height
      case CopyNext(_) => th.pc.LinkRead? && CanLink(s, a.t, th.pc.i, th.pc.x)
      case Publish(_) => th.pc.LinkWrite? && CanLink(s, a.t, th.pc.i, th.pc.x) && th.pc.i < |s.levels|
      case Unlock(_) => th.pc.Unlocking? && th.pc.i < |th.preds| && th.preds[th.pc.i] < |s.nodes|
      case ReadLess(_) =>
        && th.pc.Less? && th.pc.x < |s.nodes| && s.nodes[th.pc.x].next != []
        && (s.nodes[th.pc.x].next[0].Some? ==> s.nodes[th.pc.x].next[0].value < |s.nodes|)
    }
  }

  ghost predicate Enabled(s: State, a: Step) {
    && AtPoint(s, a)
    && (a.TakeLock? ==>
          var th := s.threads[a.t]; NewPred(th, th.pc.i) ==> s.nodes[th.preds[th.pc.i]].lock == None)
  }

  ghost function Next(s: State, a: Step): State
    requires AtPoint(s, a)
  {
    var th := s.threads[a.t];
    match a {
      case Start(t, key, height) => With(s, t, th.(pc := Search(MAX_HEIGHT - 1, HEAD), key := key, height := height))
      case StartLess(t, key) => With(s, t, th.(pc := Less(HEAD), key := key))
      case Read(t) => ReadStep(s, t)
      case TakeLock(t) => TakeLockStep(s, t)
      case Check(t) => CheckStep(s, t)
      case Alloc(t, junk) => AllocStep(s, t, junk)
      case CopyNext(t) => CopyNextStep(s, t)
      case Publish(t) => PublishStep(s, t)
      case Unlock(t) => UnlockStep(s, t)
      case ReadLess(t) => ReadLessStep(s, t)
    }
  }

  ghost predicate IsRun(run: seq<State>, acts: seq<Step>, threads: nat) {
    && |run| == |acts| + 1
    && run[0] == Initial(threads)
    && forall i :: 0 <= i < |acts| ==> Enabled(run[i], acts[i]) && run[i + 1] == Next(run[i], acts[i])
  }
}
