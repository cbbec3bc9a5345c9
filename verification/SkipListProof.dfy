/** What every reachable state of the skip list satisfies, and that every step keeps it. */
module SkipListProof {
  import opened Common
  import opened SkipList

  // ----- The lists -----

  /** The head comes before every key. */
  ghost function Rank(s: State, n: Id): int {
    if n == HEAD || n >= |s.nodes| then -1 else s.nodes[n].key
  }

  ghost predicate NodeOk(s: State, n: Id)
    requires n < |s.nodes|
  {
    && 1 <= s.nodes[n].height <= MAX_HEIGHT && |s.nodes[n].next| == s.nodes[n].height
    && (n == HEAD ==> s.nodes[n].height == MAX_HEIGHT)
  }

  /** Member j of the list of level l, and its link. */
  ghost predicate MemberOk(s: State, l: nat, j: nat)
    requires l < |s.levels| && j < |s.levels[l]|
  {
    var ids := s.levels[l];
    && ids[j] < |s.nodes| && l < |s.nodes[ids[j]].next|
    && s.nodes[ids[j]].next[l] == (if j + 1 < |ids| then Some(ids[j + 1]) else None)
  }

  /** The list of level l starts at the head, follows the links and strictly ascends. */
  ghost predicate LevelOk(s: State, l: nat)
    requires l < |s.levels|
  {
    var ids := s.levels[l];
    && |ids| > 0 && ids[0] == HEAD
    && (forall j :: 0 <= j < |ids| ==> MemberOk(s, l, j))
    && (forall i, j :: 0 <= i < j < |ids| ==> Rank(s, ids[i]) < Rank(s, ids[j]))
  }

  ghost predicate On(s: State, n: Id, l: nat) {
    l < |s.levels| && n in s.levels[l]
  }

  ghost predicate ListsOk(s: State) {
    && |s.nodes| > 0 && |s.levels| == MAX_HEIGHT
    && (forall n :: 0 <= n < |s.nodes| ==> NodeOk(s, n))
    && (forall l :: 0 <= l < MAX_HEIGHT ==> LevelOk(s, l))
    && (forall l :: 0 <= l < MAX_HEIGHT - 1 ==> Nested(s, l))
  }

  /** The list above is part of the list of level l. */
  ghost predicate Nested(s: State, l: nat) {
    forall n :: On(s, n, l + 1) ==> On(s, n, l)
  }

  lemma OnFacts(s: State, n: Id, l: nat)
    requires ListsOk(s) && On(s, n, l)
    ensures n < |s.nodes| && l < |s.nodes[n].next| && l < MAX_HEIGHT
  {
    assert LevelOk(s, l);
    var j :| 0 <= j < |s.levels[l]| && s.levels[l][j] == n;
    assert MemberOk(s, l, j);
  }

  lemma HeadOn(s: State, l: nat)
    requires ListsOk(s) && l < MAX_HEIGHT
    ensures On(s, HEAD, l)
  {
    assert LevelOk(s, l);
    assert s.levels[l][0] == HEAD;
  }

  /** The link of a member leads to a member of greater rank. */
  lemma NextOn(s: State, n: Id, l: nat)
    requires ListsOk(s) && On(s, n, l)
    ensures n < |s.nodes| && l < |s.nodes[n].next|
    ensures var v := s.nodes[n].next[l]; v.Some? ==> On(s, v.value, l) && v.value < |s.nodes| && Rank(s, n) < Rank(s, v.value)
  {
    assert LevelOk(s, l);
    var ids := s.levels[l];
    var j :| 0 <= j < |ids| && ids[j] == n;
    assert MemberOk(s, l, j);
    if j + 1 < |ids| {
      assert MemberOk(s, l, j + 1);
    }
  }

  lemma {:induction false} OnBelow(s: State, n: Id, l: nat, k: nat)
    requires ListsOk(s) && On(s, n, l) && k <= l
    ensures On(s, n, k)
  {
    if k < l {
      assert Nested(s, l - 1);
      OnBelow(s, n, l - 1, k);
    }
  }

  /** On one level, ranks tell nodes apart, and nothing lies between a node and its link. */
  lemma Unique(s: State, n: Id, m: Id, l: nat)
    requires ListsOk(s) && On(s, n, l) && On(s, m, l)
    ensures n < |s.nodes| && m < |s.nodes|
    ensures Rank(s, n) == Rank(s, m) ==> n == m
    ensures l < |s.nodes[n].next|
    ensures Rank(s, n) < Rank(s, m) ==>
              var v := s.nodes[n].next[l]; v.Some? && v.value < |s.nodes| && Rank(s, v.value) <= Rank(s, m)
  {
    assert LevelOk(s, l);
    var ids := s.levels[l];
    var i :| 0 <= i < |ids| && ids[i] == n;
    var j :| 0 <= j < |ids| && ids[j] == m;
    assert MemberOk(s, l, i) && MemberOk(s, l, j);
    if i + 1 < |ids| { assert MemberOk(s, l, i + 1); }
  }

  // ----- Threads -----

  /** What the search recorded for level l. */
  ghost predicate Recorded(s: State, th: Thread, l: nat) {
    && l < |th.preds| && l < |th.succs|
    && On(s, th.preds[l], l) && th.preds[l] < |s.nodes| && Rank(s, th.preds[l]) < th.key
    && (th.succs[l].Some? ==>
          On(s, th.succs[l].value, l) && th.succs[l].value < |s.nodes| && th.key <= Rank(s, th.succs[l].value))
  }

  ghost predicate Descending(s: State, th: Thread, l: nat) {
    l + 1 < |th.preds| && Rank(s, th.preds[l + 1]) <= Rank(s, th.preds[l])
  }

  ghost predicate SearchOk(s: State, th: Thread, level: nat, x: Id) {
    && level < MAX_HEIGHT && On(s, x, level) && x < |s.nodes| && Rank(s, x) < th.key
    && (forall l :: level < l < MAX_HEIGHT ==> Recorded(s, th, l))
    && (forall l :: level < l < MAX_HEIGHT - 1 ==> Descending(s, th, l))
    && (level + 1 < MAX_HEIGHT && level + 1 < |th.preds| ==> Rank(s, th.preds[level + 1]) <= Rank(s, x))
  }

  /** The search is complete and the key was not there. */
  ghost predicate Complete(s: State, th: Thread) {
    && (forall l :: 0 <= l < MAX_HEIGHT ==> Recorded(s, th, l))
    && (forall l :: 0 <= l < MAX_HEIGHT - 1 ==> Descending(s, th, l))
    && (forall l :: 0 <= l < MAX_HEIGHT && l < |th.succs| && th.succs[l].Some? ==> th.key < Rank(s, th.succs[l].value))
  }

  ghost predicate Valid(s: State, th: Thread, j: nat)
    requires Recorded(s, th, j)
  {
    j < |s.nodes[th.preds[j]].next| && s.nodes[th.preds[j]].next[j] == th.succs[j]
  }

  ghost predicate ValidFrom(s: State, th: Thread, lo: nat, hi: nat) {
    forall j :: lo <= j < hi ==> Recorded(s, th, j) && Valid(s, th, j)
  }

  /** A node under construction: linked exactly below level i. */
  ghost predicate Private(s: State, th: Thread, i: nat, x: Id) {
    && 0 < x < |s.nodes| && s.nodes[x].key == th.key && s.nodes[x].height == th.height
    && (forall l :: 0 <= l < MAX_HEIGHT ==> (On(s, x, l) <==> l < i))
  }

  ghost predicate PcOk(s: State, th: Thread) {
    match th.pc {
      case Idle => true
      case Search(level, x) => SearchOk(s, th, level, x)
      case Locking(i) => i < th.height && Complete(s, th) && ValidFrom(s, th, 0, i)
                         && (i > 0 ==> LastLocked(th, i - 1))
      case Checking(i) => i < th.height && Complete(s, th) && ValidFrom(s, th, 0, i) && LastLocked(th, i)
      case Allocating => Complete(s, th) && ValidFrom(s, th, 0, th.height)
      case LinkRead(i, x) => i < th.height && Complete(s, th) && ValidFrom(s, th, i, th.height) && Private(s, th, i, x)
      case LinkWrite(i, x) => i < th.height && Complete(s, th) && ValidFrom(s, th, i, th.height) && Private(s, th, i, x)
                              && i < |s.nodes[x].next| && i < |th.succs| && s.nodes[x].next[i] == th.succs[i]
      case Unlocking(i, upto, res) =>
        && i <= upto < th.height && Complete(s, th)
        && (res.Some? ==> On(s, res.value, 0) && 0 < res.value < |s.nodes| && s.nodes[res.value].key == th.key)
      case Less(x) => On(s, x, 0) && x < |s.nodes| && Rank(s, x) < th.key
    }
  }

  /** highestLocked is the level at which the pred of level i was locked. */
  ghost predicate LastLocked(th: Thread, i: nat) {
    && th.highest <= i < |th.preds| && NewPred(th, th.highest)
    && (forall j :: th.highest <= j <= i ==> th.preds[j] == th.preds[i])
  }

  ghost predicate ThreadOk(s: State, t: Tid)
    requires t < |s.threads|
  {
    var th := s.threads[t];
    && |th.preds| == MAX_HEIGHT && |th.succs| == MAX_HEIGHT && 1 <= th.height <= MAX_HEIGHT
    && PcOk(s, th)
  }

  /** Thread th holds the lock of its pred at level j. */
  ghost predicate HeldAt(th: Thread, j: nat) {
    && j < |th.preds|
    && match th.pc {
         case Locking(i) => j < i
         case Checking(i) => j <= i
         case Allocating => j < th.height
         case LinkRead(_, _) => j < th.height
         case LinkWrite(_, _) => j < th.height
         case Unlocking(i, upto, _) => i <= j <= upto && (i > 0 && i <= |th.preds| ==> th.preds[j] != th.preds[i - 1])
         case _ => false
       }
  }

  ghost predicate LocksOk(s: State) {
    && (forall t, j: nat :: 0 <= t < |s.threads| && HeldAt(s.threads[t], j) ==>
          s.threads[t].preds[j] < |s.nodes| && s.nodes[s.threads[t].preds[j]].lock == Some(t))
    && (forall n :: 0 <= n < |s.nodes| && s.nodes[n].lock.Some? ==> HeldBy(s, s.nodes[n].lock.value, n))
  }

  ghost predicate HeldBy(s: State, t: Tid, n: Id) {
    t < |s.threads| && exists j :: 0 <= j < |s.threads[t].preds| && HeldAt(s.threads[t], j) && s.threads[t].preds[j] == n
  }

  ghost function Building(th: Thread): Option<Id> {
    if th.pc.LinkRead? || th.pc.LinkWrite? then Some(th.pc.x) else None
  }

  ghost predicate BuildsOk(s: State) {
    && (forall t, u :: 0 <= t < u < |s.threads| && Building(s.threads[t]).Some? ==>
          Building(s.threads[t]) != Building(s.threads[u]))
  }

  ghost predicate CallOk(s: State, c: Call) {
    match c {
      case Found(k, n) => 0 < n < |s.nodes| && s.nodes[n].key == k && On(s, n, 0)
      case Pred(k, n) => n < |s.nodes| && Rank(s, n) < k && On(s, n, 0)
    }
  }

  ghost predicate Inv(s: State) {
    && ListsOk(s) && LocksOk(s) && BuildsOk(s)
    && (forall t :: 0 <= t < |s.threads| ==> ThreadOk(s, t))
    && (forall i :: 0 <= i < |s.calls| ==> CallOk(s, s.calls[i]))
  }

  lemma InitialInv(n: nat)
    ensures Inv(Initial(n))
  {
    var s := Initial(n);
    forall l | 0 <= l < MAX_HEIGHT ensures LevelOk(s, l) {
      assert MemberOk(s, l, 0);
    }
  }

  // ----- What one step may change -----

  /** Only link (cn, cl) may have changed, and only x may have joined a list. */
  ghost predicate Evolves(s: State, s': State, x: Id, cn: Id, cl: nat) {
    && |s.nodes| <= |s'.nodes| && |s'.levels| == |s.levels|
    && (forall n :: 0 <= n < |s.nodes| ==> SameNode(s.nodes[n], s'.nodes[n], if n == cn then Some(cl) else None))
    && (forall n, l: nat :: On(s, n, l) ==> On(s', n, l))
    && (forall n, l: nat :: On(s', n, l) && n != x ==> On(s, n, l))
  }

  /** Equal but for the lock and at most one link. */
  ghost predicate SameNode(a: SkNode, b: SkNode, slot: Option<nat>) {
    && b.key == a.key && b.height == a.height && |b.next| == |a.next|
    && (forall l :: 0 <= l < |a.next| && slot != Some(l) ==> b.next[l] == a.next[l])
  }

  lemma EvolvesRank(s: State, s': State, x: Id, cn: Id, cl: nat, n: Id)
    requires Evolves(s, s', x, cn, cl) && n < |s.nodes|
    ensures Rank(s', n) == Rank(s, n) && s'.nodes[n].key == s.nodes[n].key
  {
    assert SameNode(s.nodes[n], s'.nodes[n], if n == cn then Some(cl) else None);
  }

  /** The levels whose links thread th has validated. */
  ghost predicate Vouched(th: Thread, j: nat) {
    match th.pc {
      case Locking(i) => j < i
      case Checking(i) => j < i
      case Allocating => j < th.height
      case LinkRead(i, _) => i <= j < th.height
      case LinkWrite(i, _) => i <= j < th.height
      case _ => false
    }
  }

  lemma RecordedKept(s: State, s': State, x: Id, cn: Id, cl: nat, th: Thread, l: nat)
    requires Evolves(s, s', x, cn, cl) && Recorded(s, th, l)
    ensures Recorded(s', th, l)
    ensures Rank(s', th.preds[l]) == Rank(s, th.preds[l])
    ensures th.succs[l].Some? ==> Rank(s', th.succs[l].value) == Rank(s, th.succs[l].value)
  {
    EvolvesRank(s, s', x, cn, cl, th.preds[l]);
    if th.succs[l].Some? { EvolvesRank(s, s', x, cn, cl, th.succs[l].value); }
  }

  lemma CompleteKept(s: State, s': State, x: Id, cn: Id, cl: nat, th: Thread)
    requires Evolves(s, s', x, cn, cl) && Complete(s, th)
    ensures Complete(s', th)
  {
    hide Evolves, Recorded, Rank;
    forall l | 0 <= l < MAX_HEIGHT ensures Recorded(s', th, l) {
      assert Recorded(s, th, l);
      RecordedKept(s, s', x, cn, cl, th, l);
    }
    forall l | 0 <= l < MAX_HEIGHT - 1 ensures Descending(s', th, l) {
      assert Recorded(s, th, l) && Recorded(s, th, l + 1) && Descending(s, th, l);
      RecordedKept(s, s', x, cn, cl, th, l);
      RecordedKept(s, s', x, cn, cl, th, l + 1);
    }
    forall l | 0 <= l < MAX_HEIGHT && l < |th.succs| && th.succs[l].Some? ensures th.key < Rank(s', th.succs[l].value) {
      assert Recorded(s, th, l);
      RecordedKept(s, s', x, cn, cl, th, l);
    }
  }

  lemma ValidKept(s: State, s': State, x: Id, cn: Id, cl: nat, th: Thread, lo: nat, hi: nat)
    requires Evolves(s, s', x, cn, cl) && ValidFrom(s, th, lo, hi)
    requires forall j :: lo <= j < hi && j < |th.preds| ==> !(th.preds[j] == cn && j == cl)
    ensures ValidFrom(s', th, lo, hi)
  {
    hide Evolves;
    forall j | lo <= j < hi ensures Recorded(s', th, j) && Valid(s', th, j) {
      assert Recorded(s, th, j) && Valid(s, th, j);
      RecordedKept(s, s', x, cn, cl, th, j);
      LinkKept(s, s', x, cn, cl, th.preds[j], j);
    }
  }

  lemma LinkKept(s: State, s': State, x: Id, cn: Id, cl: nat, n: Id, l: nat)
    requires Evolves(s, s', x, cn, cl) && n < |s.nodes| && l < |s.nodes[n].next| && !(n == cn && l == cl)
    ensures l < |s'.nodes[n].next| && s'.nodes[n].next[l] == s.nodes[n].next[l]
  {
    assert SameNode(s.nodes[n], s'.nodes[n], if n == cn then Some(cl) else None);
  }

  lemma PrivateKept(s: State, s': State, x: Id, cn: Id, cl: nat, th: Thread, i: nat, y: Id)
    requires Evolves(s, s', x, cn, cl) && Private(s, th, i, y) && y != x
    ensures Private(s', th, i, y)
  {
    assert SameNode(s.nodes[y], s'.nodes[y], if y == cn then Some(cl) else None);
  }

  lemma SearchKept(s: State, s': State, x: Id, cn: Id, cl: nat, th: Thread, level: nat, y: Id)
    requires Evolves(s, s', x, cn, cl) && SearchOk(s, th, level, y) && |th.preds| == MAX_HEIGHT
    ensures SearchOk(s', th, level, y)
  {
    assert On(s', y, level);
    hide Evolves, Recorded, Rank;
    EvolvesRank(s, s', x, cn, cl, y);
    forall l | level < l < MAX_HEIGHT ensures Recorded(s', th, l) && Rank(s', th.preds[l]) == Rank(s, th.preds[l]) {
      assert Recorded(s, th, l);
      RecordedKept(s, s', x, cn, cl, th, l);
    }
    forall l | level < l < MAX_HEIGHT - 1 ensures Descending(s', th, l) {
      assert Descending(s, th, l);
    }
  }

  /** A thread that is not the one moving stays where it may be. */
  lemma PcKept(s: State, s': State, x: Id, cn: Id, cl: nat, th: Thread)
    requires Evolves(s, s', x, cn, cl) && PcOk(s, th) && |th.preds| == MAX_HEIGHT
    requires Building(th) != Some(x)
    requires forall j: nat :: Vouched(th, j) && j < |th.preds| ==> !(th.preds[j] == cn && j == cl)
    requires th.pc.LinkWrite? ==> !(th.pc.x == cn && th.pc.i == cl)
    ensures PcOk(s', th)
  {
    hide Evolves, Complete, ValidFrom, SearchOk, Private;
    match th.pc {
      case Idle =>
      case Search(level, y) => SearchKept(s, s', x, cn, cl, th, level, y);
      case Locking(i) => CompleteKept(s, s', x, cn, cl, th); ValidKept(s, s', x, cn, cl, th, 0, i);
      case Checking(i) => CompleteKept(s, s', x, cn, cl, th); ValidKept(s, s', x, cn, cl, th, 0, i);
      case Allocating => CompleteKept(s, s', x, cn, cl, th); ValidKept(s, s', x, cn, cl, th, 0, th.height);
      case LinkRead(i, y) =>
        CompleteKept(s, s', x, cn, cl, th);
        ValidKept(s, s', x, cn, cl, th, i, th.height);
        PrivateKept(s, s', x, cn, cl, th, i, y);
      case LinkWrite(i, y) =>
        CompleteKept(s, s', x, cn, cl, th);
        ValidKept(s, s', x, cn, cl, th, i, th.height);
        PrivateKept(s, s', x, cn, cl, th, i, y);
        PrivateNode(s, th, i, y);
        LinkKept(s, s', x, cn, cl, y, i);
      case Unlocking(i, upto, res) =>
        CompleteKept(s, s', x, cn, cl, th);
        if res.Some? { MemberKept(s, s', x, cn, cl, res.value, 0); }
      case Less(y) => MemberKept(s, s', x, cn, cl, y, 0);
    }
  }

  lemma PrivateNode(s: State, th: Thread, i: nat, x: Id)
    requires Private(s, th, i, x)
    ensures x < |s.nodes|
  {}

  lemma MemberKept(s: State, s': State, x: Id, cn: Id, cl: nat, n: Id, l: nat)
    requires Evolves(s, s', x, cn, cl) && On(s, n, l) && n < |s.nodes|
    ensures On(s', n, l) && n < |s'.nodes| && Rank(s', n) == Rank(s, n) && s'.nodes[n].key == s.nodes[n].key
  {
    EvolvesRank(s, s', x, cn, cl, n);
  }

  lemma CallKept(s: State, s': State, x: Id, cn: Id, cl: nat, c: Call)
    requires Evolves(s, s', x, cn, cl) && CallOk(s, c)
    ensures CallOk(s', c)
  {
    MemberKept(s, s', x, cn, cl, c.node, 0);
  }

  /** The lists stay when no list changes and the changed link belongs to none. */
  lemma ListsKept(s: State, s': State, x: Id, cn: Id, cl: nat)
    requires ListsOk(s) && Evolves(s, s', x, cn, cl) && s'.levels == s.levels && !On(s, cn, cl)
    requires forall n :: |s.nodes| <= n < |s'.nodes| ==> NodeOk(s', n)
    ensures ListsOk(s')
  {
    forall n | 0 <= n < |s.nodes| ensures NodeOk(s', n) {
      assert NodeOk(s, n);
      assert SameNode(s.nodes[n], s'.nodes[n], if n == cn then Some(cl) else None);
    }
    forall l | 0 <= l < MAX_HEIGHT - 1 ensures Nested(s', l) {
      assert Nested(s, l);
    }
    forall l | 0 <= l < MAX_HEIGHT ensures LevelOk(s', l) {
      assert LevelOk(s, l);
      hide Evolves, LevelOk;
      LevelKept(s, s', x, cn, cl, l);
    }
  }

  lemma LevelKept(s: State, s': State, x: Id, cn: Id, cl: nat, l: nat)
    requires l < |s.levels| && LevelOk(s, l) && Evolves(s, s', x, cn, cl) && s'.levels == s.levels && !On(s, cn, cl)
    ensures LevelOk(s', l)
  {
    hide Evolves, Rank;
    var ids := s.levels[l];
    forall j | 0 <= j < |ids| ensures MemberOk(s', l, j) && Rank(s', ids[j]) == Rank(s, ids[j]) {
      assert MemberOk(s, l, j);
      assert On(s, ids[j], l);
      LinkKept(s, s', x, cn, cl, ids[j], l);
      EvolvesRank(s, s', x, cn, cl, ids[j]);
      EvolvesSize(s, s', x, cn, cl);
    }
  }

  lemma EvolvesSize(s: State, s': State, x: Id, cn: Id, cl: nat)
    requires Evolves(s, s', x, cn, cl)
    ensures |s.nodes| <= |s'.nodes|
  {}
}
