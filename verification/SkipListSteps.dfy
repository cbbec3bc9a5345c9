/** Every step of every thread keeps the invariant of the skip list. */
module SkipListSteps {
  import opened Common
  import opened SkipList
  import opened SkipListProof

  // ----- Putting the parts together -----

  /** No other thread relies on link (cn, cl) or builds node x. */
  ghost predicate Free(s: State, t: Tid, x: Id, cn: Id, cl: nat) {
    forall u :: 0 <= u < |s.threads| && u != t ==> ThreadFree(s.threads[u], x, cn, cl)
  }

  ghost predicate ThreadFree(th: Thread, x: Id, cn: Id, cl: nat) {
    && Building(th) != Some(x)
    && (forall j: nat :: Vouched(th, j) && j < |th.preds| ==> !(th.preds[j] == cn && j == cl))
    && (th.pc.LinkWrite? ==> !(th.pc.x == cn && th.pc.i == cl))
  }

  ghost predicate OnlyThread(s: State, s': State, t: Tid) {
    && t < |s.threads| == |s'.threads|
    && (forall u :: 0 <= u < |s.threads| && u != t ==> s'.threads[u] == s.threads[u])
    && (Building(s'.threads[t]).Some? ==>
          Building(s'.threads[t]) == Building(s.threads[t]) || Building(s'.threads[t]).value >= |s.nodes|)
    && (s'.calls == s.calls || (|s'.calls| == |s.calls| + 1 && s'.calls[..|s.calls|] == s.calls && CallOk(s', s'.calls[|s.calls|])))
  }

  lemma Combine(s: State, s': State, t: Tid, x: Id, cn: Id, cl: nat)
    requires Inv(s) && OnlyThread(s, s', t) && Evolves(s, s', x, cn, cl) && Free(s, t, x, cn, cl)
    requires ListsOk(s') && LocksOk(s') && ThreadOk(s', t)
    ensures Inv(s')
  {
    hide ListsOk, LocksOk, Evolves;
    forall u | 0 <= u < |s'.threads| ensures ThreadOk(s', u) {
      if u != t {
        assert ThreadOk(s, u) && ThreadFree(s.threads[u], x, cn, cl);
        PcKept(s, s', x, cn, cl, s.threads[u]);
      }
    }
    forall i | 0 <= i < |s'.calls| ensures CallOk(s', s'.calls[i]) {
      if i < |s.calls| {
        assert s'.calls[i] == s.calls[i];
        CallKept(s, s', x, cn, cl, s.calls[i]);
      }
    }
    forall u, v | 0 <= u < v < |s'.threads| && Building(s'.threads[u]).Some?
      ensures Building(s'.threads[u]) != Building(s'.threads[v])
    {
      if u == t { BuildsBelow(s, v); } else if v == t { BuildsBelow(s, u); }
    }
  }

  lemma BuildsBelow(s: State, u: Tid)
    requires Inv(s) && u < |s.threads|
    ensures Building(s.threads[u]).Some? ==> Building(s.threads[u]).value < |s.nodes|
  {
    assert ThreadOk(s, u);
  }

  /** A link outside memory disturbs nobody. */
  lemma NoSlot(s: State, t: Tid)
    requires Inv(s)
    ensures Free(s, t, |s.nodes|, |s.nodes|, 0)
  {
    forall u | 0 <= u < |s.threads| && u != t ensures ThreadFree(s.threads[u], |s.nodes|, |s.nodes|, 0) {
      assert ThreadOk(s, u);
      BuildsBelow(s, u);
    }
  }

  // ----- Locks -----

  /** The thread holds the same nodes before and after. */
  ghost predicate SameHeld(th: Thread, th': Thread) {
    && (forall j: nat :: HeldAt(th', j) ==> Holding(th, th'.preds[j]))
    && (forall j: nat :: HeldAt(th, j) ==> Holding(th', th.preds[j]))
  }

  ghost predicate Holding(th: Thread, n: Id) {
    exists j :: 0 <= j < |th.preds| && HeldAt(th, j) && th.preds[j] == n
  }

  ghost predicate SameLocks(s: State, s': State) {
    && |s.nodes| <= |s'.nodes|
    && (forall n :: 0 <= n < |s.nodes| ==> s'.nodes[n].lock == s.nodes[n].lock)
    && (forall n :: |s.nodes| <= n < |s'.nodes| ==> s'.nodes[n].lock == None)
  }

  lemma LocksKept(s: State, s': State, t: Tid)
    requires LocksOk(s) && SameLocks(s, s') && t < |s.threads| == |s'.threads|
    requires forall u :: 0 <= u < |s.threads| && u != t ==> s'.threads[u] == s.threads[u]
    requires SameHeld(s.threads[t], s'.threads[t])
    ensures LocksOk(s')
  {
    hide HeldAt;
    forall u, j: nat | 0 <= u < |s'.threads| && HeldAt(s'.threads[u], j)
      ensures j < |s'.threads[u].preds|
              && s'.threads[u].preds[j] < |s'.nodes| && s'.nodes[s'.threads[u].preds[j]].lock == Some(u)
    {
      HeldIndex(s'.threads[u], j);
      if u == t {
        assert Holding(s.threads[t], s'.threads[t].preds[j]);
        var i :| 0 <= i < |s.threads[t].preds| && HeldAt(s.threads[t], i) && s.threads[t].preds[i] == s'.threads[t].preds[j];
      }
    }
    forall n | 0 <= n < |s'.nodes| && s'.nodes[n].lock.Some? ensures HeldBy(s', s'.nodes[n].lock.value, n) {
      var u := s.nodes[n].lock.value;
      assert HeldBy(s, u, n);
      if u == t {
        var i :| 0 <= i < |s.threads[t].preds| && HeldAt(s.threads[t], i) && s.threads[t].preds[i] == n;
        assert Holding(s'.threads[t], n);
      }
    }
  }

  lemma HeldIndex(th: Thread, j: nat)
    requires HeldAt(th, j)
    ensures j < |th.preds|
  {}

  /** A step that changes nothing but its own thread. */
  lemma QuietKeeps(s: State, s': State, t: Tid)
    requires Inv(s) && OnlyThread(s, s', t) && s'.nodes == s.nodes && s'.levels == s.levels
    requires SameHeld(s.threads[t], s'.threads[t]) && ThreadOk(s', t)
    ensures Inv(s')
  {
    var n := |s.nodes|;
    assert Evolves(s, s', n, n, 0);
    NoSlot(s, t);
    hide LocksOk, Evolves, Free, SameHeld;
    ListsSame(s, s');
    LocksKept(s, s', t);
    Combine(s, s', t, n, n, 0);
  }

  lemma ListsSame(s: State, s': State)
    requires ListsOk(s) && s'.nodes == s.nodes && s'.levels == s.levels
    ensures ListsOk(s')
  {
    forall l | 0 <= l < MAX_HEIGHT ensures LevelOk(s', l) {
      assert LevelOk(s, l);
      forall j | 0 <= j < |s.levels[l]| ensures MemberOk(s', l, j) { assert MemberOk(s, l, j); }
    }
    forall n | 0 <= n < |s.nodes| ensures NodeOk(s', n) { assert NodeOk(s, n); }
    forall l | 0 <= l < MAX_HEIGHT - 1 ensures Nested(s', l) {
      assert Nested(s, l);
      forall n | On(s', n, l + 1) ensures On(s', n, l) { assert On(s, n, l); }
    }
  }

  // ----- Search -----

  lemma StartKeeps(s: State, a: Step)
    requires Inv(s) && Enabled(s, a) && (a.Start? || a.StartLess?)
    ensures Inv(Next(s, a))
  {
    var s' := Next(s, a);
    HeadOn(s, 0);
    HeadOn(s, MAX_HEIGHT - 1);
    assert ThreadOk(s, a.t);
    QuietKeeps(s, s', a.t);
  }

  /** Nothing recorded above carries the key when the bottom does not. */
  lemma KeyAbsent(s: State, th: Thread, x: Id, l: nat)
    requires ListsOk(s) && On(s, x, 0) && x < |s.nodes| && Rank(s, x) < th.key
    requires 0 < |s.nodes[x].next| && var next := s.nodes[x].next[0];
             next.Some? ==> next.value < |s.nodes| && th.key < Rank(s, next.value)
    requires l < MAX_HEIGHT && Recorded(s, th, l)
    ensures th.succs[l].Some? ==> th.key < Rank(s, th.succs[l].value)
  {
    if th.succs[l].Some? {
      var n := th.succs[l].value;
      OnBelow(s, n, l, 0);
      Unique(s, x, n, 0);
    }
  }

  lemma ReadKeeps(s: State, t: Tid)
    requires Inv(s) && Enabled(s, Read(t))
    ensures Inv(ReadStep(s, t))
  {
    var s' := ReadStep(s, t);
    var th, th' := s.threads[t], s'.threads[t];
    var l, x := th.pc.level, th.pc.x;
    var next := s.nodes[x].next[l];
    assert ThreadOk(s, t);
    NextOn(s, x, l);
    if next.Some? && th.key > s.nodes[next.value].key {
      assert SearchOk(s', th', l, next.value) by { MovedRight(s, s', th, l, x); }
    } else {
      RecordedHere(s, s', t);
      if l > 0 {
        OnBelow(s, x, l, l - 1);
      } else if th'.pc.Locking? {
        assert Complete(s', th') by { SearchEnds(s, s', th', x); }
      }
    }
    assert ThreadOk(s', t);
    QuietKeeps(s, s', t);
  }

  lemma MovedRight(s: State, s': State, th: Thread, l: nat, x: Id)
    requires ListsOk(s) && SearchOk(s, th, l, x) && l < |s.nodes[x].next| && s.nodes[x].next[l].Some?
    requires s'.nodes == s.nodes && s'.levels == s.levels
    requires var n := s.nodes[x].next[l].value; On(s, n, l) && n < |s.nodes| && Rank(s, x) < Rank(s, n) && s.nodes[n].key < th.key
    ensures SearchOk(s', th.(pc := Search(l, s.nodes[x].next[l].value)), l, s.nodes[x].next[l].value)
  {
    var th' := th.(pc := Search(l, s.nodes[x].next[l].value));
    forall k | l < k < MAX_HEIGHT ensures Recorded(s', th', k) { assert Recorded(s, th, k); }
    forall k | l < k < MAX_HEIGHT - 1 ensures Descending(s', th', k) { assert Descending(s, th, k); }
  }

  /** After the search has passed level l, that level is recorded. */
  lemma RecordedHere(s: State, s': State, t: Tid)
    requires Inv(s) && Enabled(s, Read(t)) && s' == ReadStep(s, t)
    requires var th := s.threads[t]; var next := s.nodes[th.pc.x].next[th.pc.level];
             !(next.Some? && th.key > s.nodes[next.value].key)
    ensures var th' := s'.threads[t]; var l := s.threads[t].pc.level;
            && (forall k :: l <= k < MAX_HEIGHT ==> Recorded(s', th', k))
            && (forall k :: l <= k < MAX_HEIGHT - 1 ==> Descending(s', th', k))
            && th'.preds[l] == s.threads[t].pc.x && th'.succs[l] == s.nodes[s.threads[t].pc.x].next[l]
  {
    var th, th' := s.threads[t], s'.threads[t];
    var l, x := th.pc.level, th.pc.x;
    assert ThreadOk(s, t);
    NextOn(s, x, l);
    forall k | l <= k < MAX_HEIGHT ensures Recorded(s', th', k) {
      if k > l { assert Recorded(s, th, k); }
    }
    forall k | l <= k < MAX_HEIGHT - 1 ensures Descending(s', th', k) {
      if k > l { assert Descending(s, th, k); }
    }
  }

  lemma SearchEnds(s: State, s': State, th: Thread, x: Id)
    requires ListsOk(s) && s'.nodes == s.nodes && s'.levels == s.levels
    requires On(s, x, 0) && x < |s.nodes| && Rank(s, x) < th.key && 0 < |s.nodes[x].next|
    requires var next := s.nodes[x].next[0]; next.Some? ==> next.value < |s.nodes| && th.key < Rank(s, next.value)
    requires forall k :: 0 <= k < MAX_HEIGHT ==> Recorded(s', th, k)
    requires forall k :: 0 <= k < MAX_HEIGHT - 1 ==> Descending(s', th, k)
    ensures Complete(s', th)
  {
    hide ListsOk;
    forall k | 0 <= k < MAX_HEIGHT && k < |th.succs| && th.succs[k].Some? ensures th.key < Rank(s', th.succs[k].value) {
      assert Recorded(s', th, k);
      assert Recorded(s, th, k);
      KeyAbsent(s, th, x, k);
    }
  }

  lemma ReadLessKeeps(s: State, t: Tid)
    requires Inv(s) && Enabled(s, ReadLess(t))
    ensures Inv(ReadLessStep(s, t))
  {
    var s' := ReadLessStep(s, t);
    assert ThreadOk(s, t);
    NextOn(s, s.threads[t].pc.x, 0);
    QuietKeeps(s, s', t);
  }

  // ----- Locking and checking -----

  /** Descending ranks: equal preds are neighbours. */
  lemma {:induction false} PredsDescend(s: State, th: Thread, i: nat, j: nat)
    requires Complete(s, th) && i <= j < MAX_HEIGHT && |th.preds| == MAX_HEIGHT
    ensures Rank(s, th.preds[j]) <= Rank(s, th.preds[i])
    decreases j
  {
    if i < j {
      PredsDescend(s, th, i, j - 1);
      assert Descending(s, th, j - 1);
    }
  }

  lemma PredsSame(s: State, th: Thread, i: nat, j: nat)
    requires ListsOk(s) && Complete(s, th) && i < MAX_HEIGHT && j < MAX_HEIGHT && |th.preds| == MAX_HEIGHT
    requires Rank(s, th.preds[i]) == Rank(s, th.preds[j])
    ensures th.preds[i] == th.preds[j]
  {
    assert Recorded(s, th, i) && Recorded(s, th, j);
    OnBelow(s, th.preds[i], i, 0);
    OnBelow(s, th.preds[j], j, 0);
    Unique(s, th.preds[i], th.preds[j], 0);
  }

  /** A pred that comes back was the previous one. */
  lemma PredsRun(s: State, th: Thread, i: nat, j: nat)
    requires ListsOk(s) && Complete(s, th) && i < j < MAX_HEIGHT && |th.preds| == MAX_HEIGHT && th.preds[i] == th.preds[j]
    ensures forall k :: i <= k <= j ==> th.preds[k] == th.preds[i]
  {
    hide ListsOk, Complete, Rank;
    forall k | i <= k <= j ensures th.preds[k] == th.preds[i] {
      PredsDescend(s, th, i, k);
      PredsDescend(s, th, k, j);
      PredsSame(s, th, i, k);
    }
  }

  lemma CompleteSame(s: State, s': State, th: Thread, th': Thread)
    requires Complete(s, th) && th'.preds == th.preds && th'.succs == th.succs && th'.key == th.key
    requires s'.levels == s.levels && |s'.nodes| == |s.nodes|
    requires forall n :: 0 <= n < |s.nodes| ==> s'.nodes[n].key == s.nodes[n].key
    ensures Complete(s', th')
  {
    forall l | 0 <= l < MAX_HEIGHT ensures Recorded(s', th', l) { assert Recorded(s, th, l); }
    forall l | 0 <= l < MAX_HEIGHT - 1 ensures Descending(s', th', l) {
      assert Descending(s, th, l);
      assert Recorded(s, th, l) && Recorded(s, th, l + 1);
    }
    forall l | 0 <= l < MAX_HEIGHT && l < |th'.succs| && th'.succs[l].Some? ensures th'.key < Rank(s', th'.succs[l].value) {
      assert Recorded(s, th, l);
    }
  }

  lemma ValidSame(s: State, s': State, th: Thread, th': Thread, lo: nat, hi: nat)
    requires ValidFrom(s, th, lo, hi) && th'.preds == th.preds && th'.succs == th.succs && th'.key == th.key
    requires s'.levels == s.levels && |s'.nodes| == |s.nodes|
    requires forall n :: 0 <= n < |s.nodes| ==> s'.nodes[n].key == s.nodes[n].key && s'.nodes[n].next == s.nodes[n].next
    ensures ValidFrom(s', th', lo, hi)
  {
    forall j | lo <= j < hi ensures Recorded(s', th', j) && Valid(s', th', j) {
      assert Recorded(s, th, j) && Valid(s, th, j);
    }
  }

  lemma CheckKeeps(s: State, t: Tid)
    requires Inv(s) && Enabled(s, Check(t))
    ensures Inv(CheckStep(s, t))
  {
    var s' := CheckStep(s, t);
    var th, th' := s.threads[t], s'.threads[t];
    var i := th.pc.i;
    assert ThreadOk(s, t);
    CompleteSame(s, s', th, th');
    if th'.pc.Unlocking? {
      assert SameHeld(th, th') by { FailedHeld(th, th'); }
    } else {
      assert ValidFrom(s, th, 0, i + 1) by { assert Recorded(s, th, i); }
      ValidSame(s, s', th, th', 0, i + 1);
      assert SameHeld(th, th') by { CheckedHeld(th, th'); }
    }
    assert ThreadOk(s', t);
    hide SameHeld, Complete, ValidFrom;
    QuietKeeps(s, s', t);
  }

  lemma FailedHeld(th: Thread, th': Thread)
    requires th.pc.Checking? && LastLocked(th, th.pc.i) && th' == th.(pc := Unlocking(0, th.highest, None))
    ensures SameHeld(th, th')
  {
    forall j: nat | HeldAt(th', j) ensures Holding(th, th'.preds[j]) {
      assert HeldAt(th, j);
    }
    forall j: nat | HeldAt(th, j) ensures Holding(th', th.preds[j]) {
      if j > th.highest {
        assert HeldAt(th', th.highest) && th'.preds[th.highest] == th.preds[j];
      } else {
        assert HeldAt(th', j);
      }
    }
  }

  lemma CheckedHeld(th: Thread, th': Thread)
    requires th.pc.Checking? && th.pc.i < th.height
    requires th' == th.(pc := if th.pc.i + 1 < th.height then Locking(th.pc.i + 1) else Allocating)
    ensures SameHeld(th, th')
  {
    forall j: nat ensures HeldAt(th, j) <==> HeldAt(th', j) {}
  }

  lemma TakeLockKeeps(s: State, t: Tid)
    requires Inv(s) && Enabled(s, TakeLock(t))
    ensures Inv(TakeLockStep(s, t))
  {
    var s' := TakeLockStep(s, t);
    var th, th' := s.threads[t], s'.threads[t];
    var i := th.pc.i;
    assert ThreadOk(s, t);
    CompleteSame(s, s', th, th');
    ValidSame(s, s', th, th', 0, i);
    assert LastLocked(th', i);
    assert ThreadOk(s', t);
    if NewPred(th, i) {
      var n := |s.nodes|;
      assert Evolves(s, s', n, n, 0);
      NoSlot(s, t);
      ListsKept(s, s', n, n, 0) by { assert !On(s, n, 0) by { if On(s, n, 0) { OnFacts(s, n, 0); } } }
      LockTaken(s, s', t);
      hide LocksOk, Evolves, Free, ListsOk, PcOk;
      Combine(s, s', t, n, n, 0);
    } else {
      assert SameHeld(th, th') by { RunHeld(th, th'); }
      hide SameHeld, PcOk;
      QuietKeeps(s, s', t);
    }
  }

  lemma RunHeld(th: Thread, th': Thread)
    requires th.pc.Locking? && th.pc.i < |th.preds| && !NewPred(th, th.pc.i) && th' == th.(pc := Checking(th.pc.i))
    ensures SameHeld(th, th')
  {
    var i := th.pc.i;
    forall j: nat | HeldAt(th', j) ensures Holding(th, th'.preds[j]) {
      assert HeldAt(th, if j == i then i - 1 else j);
    }
    forall j: nat | HeldAt(th, j) ensures Holding(th', th.preds[j]) {
      assert HeldAt(th', j);
    }
  }

  lemma LockTaken(s: State, s': State, t: Tid)
    requires LocksOk(s) && Enabled(s, TakeLock(t)) && s' == TakeLockStep(s, t) && NewPred(s.threads[t], s.threads[t].pc.i)
    ensures LocksOk(s')
  {
    var th, th' := s.threads[t], s'.threads[t];
    var i := th.pc.i;
    var n := th.preds[i];
    forall u, j: nat | 0 <= u < |s'.threads| && HeldAt(s'.threads[u], j)
      ensures s'.threads[u].preds[j] < |s'.nodes| && s'.nodes[s'.threads[u].preds[j]].lock == Some(u)
    {
      if u == t && j == i {
      } else {
        assert HeldAt(s.threads[u], j);
      }
    }
    forall m | 0 <= m < |s'.nodes| && s'.nodes[m].lock.Some? ensures HeldBy(s', s'.nodes[m].lock.value, m) {
      if m == n {
        assert HeldAt(th', i);
      } else {
        var u := s.nodes[m].lock.value;
        assert HeldBy(s, u, m);
        var j :| 0 <= j < |s.threads[u].preds| && HeldAt(s.threads[u], j) && s.threads[u].preds[j] == m;
        assert HeldAt(s'.threads[u], j);
      }
    }
  }

  // ----- Unlocking -----

  lemma UnlockKeeps(s: State, t: Tid)
    requires Inv(s) && Enabled(s, Unlock(t))
    ensures Inv(UnlockStep(s, t))
  {
    var s' := UnlockStep(s, t);
    var th, th' := s.threads[t], s'.threads[t];
    var i := th.pc.i;
    assert ThreadOk(s, t);
    CompleteSame(s, s', th, th');
    HeadOn(s, MAX_HEIGHT - 1);
    assert ThreadOk(s', t);
    var n := |s.nodes|;
    assert Evolves(s, s', n, n, 0);
    NoSlot(s, t);
    ListsKept(s, s', n, n, 0) by { assert !On(s, n, 0) by { if On(s, n, 0) { OnFacts(s, n, 0); } } }
    LockReleased(s, s', t);
    hide LocksOk, Evolves, Free, ListsOk, PcOk;
    Combine(s, s', t, n, n, 0);
  }

  /** What is still held after level i has been dealt with. */
  lemma StillHeld(s: State, th: Thread, th': Thread, j: nat)
    requires ListsOk(s) && Complete(s, th) && |th.preds| == MAX_HEIGHT && th.pc.Unlocking? && th.pc.upto < MAX_HEIGHT
    requires th.pc.i <= th.pc.upto && th'.preds == th.preds
    requires if th.pc.i < th.pc.upto then th'.pc == Unlocking(th.pc.i + 1, th.pc.upto, th.pc.res)
             else th'.pc.Search? || th'.pc.Idle?
    ensures HeldAt(th', j) <==> HeldAt(th, j) && th.preds[j] != th.preds[th.pc.i]
  {
    var i := th.pc.i;
    if i < j <= th.pc.upto && i > 0 && th.preds[j] == th.preds[i - 1] {
      PredsRun(s, th, i - 1, j);
    }
  }

  lemma LockReleased(s: State, s': State, t: Tid)
    requires Inv(s) && Enabled(s, Unlock(t)) && s' == UnlockStep(s, t)
    ensures LocksOk(s')
  {
    var th, th' := s.threads[t], s'.threads[t];
    var i := th.pc.i;
    var n := th.preds[i];
    assert ThreadOk(s, t);
    forall j: nat ensures HeldAt(th', j) <==> HeldAt(th, j) && th.preds[j] != n {
      StillHeld(s, th, th', j);
    }
    forall j: nat | HeldAt(th, j) && th.preds[j] == n ensures NewPred(th, i) {
      OldRun(th, j);
    }
    hide HeldAt, Complete, ListsOk;
    forall u, j: nat | 0 <= u < |s'.threads| && HeldAt(s'.threads[u], j)
      ensures j < |s'.threads[u].preds|
              && s'.threads[u].preds[j] < |s'.nodes| && s'.nodes[s'.threads[u].preds[j]].lock == Some(u)
    {
      HeldIndex(s'.threads[u], j);
      assert HeldAt(s.threads[u], j);
    }
    forall m | 0 <= m < |s'.nodes| && s'.nodes[m].lock.Some? ensures HeldBy(s', s'.nodes[m].lock.value, m) {
      var u := s.nodes[m].lock.value;
      assert HeldBy(s, u, m);
      var j :| 0 <= j < |s.threads[u].preds| && HeldAt(s.threads[u], j) && s.threads[u].preds[j] == m;
      assert HeldAt(s'.threads[u], j);
    }
  }

  /** If level i brings no new pred, its pred is no longer held. */
  lemma OldRun(th: Thread, j: nat)
    requires th.pc.Unlocking? && th.pc.i < |th.preds| && HeldAt(th, j) && th.preds[j] == th.preds[th.pc.i]
    ensures NewPred(th, th.pc.i)
  {}

  // ----- Linking -----

  lemma AllocKeeps(s: State, t: Tid, junk: seq<Option<Id>>)
    requires Inv(s) && Enabled(s, Alloc(t, junk))
    ensures Inv(AllocStep(s, t, junk))
  {
    var s' := AllocStep(s, t, junk);
    var th, th' := s.threads[t], s'.threads[t];
    var n := |s.nodes|;
    assert ThreadOk(s, t);
    assert Evolves(s, s', n, n, 0);
    forall l: nat ensures !On(s, n, l) {
      if On(s, n, l) { OnFacts(s, n, l); }
    }
    NoSlot(s, t);
    ListsKept(s, s', n, n, 0);
    CompleteKept(s, s', n, n, 0, th);
    ValidKept(s, s', n, n, 0, th, 0, th.height) by {
      forall j | 0 <= j < th.height && j < |th.preds| ensures th.preds[j] != n { assert Recorded(s, th, j); }
    }
    SameTarget(s', th, th', 0);
    forall l | 0 <= l < MAX_HEIGHT ensures On(s', n, l) <==> l < 0 { assert !On(s, n, l); }
    assert Private(s', th', 0, n);
    assert SameHeld(th, th') by { forall j: nat ensures HeldAt(th, j) <==> HeldAt(th', j) {} }
    assert ThreadOk(s', t);
    hide LocksOk, Evolves, Free, ListsOk, PcOk, SameHeld;
    LocksKept(s, s', t);
    Combine(s, s', t, n, n, 0);
  }

  /** Completeness and validity depend on the arrays, not on the program point. */
  lemma SameTarget(s: State, th: Thread, th': Thread, lo: nat)
    requires th'.preds == th.preds && th'.succs == th.succs && th'.key == th.key && th'.height == th.height
    ensures Complete(s, th) ==> Complete(s, th')
    ensures ValidFrom(s, th, lo, th.height) ==> ValidFrom(s, th', lo, th.height)
  {
    if Complete(s, th) { CompleteSame(s, s, th, th'); }
    if ValidFrom(s, th, lo, th.height) { ValidSame(s, s, th, th', lo, th.height); }
  }

  /** A node under construction at level i is nobody else's business there. */
  lemma PrivateFree(s: State, t: Tid, i: nat, x: Id)
    requires Inv(s) && t < |s.threads| && Building(s.threads[t]) == Some(x) && Private(s, s.threads[t], i, x) && i < MAX_HEIGHT
    ensures Free(s, t, x, x, i)
  {
    forall u | 0 <= u < |s.threads| && u != t ensures ThreadFree(s.threads[u], x, x, i) {
      assert ThreadOk(s, u);
      var th := s.threads[u];
      forall j: nat | Vouched(th, j) && j < |th.preds| ensures !(th.preds[j] == x && j == i) {
        assert Recorded(s, th, j);
      }
    }
  }

  lemma CopyNextKeeps(s: State, t: Tid)
    requires Inv(s) && Enabled(s, CopyNext(t))
    ensures Inv(CopyNextStep(s, t))
  {
    var s' := CopyNextStep(s, t);
    var th, th' := s.threads[t], s'.threads[t];
    var i, x := th.pc.i, th.pc.x;
    assert ThreadOk(s, t);
    assert Recorded(s, th, i) && Valid(s, th, i);
    assert Evolves(s, s', x, x, i);
    PrivateFree(s, t, i, x);
    ListsKept(s, s', x, x, i);
    CompleteKept(s, s', x, x, i, th);
    ValidKept(s, s', x, x, i, th, i, th.height) by {
      forall j | i <= j < th.height && j < |th.preds| ensures !(th.preds[j] == x && j == i) { assert Recorded(s, th, j); }
    }
    SameTarget(s', th, th', i);
    forall l | 0 <= l < MAX_HEIGHT ensures On(s', x, l) <==> l < i { assert On(s, x, l) <==> l < i; }
    assert Private(s', th', i, x);
    assert SameHeld(th, th') by { forall j: nat ensures HeldAt(th, j) <==> HeldAt(th', j) {} }
    assert ThreadOk(s', t);
    hide LocksOk, Evolves, Free, ListsOk, PcOk, SameHeld;
    LocksKept(s, s', t);
    Combine(s, s', t, x, x, i);
  }

  // ----- Publishing -----

  lemma InsertedOn(ids: seq<Id>, p: Id, x: Id, n: Id)
    requires p in ids
    ensures n in InsertAfter(ids, p, x) <==> n in ids || n == x
  {
    var k := IndexOf(ids, p) + 1;
    assert ids == ids[..k] + ids[k..];
  }

  lemma PublishEvolves(s: State, t: Tid)
    requires Inv(s) && Enabled(s, Publish(t))
    ensures var th := s.threads[t]; Evolves(s, PublishStep(s, t), th.pc.x, th.preds[th.pc.i], th.pc.i)
    ensures var th, s' := s.threads[t], PublishStep(s, t);
            forall n, l: nat :: On(s', n, l) <==> On(s, n, l) || (n == th.pc.x && l == th.pc.i)
  {
    var s' := PublishStep(s, t);
    var th := s.threads[t];
    var i, x, p := th.pc.i, th.pc.x, th.preds[th.pc.i];
    assert ThreadOk(s, t);
    assert Recorded(s, th, i);
    forall n, l: nat ensures On(s', n, l) <==> On(s, n, l) || (n == x && l == i) {
      if l == i { InsertedOn(s.levels[i], p, x, n); }
    }
  }

  /** Inserting between neighbours keeps the list linked and ascending. */
  lemma PublishedLevel(s: State, t: Tid)
    requires Inv(s) && Enabled(s, Publish(t))
    ensures LevelOk(PublishStep(s, t), s.threads[t].pc.i)
  {
    var s' := PublishStep(s, t);
    var th := s.threads[t];
    var i, x, p := th.pc.i, th.pc.x, th.preds[th.pc.i];
    assert ThreadOk(s, t);
    assert Recorded(s, th, i) && Valid(s, th, i) && LevelOk(s, i);
    var ids, ids' := s.levels[i], s'.levels[i];
    var k := IndexOf(ids, p);
    assert ids' == ids[..k + 1] + [x] + ids[k + 1..];
    assert x !in ids by { assert On(s, x, i) <==> i < i; }
    assert MemberOk(s, i, k);
    LevelInserted(s, s', i, k, x, p);
  }

  lemma LevelInserted(s: State, s': State, l: nat, k: nat, x: Id, p: Id)
    requires l < |s.levels| == |s'.levels| && LevelOk(s, l) && k < |s.levels[l]| && s.levels[l][k] == p && p < |s.nodes|
    requires s'.levels[l] == s.levels[l][..k + 1] + [x] + s.levels[l][k + 1..] && x !in s.levels[l]
    requires 0 < x < |s.nodes| == |s'.nodes| && x != p && l < |s.nodes[x].next| && l < |s.nodes[p].next|
    requires s'.nodes == s.nodes[p := s.nodes[p].(next := s.nodes[p].next[l := Some(x)])]
    requires s.nodes[x].next[l] == s.nodes[p].next[l]
    requires Rank(s, p) < Rank(s, x)
    requires k + 1 < |s.levels[l]| ==> Rank(s, x) < Rank(s, s.levels[l][k + 1])
    ensures LevelOk(s', l)
  {
    var ids, ids' := s.levels[l], s'.levels[l];
    assert MemberOk(s, l, k);
    assert forall j :: 0 <= j < |ids'| ==> ids'[j] == if j <= k then ids[j] else if j == k + 1 then x else ids[j - 1];
    forall n: Id ensures Rank(s', n) == Rank(s, n) {}
    forall j | 0 <= j < |ids'| ensures MemberOk(s', l, j) {
      if j <= k {
        assert MemberOk(s, l, j);
        if j < k { assert Rank(s, ids[j]) < Rank(s, ids[k]); }
      } else if j > k + 1 {
        assert MemberOk(s, l, j - 1);
        assert Rank(s, ids[k]) < Rank(s, ids[j - 1]);
      }
    }
    hide MemberOk, Rank;
    forall a, b | 0 <= a < b < |ids'| ensures Rank(s', ids'[a]) < Rank(s', ids'[b]) {
      AscendsThere(s, ids, k, x, a, b);
    }
  }

  lemma AscendsThere(s: State, ids: seq<Id>, k: nat, x: Id, a: nat, b: nat)
    requires forall i, j :: 0 <= i < j < |ids| ==> Rank(s, ids[i]) < Rank(s, ids[j])
    requires k < |ids| && a < b <= |ids|
    requires Rank(s, ids[k]) < Rank(s, x) && (k + 1 < |ids| ==> Rank(s, x) < Rank(s, ids[k + 1]))
    ensures var at := (j: nat) requires j <= |ids| => if j <= k then ids[j] else if j == k + 1 then x else ids[j - 1];
            Rank(s, at(a)) < Rank(s, at(b))
  {
    hide Rank;
    assert a < k ==> Rank(s, ids[a]) < Rank(s, ids[k]);
    assert b > k + 2 ==> Rank(s, ids[k + 1]) < Rank(s, ids[b - 1]);
  }

  lemma PublishLists(s: State, t: Tid)
    requires Inv(s) && Enabled(s, Publish(t))
    ensures ListsOk(PublishStep(s, t))
  {
    var s' := PublishStep(s, t);
    var th := s.threads[t];
    var i, x, p := th.pc.i, th.pc.x, th.preds[th.pc.i];
    assert ThreadOk(s, t);
    PublishEvolves(s, t);
    PublishedLevel(s, t);
    forall n | 0 <= n < |s'.nodes| ensures NodeOk(s', n) { assert NodeOk(s, n); }
    forall l | 0 <= l < MAX_HEIGHT ensures LevelOk(s', l) {
      if l != i {
        assert LevelOk(s, l);
        OtherLevel(s, s', x, p, i, l);
      }
    }
    forall l | 0 <= l < MAX_HEIGHT - 1 ensures Nested(s', l) {
      assert Nested(s, l);
      forall n | On(s', n, l + 1) ensures On(s', n, l) {
        if n == x && l + 1 == i { assert On(s, x, l) <==> l < i; } else { assert On(s, n, l + 1); assert On(s, n, l); }
      }
    }
  }

  lemma OtherLevel(s: State, s': State, x: Id, cn: Id, cl: nat, l: nat)
    requires l < |s.levels| == |s'.levels| && LevelOk(s, l) && l != cl && s'.levels[l] == s.levels[l]
    requires Evolves(s, s', x, cn, cl)
    ensures LevelOk(s', l)
  {
    assert |s'.levels| == |s.levels|;
    hide Evolves, Rank;
    var ids := s.levels[l];
    forall j | 0 <= j < |ids| ensures MemberOk(s', l, j) && Rank(s', ids[j]) == Rank(s, ids[j]) {
      assert MemberOk(s, l, j);
      LinkKept(s, s', x, cn, cl, ids[j], l);
      EvolvesRank(s, s', x, cn, cl, ids[j]);
      EvolvesSize(s, s', x, cn, cl);
    }
  }

  /** The link being written belongs to a node this thread has locked. */
  lemma LockedFree(s: State, t: Tid, i: nat, x: Id)
    requires Inv(s) && t < |s.threads| && s.threads[t].pc == LinkWrite(i, x)
    ensures i < MAX_HEIGHT && i < |s.threads[t].preds| && Free(s, t, x, s.threads[t].preds[i], i)
  {
    assert ThreadOk(s, t);
    var p := s.threads[t].preds[i];
    assert HeldAt(s.threads[t], i);
    assert Recorded(s, s.threads[t], i);
    forall u | 0 <= u < |s.threads| && u != t ensures ThreadFree(s.threads[u], x, p, i) {
      assert ThreadOk(s, u);
      var th := s.threads[u];
      forall j: nat | Vouched(th, j) && j < |th.preds| ensures !(th.preds[j] == p && j == i) {
        assert HeldAt(th, j);
      }
    }
  }

  lemma PublishKeeps(s: State, t: Tid)
    requires Inv(s) && Enabled(s, Publish(t))
    ensures Inv(PublishStep(s, t))
  {
    var s' := PublishStep(s, t);
    var th, th' := s.threads[t], s'.threads[t];
    var i, x, p := th.pc.i, th.pc.x, th.preds[th.pc.i];
    PublishEvolves(s, t);
    PublishLists(s, t);
    LockedFree(s, t, i, x);
    PublishedThread(s, t);
    assert SameHeld(th, th') by { assert ThreadOk(s, t); PublishedHeld(th, th'); }
    hide LocksOk, Evolves, Free, ListsOk, PcOk, SameHeld;
    LocksKept(s, s', t);
    Combine(s, s', t, x, p, i);
  }

  lemma PublishedHeld(th: Thread, th': Thread)
    requires th.pc.LinkWrite? && th.pc.i < th.height <= |th.preds|
    requires th' == th.(pc := if th.pc.i + 1 < th.height then LinkRead(th.pc.i + 1, th.pc.x)
                              else Unlocking(0, th.pc.i, Some(th.pc.x)))
    ensures SameHeld(th, th')
  {
    forall j: nat ensures HeldAt(th, j) <==> HeldAt(th', j) {}
  }

  lemma PublishedThread(s: State, t: Tid)
    requires Inv(s) && Enabled(s, Publish(t))
    ensures ThreadOk(PublishStep(s, t), t)
  {
    var s' := PublishStep(s, t);
    var th, th' := s.threads[t], s'.threads[t];
    var i, x, p := th.pc.i, th.pc.x, th.preds[th.pc.i];
    assert ThreadOk(s, t);
    PublishEvolves(s, t);
    CompleteKept(s, s', x, p, i, th);
    assert ValidFrom(s, th, i + 1, th.height) by {
      forall j | i + 1 <= j < th.height ensures Recorded(s, th, j) && Valid(s, th, j) {}
    }
    ValidKept(s, s', x, p, i, th, i + 1, th.height);
    SameTarget(s', th, th', i + 1);
    assert 0 < x < |s'.nodes| && s'.nodes[x].key == th.key && s'.nodes[x].height == th.height;
    forall l | 0 <= l < MAX_HEIGHT ensures On(s', x, l) <==> l < i + 1 {
      assert On(s, x, l) <==> l < i;
    }
  }
}
