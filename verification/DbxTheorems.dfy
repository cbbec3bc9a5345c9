/** What the DBX protocol guarantees in every run. */
module DbxTheorems {
  import opened Common
  import opened DbxModel
  import opened DbxSteps
  import opened DbxInvariant
  import opened DbxLocal
  import opened DbxShared
  import opened DbxReclaim
  import opened DbxCommit

  lemma InitialInv(n: nat)
    ensures Inv(Initial(n))
  {
    var s := Initial(n);
    forall t | 0 <= t < |s.c.threads| ensures ThreadOk(s, t) {}
  }

  /** A step other than a commit moves one thread and leaves log and store alone. */
  ghost predicate OneThread(s: State, s': State, t: Tid) {
    && t < |s.c.threads| == |s'.c.threads| && t < |s.g.th|
    && s'.c.threads == s.c.threads[t := s'.c.threads[t]]
    && |s'.g.th| == |s.g.th| && s'.g.th == s.g.th[t := s'.g.th[t]]
    && s'.g.log == s.g.log && s'.g.store == s.g.store
    && (s'.c.threads[t].rm == s.c.threads[t].rm
        || (s.c.threads[t].rm != [] && s'.c.threads[t].rm == s.c.threads[t].rm[1..]))
    && (s.c.threads[t].pc != RoBegun && InRo(s'.c.threads[t].pc) ==>
          InRo(s.c.threads[t].pc) && s'.g.th[t].snap == s.g.th[t].snap)
  }

  predicate IsGet(a: Step) {
    a.GetOwn? || a.GetIndex? || a.GetRegion? || a.GetFirstRead? || a.GetSecondRead?
  }

  predicate IsAdd(a: Step) { a.AddIndex? || a.AddCheck? || a.AddInsert? || a.EndAbort? }

  lemma GetFrame(s: State, a: Step)
    requires Enabled(s, a) && IsGet(a)
    ensures OneThread(s, Next(s, a), a.t)
  {
    match a {
      case GetOwn(u, k) =>
      case GetIndex(u, k) =>
      case GetRegion(u) =>
      case GetFirstRead(u) =>
      case GetSecondRead(u) =>
    }
  }

  lemma AddFrame(s: State, a: Step)
    requires Enabled(s, a) && IsAdd(a)
    ensures OneThread(s, Next(s, a), a.t)
  {
    match a {
      case AddIndex(u, k, w) =>
      case AddCheck(u) =>
      case AddInsert(u) =>
      case EndAbort(u) =>
    }
  }

  lemma OtherFrame(s: State, a: Step)
    requires Enabled(s, a) && !IsGet(a) && !IsAdd(a) && !a.EndCommit?
    ensures OneThread(s, Next(s, a), a.t)
  {
    match a {
      case RcuBeginInc(u, ro) =>
      case RcuBeginClear(u) =>
      case RoSnapshot(u) =>
      case RoIndex(u, k) =>
      case RoScan(u) =>
      case RoEnd(u) =>
      case RcuEnd(u) =>
      case WaitStart(u, job) =>
      case WaitCopy(u) =>
      case WaitCheck(u) =>
      case FreeAll(u) =>
      case RemoveOne(u) =>
      case RemoveDone(u) =>
    }
  }

  lemma StepFrame(s: State, a: Step)
    requires Enabled(s, a) && !a.EndCommit?
    ensures OneThread(s, Next(s, a), a.t)
  {
    hide OneThread, Next, Enabled;
    if IsGet(a) { GetFrame(s, a); } else if IsAdd(a) { AddFrame(s, a); } else { OtherFrame(s, a); }
  }

  lemma StepCore(s: State, a: Step)
    requires Inv(s) && Enabled(s, a) && !a.EndCommit?
    ensures Core(Next(s, a))
  {
    match a {
      case RcuBeginInc(t, ro) => BeginIncKeeps(s, t);
      case RcuBeginClear(t) => BeginClearKeeps(s, t);
      case GetOwn(t, k) => OwnReadKeeps(s, t, k);
      case GetIndex(t, k) =>
        assert ThreadOk(s, t);
        IndexStepKeeps(s, t, k, GetFound(k, IndexInsert(s.c, k).1));
      case GetRegion(t) => RegionKeeps(s, t);
      case GetFirstRead(t) => FirstReadKeeps(s, t);
      case GetSecondRead(t) => SecondReadKeeps(s, t);
      case AddIndex(t, k, w) => IndexStepKeeps(s, t, k, AddFound(k, IndexInsert(s.c, k).1, w));
      case AddCheck(t) => AddTestKeeps(s, t);
      case AddInsert(t) => AddInsertKeeps(s, t);
      case EndAbort(t) => AbortKeeps(s, t);
      case RoSnapshot(t) => SnapshotKeeps(s, t);
      case RoIndex(t, k) => RoIndexKeeps(s, t, k);
      case RoScan(t) => RoScanKeeps(s, t);
      case RoEnd(t) => RoEndKeeps(s, t);
      case RcuEnd(t) => EndRcuKeeps(s, t);
      case WaitStart(t, job) => WaitStartKeeps(s, t, job);
      case WaitCopy(t) => WaitCopyKeeps(s, t);
      case WaitCheck(t) => WaitCheckKeeps(s, t);
      case FreeAll(t) => FreeKeeps(s, t);
      case RemoveOne(t) => RemoveKeeps(s, t);
      case RemoveDone(t) => RemoveDoneKeeps(s, t);
    }
  }

  /** Every step of every thread keeps the invariant. */
  lemma StepInv(s: State, a: Step)
    requires Inv(s) && Enabled(s, a)
    ensures Inv(Next(s, a))
  {
    if a.EndCommit? {
      CommitKeeps(s, a.t);
    } else {
      StepCore(s, a);
      StepFrame(s, a);
    }
  }

  lemma {:induction false} RunInv(run: seq<State>, acts: seq<Step>, threads: nat, i: nat)
    requires IsRun(run, acts, threads) && i < |run|
    ensures Inv(run[i])
  {
    if i == 0 {
      InitialInv(threads);
    } else {
      RunInv(run, acts, threads, i - 1);
      StepInv(run[i - 1], acts[i - 1]);
    }
  }

  // ----- Serializability -----

  /**
    In every run, every read of every committed transaction returned what the
    transactions before it in the log, and its own earlier writes, produce; and
    the rows found through the index are exactly the rows of the replayed log.
  */
  lemma CommittedReadsAreSerial(run: seq<State>, acts: seq<Step>, threads: nat, i: nat)
    requires IsRun(run, acts, threads) && i < |run|
    ensures Serializable(run[i].g.log)
    ensures forall k :: k in run[i].c.index ==>
              && run[i].c.index[k] < |run[i].c.nodes|
              && Find(Replay(run[i].g.log), k) == ContentOf(run[i].c, run[i].c.nodes[run[i].c.index[k]].value)
    ensures forall k :: k in Replay(run[i].g.log) ==> k in run[i].c.index
  {
    RunInv(run, acts, threads, i);
  }

  /** A commit appends exactly the caller's writes and the results the caller was given. */
  lemma CommitLogsTransaction(run: seq<State>, acts: seq<Step>, threads: nat, i: nat)
    requires IsRun(run, acts, threads) && i < |acts|
    ensures acts[i].EndCommit? ==>
              var ta := run[i].g.th[acts[i].t];
              run[i + 1].g.log == run[i].g.log + [Commit(ta.wlog, ta.got)]
    ensures !acts[i].EndCommit? ==> run[i + 1].g.log == run[i].g.log
  {
    RunInv(run, acts, threads, i);
    if acts[i].EndCommit? {
      var t := acts[i].t;
      SealedKeeps(run[i], t);
      WriteAllKeeps(Sealed(run[i], t), t);
    } else {
      StepFrame(run[i], acts[i]);
    }
  }

  /** A transaction that was handed an invalid pointer can no longer commit. */
  lemma GarbageReadCannotCommit(run: seq<State>, acts: seq<Step>, threads: nat, i: nat, t: Tid, r: ReadRec)
    requires IsRun(run, acts, threads) && i < |run| && t < |run[i].c.threads|
    requires InRw(run[i].c.threads[t].pc) && |run[i].g.th| == |run[i].c.threads|
    requires r in run[i].g.th[t].got && r.res == Garbage
    ensures !Validate(run[i].c.nodes, run[i].c.threads[t].rs)
  {
    RunInv(run, acts, threads, i);
    var s := run[i];
    assert ThreadOk(s, t);
    var j :| 0 <= j < |s.g.th[t].got| && s.g.th[t].got[j] == r;
    assert ReadOk(s, t, s.g.th[t].got[j]);
  }

  // ----- Asserts of the source -----

  /** Neither the assert(0) of Write nor the asserts of RMPool::Remove can fail. */
  lemma AssertsHold(run: seq<State>, acts: seq<Step>, threads: nat, i: nat)
    requires IsRun(run, acts, threads) && i < |run|
    ensures !run[i].c.failed
  {
    RunInv(run, acts, threads, i);
  }

  // ----- Snapshot reads -----

  /**
    At any moment of a read-only transaction, looking any key up in the index and
    scanning the node found yields the bytes of the snapshot the transaction took.
  */
  lemma SnapshotReadsAnyKey(run: seq<State>, acts: seq<Step>, threads: nat, i: nat, t: Tid, k: Key)
    requires IsRun(run, acts, threads) && i < |run| && t < |run[i].c.threads|
    requires InRo(run[i].c.threads[t].pc)
    ensures |run[i].g.th| == |run[i].c.threads|
    ensures k in run[i].c.index ==>
              && run[i].c.index[k] < |run[i].c.nodes|
              && ContentOf(run[i].c, ScanMemNode(run[i].c, run[i].c.index[k], run[i].c.threads[t].oldsnapshot))
                 == Find(run[i].g.th[t].snap, k)
    ensures k !in run[i].c.index ==> k !in run[i].g.th[t].snap
    ensures forall r :: r in run[i].g.th[t].got ==> r.res == Expect(run[i].g.th[t].snap, r.k)
  {
    RunInv(run, acts, threads, i);
    var s := run[i];
    assert ThreadOk(s, t);
    if k in s.c.index {
      ScanReadsSnapshot(s, t, s.c.index[k]);
    }
  }

  /** Only DBROTX::Begin sets the snapshot a reader answers from. */
  lemma SnapStays(s: State, a: Step, t: Tid)
    requires Enabled(s, a) && t < |s.c.threads| && a != RoSnapshot(t)
    requires |Next(s, a).c.threads| == |s.c.threads| && InRo(Next(s, a).c.threads[t].pc)
    ensures InRo(s.c.threads[t].pc) && |Next(s, a).g.th| == |s.g.th| && Next(s, a).g.th[t].snap == s.g.th[t].snap
  {
    if a.EndCommit? {
      WriteAllOthers(Sealed(s, a.t), a.t, t);
    } else {
      NotBegun(s, a, t);
      StepFrame(s, a);
      hide Next, Enabled;
    }
  }

  lemma NotBegun(s: State, a: Step, t: Tid)
    requires Enabled(s, a) && t < |s.c.threads| && a != RoSnapshot(t) && !a.EndCommit?
    requires |Next(s, a).c.threads| == |s.c.threads| && InRo(Next(s, a).c.threads[t].pc)
    ensures s.c.threads[t].pc != RoBegun
  {
    hide OneThread;
    if a.t != t {
      StepFrame(s, a);
      assert OneThread(s, Next(s, a), a.t);
    }
  }

  lemma WriteAllOthers(s: State, t: Tid, u: Tid)
    requires CanWrite(s, t) && u < |s.c.threads|
    ensures var s' := WriteAll(s, t);
            && |s'.c.threads| == |s.c.threads| && s'.c.threads[u].pc == s.c.threads[u].pc
            && s'.g.th[u].snap == s.g.th[u].snap
    decreases |s.c.threads[t].ws|
  {
    if s.c.threads[t].ws != [] {
      WriteAllOthers(WriteNext(s, t), t, u);
    }
  }

  /** The snapshot is the store as of the transaction's Begin: the log up to that moment. */
  lemma {:induction false} SnapshotIsStoreAtBegin(run: seq<State>, acts: seq<Step>, threads: nat, i: nat, t: Tid)
    returns (b: nat)
    requires IsRun(run, acts, threads) && i < |run| && t < |run[i].c.threads|
    requires InRo(run[i].c.threads[t].pc)
    ensures b < i && acts[b] == RoSnapshot(t) && |run[i].g.th| == |run[i].c.threads|
    ensures run[i].g.th[t].snap == Replay(run[b].g.log)
    ensures forall j :: b < j <= i ==> t < |run[j].c.threads| && InRo(run[j].c.threads[t].pc)
  {
    hide Inv, Next, Enabled;
    ReaderNotAtStart(run, acts, threads, i, t);
    ThreadCount(run, acts, threads, i - 1);
    ThreadCount(run, acts, threads, i);
    RunInv(run, acts, threads, i - 1);
    if acts[i - 1] == RoSnapshot(t) {
      BeginTakesStore(run[i - 1], t);
      b := i - 1;
    } else {
      SnapStays(run[i - 1], acts[i - 1], t);
      b := SnapshotIsStoreAtBegin(run, acts, threads, i - 1, t);
    }
  }

  lemma ReaderNotAtStart(run: seq<State>, acts: seq<Step>, threads: nat, i: nat, t: Tid)
    requires IsRun(run, acts, threads) && i < |run| && t < |run[i].c.threads|
    requires InRo(run[i].c.threads[t].pc)
    ensures i > 0
  {}

  lemma BeginTakesStore(s: State, t: Tid)
    requires Inv(s) && Enabled(s, RoSnapshot(t))
    ensures var s' := Next(s, RoSnapshot(t));
            |s'.g.th| == |s'.c.threads| == |s.c.threads| && s'.g.th[t].snap == Replay(s.g.log)
  {}

  lemma {:induction false} ThreadCount(run: seq<State>, acts: seq<Step>, threads: nat, i: nat)
    requires IsRun(run, acts, threads) && i < |run|
    ensures |run[i].c.threads| == threads
  {
    if i > 0 {
      ThreadCount(run, acts, threads, i - 1);
      if acts[i - 1].EndCommit? {
        var t := acts[i - 1].t;
        WriteAllOthers(Sealed(run[i - 1], t), t, t);
      } else {
        StepFrame(run[i - 1], acts[i - 1]);
      }
    }
  }
}
