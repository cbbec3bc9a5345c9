/** Every run of concurrent writers keeps log, memtable and sequence numbers in step. */
module GroupCommitProof {
  import opened Common
  import opened WriteBatch
  import opened GroupCommit

  /** The updates of the first n writers that succeeded, in arrival order. */
  ghost function Done(ws: seq<Writer>, n: nat): seq<Op>
    requires n <= |ws|
  {
    if n == 0 then []
    else if ws[n - 1].status == Ok then Done(ws, n - 1) + Ops(ws[n - 1])
    else Done(ws, n - 1)
  }

  ghost function LogOps(log: seq<Record>): seq<Op> {
    if log == [] then [] else LogOps(log[..|log| - 1]) + log[|log| - 1].ops
  }

  /** How many writers have left the queue. */
  ghost function Left(s: State): int { |s.writers| - |s.queue| }

  ghost predicate QueueOk(s: State) {
    && Left(s) >= 0
    && (forall i :: 0 <= i < |s.queue| ==> s.queue[i] == Left(s) + i)
    && (forall i :: 0 <= i < |s.writers| ==> (s.writers[i].status == Waiting <==> i >= Left(s)))
  }

  /** The successful updates, and those of the leader once they are in the log. */
  ghost function Accepted(s: State): seq<Op>
    requires 0 <= Left(s) <= |s.writers|
  {
    if s.leader.Some? && s.leader.value.record.Some? then Done(s.writers, Left(s)) + s.leader.value.ops
    else Done(s.writers, Left(s))
  }

  ghost function InsertedCount(s: State): nat {
    if s.leader.None? then 0
    else match s.leader.value.phase
         case ToInsert(k) => k
         case ToFinish => |s.leader.value.ops|
         case _ => 0
  }

  /** The log holds exactly the successful batches, then the one in flight, numbered without gaps. */
  ghost predicate LogOk(s: State)
    requires 0 <= Left(s) <= |s.writers|
  {
    && LogOps(s.log) == Accepted(s)
    && forall j :: 0 <= j < |s.log| ==> s.log[j].seqno == 1 + |LogOps(s.log[..j])|
  }

  /** The memtable holds a prefix of the logged updates, numbered from 1. */
  ghost predicate MemOk(s: State)
    requires 0 <= Left(s) <= |s.writers|
  {
    && s.lastSequence == |Done(s.writers, Left(s))|
    && |s.mem| == s.lastSequence + InsertedCount(s) <= |Accepted(s)|
    && forall i :: 0 <= i < |s.mem| ==> s.mem[i] == Entry(i + 1, Accepted(s)[i])
  }

  ghost predicate LeaderOk(s: State)
    requires 0 <= Left(s) <= |s.writers|
  {
    s.leader.Some? ==>
      var ld := s.leader.value;
      && Left(s) == ld.w <= ld.lastWriter < |s.writers| && ld.seqno == s.lastSequence + 1
      && (if ld.ok && s.writers[ld.w].batch.Some? then
            && ld.ops == OpsRange(s.writers, ld.w, ld.lastWriter + 1)
            && (ld.record.Some? <==> ld.phase != ToLog)
            && (ld.record.Some? ==> ld.record.value == |s.log| - 1)
            && (ld.phase == ToSync ==> s.log[|s.log| - 1].file == s.file)
            && (forall i :: ld.w <= i <= ld.lastWriter && s.writers[i].sync ==> s.writers[ld.w].sync)
            && (s.writers[ld.w].sync && (ld.phase.ToInsert? || ld.phase == ToFinish) ==> s.log[|s.log| - 1].synced)
            && (ld.phase.ToInsert? ==> ld.phase.k <= |ld.ops|)
          else
            ld.ops == [] && ld.record == None && ld.phase == ToFinish && ld.lastWriter == ld.w)
  }

  ghost function OpsRange(ws: seq<Writer>, a: nat, b: nat): seq<Op>
    requires a <= b <= |ws|
  {
    if a == b then [] else OpsRange(ws, a, b - 1) + Ops(ws[b - 1])
  }

  /** A writer that succeeded has its batch in the log, synced if it asked for that. */
  ghost predicate RecordsOk(s: State) {
    forall i :: 0 <= i < |s.writers| && s.writers[i].status == Ok && s.writers[i].batch.Some? ==>
      && s.writers[i].record.Some? && s.writers[i].record.value < |s.log|
      && (s.writers[i].sync ==> s.log[s.writers[i].record.value].synced)
  }

  ghost predicate Inv(s: State) {
    QueueOk(s) && LogOk(s) && MemOk(s) && LeaderOk(s) && RecordsOk(s)
  }

  lemma NothingYet()
    ensures Done([], 0) == [] && LogOps([]) == []
  {}

  lemma EmptyInv(s: State)
    requires |s.writers| == 0 && |s.queue| == 0 && s.leader == None && |s.log| == 0 && |s.mem| == 0 && s.lastSequence == 0
    ensures Inv(s)
  {
    assert s.writers == [] && s.log == [];
    NothingYet();
    hide Done, LogOps, OpsRange;
    assert QueueOk(s) && LeaderOk(s) && RecordsOk(s);
    assert LogOk(s) && MemOk(s);
  }

  lemma InitialInv()
    ensures Inv(INITIAL)
  {
    hide Inv;
    EmptyInv(INITIAL);
  }

  // ----- Lists of updates -----

  lemma {:induction false} DoneFrame(ws: seq<Writer>, ws': seq<Writer>, n: nat)
    requires n <= |ws| && n <= |ws'| && forall i :: 0 <= i < n ==> ws'[i] == ws[i]
    ensures Done(ws', n) == Done(ws, n)
  {
    if n > 0 { DoneFrame(ws, ws', n - 1); }
  }

  lemma {:induction false} RangeFrame(ws: seq<Writer>, ws': seq<Writer>, a: nat, b: nat)
    requires a <= b <= |ws| && b <= |ws'| && forall i :: a <= i < b ==> ws'[i].batch == ws[i].batch
    ensures OpsRange(ws', a, b) == OpsRange(ws, a, b)
    decreases b
  {
    if a < b { RangeFrame(ws, ws', a, b - 1); }
  }

  lemma {:induction false} OpsOfRange(ws: seq<Writer>, q: seq<Wid>, a: nat, n: nat)
    requires n <= |q| && (forall i :: 0 <= i < n ==> q[i] == a + i) && a + n <= |ws|
    ensures (forall j :: 0 <= j < |q[..n]| ==> q[..n][j] < |ws|) && OpsOf(ws, q[..n]) == OpsRange(ws, a, a + n)
  {
    if n > 0 {
      OpsOfRange(ws, q, a, n - 1);
      assert q[..n][..n - 1] == q[..n - 1];
    }
  }

  lemma LogSnoc(log: seq<Record>, r: Record)
    ensures LogOps(log + [r]) == LogOps(log) + r.ops
  {
    assert (log + [r])[..|log|] == log;
  }

  lemma {:induction false} LogFrame(log: seq<Record>, log': seq<Record>)
    requires |log'| == |log| && forall i :: 0 <= i < |log| ==> log'[i].ops == log[i].ops
    ensures LogOps(log') == LogOps(log)
  {
    if log != [] { LogFrame(log[..|log| - 1], log'[..|log| - 1]); }
  }

  // ----- Steps -----

  lemma ArriveKeeps(s: State, a: Step)
    requires Inv(s) && a.Arrive?
    ensures Inv(Next(s, a))
  {
    hide Done, LogOps, OpsRange;
    var s' := Next(s, a);
    assert QueueOk(s') && Left(s') == Left(s);
    DoneFrame(s.writers, s'.writers, Left(s));
    if s.leader.Some? {
      var ld := s.leader.value;
      RangeFrame(s.writers, s'.writers, ld.w, ld.lastWriter + 1);
    }
    assert LogOk(s') && MemOk(s');
    assert LeaderOk(s');
    assert RecordsOk(s');
  }

  lemma BeginKeeps(s: State, a: Step)
    requires Inv(s) && a.Begin? && Enabled(s, a)
    ensures Inv(Next(s, a))
  {
    hide Done, LogOps, OpsRange, GroupEnd, OpsOf;
    var s' := Next(s, a);
    var w := s.queue[0];
    var first := s.writers[w];
    assert w == Left(s) + 0;
    if a.room && first.batch.Some? {
      var n := GroupEnd(s.writers, s.queue, first.sync, 1, first.bytes, MaxSize(first.bytes));
      assert s.queue[n - 1] == w + n - 1;
      OpsOfRange(s.writers, s.queue, w, n);
      forall i | w <= i <= w + n - 1 && s.writers[i].sync ensures first.sync {
        if i > w {
          assert s.queue[i - w] == i;
          GroupSync(s.writers, s.queue, first.sync, 1, first.bytes, MaxSize(first.bytes), i - w);
        }
      }
    }
  }

  lemma NumberedSnoc(log: seq<Record>, r: Record, j: nat)
    requires j <= |log| && (forall j :: 0 <= j < |log| ==> log[j].seqno == 1 + |LogOps(log[..j])|)
    requires r.seqno == 1 + |LogOps(log)|
    ensures (log + [r])[j].seqno == 1 + |LogOps((log + [r])[..j])|
  {
    hide LogOps;
    assert (log + [r])[..j] == log[..j];
    if j == |log| { assert log[..j] == log; }
  }

  lemma WriteLogKeeps(s: State)
    requires Inv(s) && Enabled(s, WriteLog)
    ensures Inv(Logged(s))
  {
    hide LogOps, Done;
    var s' := Logged(s);
    var ld := s.leader.value;
    var r := Record(ld.seqno, ld.ops, s.file, false);
    LogSnoc(s.log, r);
    var done := Done(s.writers, Left(s));
    forall j | 0 <= j < |s'.log| ensures s'.log[j].seqno == 1 + |LogOps(s'.log[..j])| {
      NumberedSnoc(s.log, r, j);
    }
    assert forall i :: 0 <= i < |s.mem| ==> (done + ld.ops)[i] == done[i];
    assert LogOk(s') && MemOk(s');
    assert LeaderOk(s') && RecordsOk(s');
  }

  lemma SyncLogKeeps(s: State)
    requires Inv(s) && Enabled(s, SyncLog)
    ensures Inv(Synced(s))
  {
    hide LogOps, Done;
    var s' := Synced(s);
    LogFrame(s.log, s'.log);
    forall j | 0 <= j < |s'.log| ensures s'.log[j].seqno == 1 + |LogOps(s'.log[..j])| {
      LogFrame(s.log[..j], s'.log[..j]);
    }
    assert LogOk(s') && MemOk(s');
    assert LeaderOk(s') && RecordsOk(s');
  }

  lemma InsertKeeps(s: State)
    requires Inv(s) && Enabled(s, InsertOne)
    ensures Inv(Inserted(s))
  {
    hide LogOps, Done, OpsRange;
    var s' := Inserted(s);
    var ld := s.leader.value;
    var done := Done(s.writers, Left(s));
    assert |s.mem| == |done| + ld.phase.k && Accepted(s) == done + ld.ops == Accepted(s');
    if ld.phase.k < |ld.ops| {
      assert (done + ld.ops)[|done| + ld.phase.k] == ld.ops[ld.phase.k];
      assert s'.mem[|s.mem|] == Entry(|s.mem| + 1, Accepted(s')[|s.mem|]);
    }
    assert LogOk(s') && MemOk(s');
    assert LeaderOk(s') && RecordsOk(s');
  }

  // ----- Finish -----

  lemma {:induction false} PoppedIs(q: seq<Wid>, a: nat, last: nat)
    requires (forall i :: 0 <= i < |q| ==> q[i] == a + i) && a <= last < a + |q|
    ensures Popped(q, last) == last - a + 1
    decreases |q|
  {
    assert q[0] == a + 0;
    if a < last {
      forall i | 0 <= i < |q[1..]| ensures q[1..][i] == a + 1 + i { assert q[1..][i] == q[i + 1]; }
      PoppedIs(q[1..], a + 1, last);
    }
  }

  lemma {:induction false} ReleaseIs(ws: seq<Writer>, q: seq<Wid>, a: nat, n: nat, status: Status, record: Option<nat>)
    requires n <= |q| && (forall i :: 0 <= i < n ==> q[i] == a + i) && a + n <= |ws|
    ensures (forall j :: 0 <= j < |q[..n]| ==> q[..n][j] < |ws|)
    ensures var ws' := Release(ws, q[..n], status, record);
            forall i :: 0 <= i < |ws| ==>
              ws'[i] == if a <= i < a + n then ws[i].(status := status, record := if ws[i].batch.Some? then record else None)
                        else ws[i]
  {
    if n > 0 {
      ReleaseIs(ws, q, a, n - 1, status, record);
      assert q[..n][..n - 1] == q[..n - 1];
    }
  }

  /** Releasing a group with Ok adds its updates to what is done; with Failed it adds none. */
  lemma {:induction false} DoneGrows(ws: seq<Writer>, ws': seq<Writer>, a: nat, b: nat, ok: bool)
    requires a <= b <= |ws| == |ws'| && (forall i :: 0 <= i < a ==> ws'[i] == ws[i])
    requires forall i :: a <= i < b ==> ws'[i].batch == ws[i].batch && ws'[i].status == if ok then Ok else Failed
    ensures Done(ws', b) == if ok then Done(ws, a) + OpsRange(ws, a, b) else Done(ws, a)
    decreases b
  {
    if a == b {
      DoneFrame(ws, ws', a);
      assert Done(ws, a) + [] == Done(ws, a);
    } else {
      DoneGrows(ws, ws', a, b - 1, ok);
      if ok { Assoc(Done(ws, a), OpsRange(ws, a, b - 1), Ops(ws[b - 1])); }
    }
  }

  lemma FinishKeeps(s: State)
    requires Inv(s) && Enabled(s, Finish)
    ensures Inv(Finished(s))
  {
    hide LogOps, Done, OpsRange, Release, Popped;
    var s' := Finished(s);
    var ld := s.leader.value;
    var a, n := Left(s), ld.lastWriter - Left(s) + 1;
    PoppedIs(s.queue, a, ld.lastWriter);
    ReleaseIs(s.writers, s.queue, a, n, if ld.ok then Ok else Failed, ld.record);
    assert Left(s') == a + n;
    assert QueueOk(s');
    FinishedDone(s);
    assert LogOk(s') && MemOk(s');
    assert RecordsOk(s') by {
      forall i | 0 <= i < |s'.writers| && s'.writers[i].status == Ok && s'.writers[i].batch.Some?
        ensures s'.writers[i].record.Some? && s'.writers[i].record.value < |s'.log|
                && (s'.writers[i].sync ==> s'.log[s'.writers[i].record.value].synced)
      {
        if a <= i < a + n { assert s.writers[i].status == Waiting; }
      }
    }
  }

  /** What is done after Finish is what was accepted before. */
  lemma FinishedDone(s: State)
    requires Inv(s) && Enabled(s, Finish)
    ensures var s' := Finished(s);
            && 0 <= Left(s') <= |s'.writers| && Done(s'.writers, Left(s')) == Accepted(s)
            && |Accepted(s)| == s.lastSequence + |s.leader.value.ops|
  {
    hide LogOps, Release, Popped, Done, OpsRange, LogOk, RecordsOk;
    var s' := Finished(s);
    var ld := s.leader.value;
    var a, n := Left(s), ld.lastWriter - Left(s) + 1;
    PoppedIs(s.queue, a, ld.lastWriter);
    ReleaseIs(s.writers, s.queue, a, n, if ld.ok then Ok else Failed, ld.record);
    DoneGrows(s.writers, s'.writers, a, a + n, ld.ok);
    if ld.ok && s.writers[ld.w].batch.None? {
      OneEmpty(s.writers, a);
      assert Done(s.writers, a) + [] == Done(s.writers, a);
    }
  }

  lemma OneEmpty(ws: seq<Writer>, a: nat)
    requires a < |ws| && ws[a].batch.None?
    ensures OpsRange(ws, a, a + 1) == []
  {}

  lemma StepInv(s: State, a: Step)
    requires Inv(s) && Enabled(s, a)
    ensures Inv(Next(s, a))
  {
    match a {
      case Arrive(_, _, _) => ArriveKeeps(s, a);
      case Begin(_, _) => BeginKeeps(s, a);
      case WriteLog => WriteLogKeeps(s);
      case SyncLog => SyncLogKeeps(s);
      case InsertOne => InsertKeeps(s);
      case Finish => FinishKeeps(s);
    }
  }

  lemma {:induction false} RunInv(run: seq<State>, acts: seq<Step>, i: nat)
    requires IsRun(run, acts) && i < |run|
    ensures Inv(run[i])
  {
    hide Inv, Next, Enabled;
    if i == 0 {
      InitialInv();
    } else {
      RunInv(run, acts, i - 1);
      StepInv(run[i - 1], acts[i - 1]);
    }
  }

  // ----- What callers and readers may rely on -----

  lemma {:induction false} DonePlaces(ws: seq<Writer>, i: nat, n: nat)
    requires i < n <= |ws| && ws[i].status == Ok
    ensures |Done(ws, i)| + |Ops(ws[i])| <= |Done(ws, n)|
    ensures Done(ws, n)[|Done(ws, i)|..|Done(ws, i)| + |Ops(ws[i])|] == Ops(ws[i])
    decreases n
  {
    if n > i + 1 { DonePlaces(ws, i, n - 1); }
  }

  /** Every successful batch is in the memtable once, whole, in arrival order, under its own run of numbers. */
  lemma BatchInserted(run: seq<State>, acts: seq<Step>, n: nat, i: Wid, k: nat)
    requires IsRun(run, acts) && n < |run| && i < |run[n].writers| && run[n].writers[i].status == Ok
    requires k < |Ops(run[n].writers[i])|
    ensures var s := run[n]; var at := |Done(s.writers, i)| + k;
            at < s.lastSequence <= |s.mem| && s.mem[at] == Entry(at + 1, Ops(s.writers[i])[k])
  {
    RunInv(run, acts, n);
    var s := run[n];
    hide LogOps, OpsRange;
    var done := Done(s.writers, Left(s));
    DonePlaces(s.writers, i, Left(s));
    var at := |Done(s.writers, i)| + k;
    assert done[|Done(s.writers, i)|..|Done(s.writers, i)| + |Ops(s.writers[i])|][k] == done[at];
    assert Accepted(s)[at] == done[at];
  }

  /** Records of the log follow each other without gap or overlap, and together hold the accepted updates. */
  lemma LogIsContiguous(run: seq<State>, acts: seq<Step>, n: nat, j: nat)
    requires IsRun(run, acts) && n < |run| && j < |run[n].log|
    ensures 0 <= Left(run[n]) && LogOps(run[n].log) == Accepted(run[n])
    ensures run[n].log[j].seqno == 1 + |LogOps(run[n].log[..j])|
    ensures j + 1 < |run[n].log| ==> run[n].log[j + 1].seqno == run[n].log[j].seqno + |run[n].log[j].ops|
  {
    RunInv(run, acts, n);
    var log := run[n].log;
    assert log[..j + 1] == log[..j] + [log[j]];
    LogSnoc(log[..j], log[j]);
  }

  /** A sync write that has returned OK is in a synced record. */
  lemma SyncedBeforeOk(run: seq<State>, acts: seq<Step>, n: nat, i: Wid)
    requires IsRun(run, acts) && n < |run| && i < |run[n].writers|
    requires run[n].writers[i].status == Ok && run[n].writers[i].batch.Some? && run[n].writers[i].sync
    ensures var r := run[n].writers[i].record; r.Some? && r.value < |run[n].log| && run[n].log[r.value].synced
  {
    RunInv(run, acts, n);
  }

  /** Calls finish in the order they arrived. */
  lemma FirstComeFirstServed(run: seq<State>, acts: seq<Step>, n: nat, i: Wid, j: Wid)
    requires IsRun(run, acts) && n < |run| && i < j < |run[n].writers|
    requires run[n].writers[j].status != Waiting
    ensures run[n].writers[i].status != Waiting
  {
    RunInv(run, acts, n);
  }

  /** What a reader at snapshot `sn` finds in the memtable. */
  ghost predicate Sees(s: State, sn: nat, e: Entry) { e in s.mem && e.seqno <= sn }

  /** Published sequence numbers show whole batches only: exactly the finished ones. */
  lemma ReadersSeeWholeBatches(run: seq<State>, acts: seq<Step>, n: nat, e: Entry)
    requires IsRun(run, acts) && n < |run|
    ensures 0 <= Left(run[n]) <= |run[n].writers| && run[n].lastSequence == |Done(run[n].writers, Left(run[n]))|
    ensures Sees(run[n], run[n].lastSequence, e) <==>
              1 <= e.seqno <= run[n].lastSequence && e.op == Done(run[n].writers, Left(run[n]))[e.seqno - 1]
  {
    RunInv(run, acts, n);
    var s := run[n];
    hide LogOps, OpsRange, Done;
    var done := Done(s.writers, Left(s));
    assert forall i :: 0 <= i < |done| ==> Accepted(s)[i] == done[i];
    if 1 <= e.seqno <= s.lastSequence {
      assert s.mem[e.seqno - 1] == Entry(e.seqno, done[e.seqno - 1]);
    }
  }

  lemma {:induction false} MemOnlyGrows(run: seq<State>, acts: seq<Step>, i: nat, j: nat)
    requires IsRun(run, acts) && i <= j < |run|
    ensures run[i].mem <= run[j].mem
    decreases j
  {
    if i < j {
      MemOnlyGrows(run, acts, i, j - 1);
      hide GroupEnd, OpsOf, Release, Popped;
      var a := acts[j - 1];
      assert run[j] == Next(run[j - 1], a);
    }
  }

  /** A snapshot taken at any moment shows the same updates ever after. */
  lemma SnapshotsStay(run: seq<State>, acts: seq<Step>, i: nat, j: nat, e: Entry)
    requires IsRun(run, acts) && i <= j < |run|
    ensures Sees(run[j], run[i].lastSequence, e) <==> Sees(run[i], run[i].lastSequence, e)
  {
    hide IsRun, Inv;
    RunInv(run, acts, i);
    RunInv(run, acts, j);
    MemOnlyGrows(run, acts, i, j);
    MemNumbers(run[i]);
    MemNumbers(run[j]);
    if Sees(run[j], run[i].lastSequence, e) {
      var x :| 0 <= x < |run[j].mem| && run[j].mem[x] == e;
      assert run[i].mem[x] == e;
    }
  }

  lemma MemNumbers(s: State)
    requires Inv(s)
    ensures s.lastSequence <= |s.mem| && forall x :: 0 <= x < |s.mem| ==> s.mem[x].seqno == x + 1
  {
    hide LogOps, OpsRange, Done, Accepted;
  }

  // ----- Every call comes to an end -----

  /** Some step other than a new arrival is possible while anybody waits. */
  lemma WaitingCanMove(run: seq<State>, acts: seq<Step>, n: nat, i: Wid) returns (a: Step)
    requires IsRun(run, acts) && n < |run| && i < |run[n].writers| && run[n].writers[i].status == Waiting
    ensures !a.Arrive? && Enabled(run[n], a)
  {
    RunInv(run, acts, n);
    var s := run[n];
    assert QueueOk(s) && LeaderOk(s);
    if s.leader.None? {
      a := Begin(true, false);
    } else {
      a := LeaderStep(s.leader.value.phase);
    }
  }

  function LeaderStep(phase: Phase): Step {
    match phase
    case ToLog => WriteLog
    case ToSync => SyncLog
    case ToInsert(_) => InsertOne
    case ToFinish => Finish
  }

  /** The steps take s to s'. */
  ghost predicate Leads(s: State, acts: seq<Step>, s': State)
    decreases |acts|
  {
    if acts == [] then s' == s else Enabled(s, acts[0]) && Leads(Next(s, acts[0]), acts[1..], s')
  }

  lemma LeadsFirst(s: State, a: Step, acts: seq<Step>, s': State)
    requires Enabled(s, a) && Leads(Next(s, a), acts, s')
    ensures Leads(s, [a] + acts, s')
  {
    assert ([a] + acts)[1..] == acts;
  }

  function Rank(phase: Phase): nat {
    match phase
    case ToLog => 3
    case ToSync => 2
    case ToInsert(_) => 1
    case ToFinish => 0
  }

  ghost function ToGo(ld: Leader): int { if ld.phase.ToInsert? then |ld.ops| - ld.phase.k else 0 }

  lemma {:induction false} LeaderFinishes(s: State) returns (acts: seq<Step>, s': State)
    requires Inv(s) && s.leader.Some? && LeaderOk(s)
    ensures Leads(s, acts, s') && s'.leader.None? && |s'.writers| == |s.writers|
    ensures var ld := s.leader.value;
            && ld.lastWriter < |s.writers|
            && forall i :: ld.w <= i <= ld.lastWriter ==> s'.writers[i].status == if ld.ok then Ok else Failed
    decreases Rank(s.leader.value.phase), ToGo(s.leader.value)
  {
    var ld := s.leader.value;
    var a := LeaderStep(ld.phase);
    assert Enabled(s, a);
    StepInv(s, a);
    var s1 := Next(s, a);
    var rest;
    if ld.phase == ToFinish {
      hide Inv, Leads;
      s' := s1;
      rest := [];
      assert Leads(s', rest, s') by { LeadsNowhere(s'); }
      FinishReleases(s);
    } else {
      assert LeaderOk(s1);
      hide Inv, Leads;
      rest, s' := LeaderFinishes(s1);
    }
    LeadsFirst(s, a, rest, s');
    acts := [a] + rest;
  }

  lemma LeadsNowhere(s: State)
    ensures Leads(s, [], s)
  {}

  lemma FinishReleases(s: State)
    requires Inv(s) && s.leader.Some? && Enabled(s, Finish)
    ensures var ld, s' := s.leader.value, Next(s, Finish);
            && ld.lastWriter < |s.writers| == |s'.writers| && s'.leader.None?
            && forall i :: ld.w <= i <= ld.lastWriter ==> s'.writers[i].status == if ld.ok then Ok else Failed
  {
    var ld := s.leader.value;
    assert LeaderOk(s) && QueueOk(s);
    PoppedIs(s.queue, Left(s), ld.lastWriter);
    ReleaseIs(s.writers, s.queue, Left(s), Popped(s.queue, ld.lastWriter), if ld.ok then Ok else Failed, ld.record);
  }

  /** With room in the memtable and a working log, the writer in front is served: its call returns OK. */
  lemma FrontIsServed(run: seq<State>, acts: seq<Step>, n: nat) returns (more: seq<Step>, s': State)
    requires IsRun(run, acts) && n < |run| && run[n].leader.None? && run[n].queue != []
    ensures Leads(run[n], more, s') && s'.leader.None?
    ensures run[n].queue[0] < |s'.writers| && s'.writers[run[n].queue[0]].status == Ok
  {
    var s, a := run[n], Begin(true, false);
    RunInv(run, acts, n);
    assert QueueOk(s) && Enabled(s, a);
    StepInv(s, a);
    var s1 := Next(s, a);
    assert LeaderOk(s1) && s1.leader.value.w == s.queue[0] && s1.leader.value.ok;
    hide Inv, Leads;
    var rest;
    rest, s' := LeaderFinishes(s1);
    LeadsFirst(s, a, rest, s');
    more := [a] + rest;
  }
}
