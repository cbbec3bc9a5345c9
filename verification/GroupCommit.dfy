/**
  DBImpl::Write: concurrent writers queue up, and the one in front logs and
  inserts its batch together with those behind it.  The mutex is free while the
  leader does its I/O; every step below is one mutex section or one I/O call.
*/
module GroupCommit {
  import opened Common
  import opened WriteBatch

  type Wid = nat

  datatype Status = Waiting | Ok | Failed

  /** A call of Write; `record` is the log record its batch went to. */
  datatype Writer = Writer(batch: Option<seq<Op>>, bytes: nat, sync: bool, status: Status, record: Option<nat>)

  datatype Record = Record(seqno: nat, ops: seq<Op>, file: nat, synced: bool)

  datatype Entry = Entry(seqno: nat, op: Op)

  datatype Phase = ToLog | ToSync | ToInsert(k: nat) | ToFinish

  datatype Leader = Leader(w: Wid, lastWriter: Wid, ok: bool, seqno: nat, ops: seq<Op>, record: Option<nat>, phase: Phase)

  datatype State = State(writers: seq<Writer>, queue: seq<Wid>, leader: Option<Leader>,
                         lastSequence: nat, log: seq<Record>, file: nat, mem: seq<Entry>)

  datatype Step =
    | Arrive(batch: Option<seq<Op>>, bytes: nat, sync: bool)
    | Begin(room: bool, newFile: bool)     // the outcome of MakeRoomForWrite
    | WriteLog
    | SyncLog
    | InsertOne
    | Finish

  const INITIAL: State := State([], [], None, 0, [], 0, [])

  // ----- BuildBatchGroup -----

  const SMALL: nat := 0x2_0000       // 128 << 10
  const LARGE: nat := 0x10_0000      // 1 << 20

  function MaxSize(size: nat): nat { if size <= SMALL then size + SMALL else LARGE }

  /** How many writers of the queue join the group, from position i on. */
  function GroupEnd(ws: seq<Writer>, q: seq<Wid>, sync: bool, i: nat, size: nat, max: nat): (n: nat)
    requires i <= |q| && forall j :: 0 <= j < |q| ==> q[j] < |ws|
    ensures i <= n <= |q|
    decreases |q| - i
  {
    if i == |q| then i
    else
      var w := ws[q[i]];
      if w.sync && !sync then i
      else if w.batch.Some? then
        if size + w.bytes > max then i else GroupEnd(ws, q, sync, i + 1, size + w.bytes, max)
      else GroupEnd(ws, q, sync, i + 1, size, max)
  }

  function Ops(w: Writer): seq<Op> { w.batch.Get([]) }

  /** The updates of a list of writers, in order. */
  function OpsOf(ws: seq<Writer>, ids: seq<Wid>): seq<Op>
    requires forall j :: 0 <= j < |ids| ==> ids[j] < |ws|
  {
    if ids == [] then [] else OpsOf(ws, ids[..|ids| - 1]) + Ops(ws[ids[|ids| - 1]])
  }

  /** The bytes of the batches of a list of writers. */
  function BytesOf(ws: seq<Writer>, ids: seq<Wid>): nat
    requires forall j :: 0 <= j < |ids| ==> ids[j] < |ws|
  {
    if ids == [] then 0 else BytesOf(ws, ids[..|ids| - 1]) + (var w := ws[ids[|ids| - 1]]; if w.batch.Some? then w.bytes else 0)
  }

  /** The first n writers may form a group, and no longer group may be formed. */
  ghost predicate Maximal(ws: seq<Writer>, q: seq<Wid>, n: nat)
    requires q != [] && (forall j :: 0 <= j < |q| ==> q[j] < |ws|) && 1 <= n <= |q|
  {
    var first := ws[q[0]];
    var limit := if first.bytes <= 131072 then first.bytes + 131072 else 1048576;
    var total := BytesOf(ws, q[..n]);
    && (total <= limit || total == first.bytes)
    && (forall j :: 0 <= j < n && ws[q[j]].sync ==> first.sync)
    && (n < |q| ==> (ws[q[n]].sync && !first.sync) || (ws[q[n]].batch.Some? && total + ws[q[n]].bytes > limit))
  }

  /** The loop of BuildBatchGroup. */
  method BuildBatchGroup(ws: seq<Writer>, q: seq<Wid>) returns (n: nat, ops: seq<Op>)
    requires q != [] && (forall j :: 0 <= j < |q| ==> q[j] < |ws|) && ws[q[0]].batch.Some?
    ensures n == GroupEnd(ws, q, ws[q[0]].sync, 1, ws[q[0]].bytes, MaxSize(ws[q[0]].bytes))
    ensures 1 <= n <= |q| && ops == OpsOf(ws, q[..n]) && Maximal(ws, q, n)
  {
    hide OpsOf, BytesOf;
    var first := ws[q[0]];
    var size: nat := first.bytes;
    var max := if size <= SMALL then size + SMALL else LARGE;
    ops := first.batch.value;
    JustFirst(ws, q);
    n := 1;
    while n < |q|
      invariant 1 <= n <= |q| && ops == OpsOf(ws, q[..n])
      invariant size == BytesOf(ws, q[..n]) && (size <= max || size == first.bytes)
      invariant forall j :: 0 <= j < n && ws[q[j]].sync ==> first.sync
      invariant GroupEnd(ws, q, first.sync, n, size, max) == GroupEnd(ws, q, first.sync, 1, first.bytes, MaxSize(first.bytes))
    {
      var w := ws[q[n]];
      if w.sync && !first.sync { break; }
      OneMore(ws, q, n);
      if w.batch.Some? {
        if size + w.bytes > max { break; }
        size := size + w.bytes;
        ops := ops + w.batch.value;
      }
      n := n + 1;
    }
  }

  lemma JustFirst(ws: seq<Writer>, q: seq<Wid>)
    requires q != [] && (forall j :: 0 <= j < |q| ==> q[j] < |ws|) && ws[q[0]].batch.Some?
    ensures OpsOf(ws, q[..1]) == ws[q[0]].batch.value && BytesOf(ws, q[..1]) == ws[q[0]].bytes
  {
    assert q[..1] == [q[0]] && [q[0]][..0] == [];
  }

  lemma OneMore(ws: seq<Writer>, q: seq<Wid>, n: nat)
    requires n < |q| && forall j :: 0 <= j < |q| ==> q[j] < |ws|
    ensures var w := ws[q[n]];
            && OpsOf(ws, q[..n + 1]) == (if w.batch.Some? then OpsOf(ws, q[..n]) + w.batch.value else OpsOf(ws, q[..n]))
            && BytesOf(ws, q[..n + 1]) == BytesOf(ws, q[..n]) + if w.batch.Some? then w.bytes else 0
  {
    assert q[..n + 1][..n] == q[..n];
    assert OpsOf(ws, q[..n]) + [] == OpsOf(ws, q[..n]);
  }

  /** Only one length of group is maximal, when every batch has some bytes. */
  lemma MaximalIsUnique(ws: seq<Writer>, q: seq<Wid>, n: nat, m: nat)
    requires q != [] && (forall j :: 0 <= j < |q| ==> q[j] < |ws|) && 1 <= n < m <= |q| && ws[q[0]].batch.Some?
    requires forall j :: 0 <= j < |q| ==> ws[q[j]].bytes > 0
    requires Maximal(ws, q, n)
    ensures !Maximal(ws, q, m)
  {
    assert q[..n + 1][..n] == q[..n];
    BytesGrow(ws, q, n + 1, m);
    BytesGrow(ws, q, 1, n);
    assert q[..1] == [q[0]] && [q[0]][..0] == [];
  }

  lemma {:induction false} BytesGrow(ws: seq<Writer>, q: seq<Wid>, i: nat, j: nat)
    requires (forall k :: 0 <= k < |q| ==> q[k] < |ws|) && i <= j <= |q|
    ensures BytesOf(ws, q[..i]) <= BytesOf(ws, q[..j])
    decreases j
  {
    if i < j {
      assert q[..j][..j - 1] == q[..j - 1];
      BytesGrow(ws, q, i, j - 1);
    }
  }

  /** A writer that asks for a sync joins only a leader that syncs. */
  lemma {:induction false} GroupSync(ws: seq<Writer>, q: seq<Wid>, sync: bool, i: nat, size: nat, max: nat, j: nat)
    requires i <= |q| && forall j :: 0 <= j < |q| ==> q[j] < |ws|
    requires i <= j < GroupEnd(ws, q, sync, i, size, max) && ws[q[j]].sync
    ensures sync
    decreases |q| - i
  {
    var w := ws[q[i]];
    if i < j && (!w.sync || sync) {
      GroupSync(ws, q, sync, i + 1, if w.batch.Some? then size + w.bytes else size, max, j);
    }
  }

  // ----- Steps -----

  ghost predicate QueueBounds(s: State) {
    forall j :: 0 <= j < |s.queue| ==> s.queue[j] < |s.writers|
  }

  function Began(s: State, room: bool, newFile: bool): State
    requires QueueBounds(s) && s.queue != []
  {
    var w := s.queue[0];
    var first := s.writers[w];
    var s1 := s.(file := if newFile then s.file + 1 else s.file);
    if !room || first.batch.None? then
      s1.(leader := Some(Leader(w, w, room, s.lastSequence + 1, [], None, ToFinish)))
    else
      var n := GroupEnd(s.writers, s.queue, first.sync, 1, first.bytes, MaxSize(first.bytes));
      s1.(leader := Some(Leader(w, s.queue[n - 1], true, s.lastSequence + 1, OpsOf(s.writers, s.queue[..n]), None, ToLog)))
  }

  function Logged(s: State): State
    requires s.leader.Some? && s.leader.value.w < |s.writers|
  {
    var ld := s.leader.value;
    var phase := if s.writers[ld.w].sync then ToSync else ToInsert(0);
    s.(log := s.log + [Record(ld.seqno, ld.ops, s.file, false)],
       leader := Some(ld.(record := Some(|s.log|), phase := phase)))
  }

  /** Sync reaches every record of the current file. */
  function Synced(s: State): State
    requires s.leader.Some?
  {
    var log := seq(|s.log|, i requires 0 <= i < |s.log| =>
                     if s.log[i].file == s.file then s.log[i].(synced := true) else s.log[i]);
    s.(log := log, leader := Some(s.leader.value.(phase := ToInsert(0))))
  }

  function Inserted(s: State): State
    requires s.leader.Some? && s.leader.value.phase.ToInsert?
  {
    var ld := s.leader.value;
    var k := ld.phase.k;
    if k < |ld.ops| then
      s.(mem := s.mem + [Entry(ld.seqno + k, ld.ops[k])], leader := Some(ld.(phase := ToInsert(k + 1))))
    else s.(leader := Some(ld.(phase := ToFinish)))
  }

  /** The writers up to lastWriter leave the queue with the leader's status. */
  function Popped(q: seq<Wid>, last: Wid): (n: nat)
    ensures n <= |q|
  {
    if q == [] then 0 else if q[0] == last then 1 else 1 + Popped(q[1..], last)
  }

  function Release(ws: seq<Writer>, ids: seq<Wid>, status: Status, record: Option<nat>): (ws': seq<Writer>)
    requires forall j :: 0 <= j < |ids| ==> ids[j] < |ws|
    ensures |ws'| == |ws|
  {
    if ids == [] then ws
    else
      var ws1 := Release(ws, ids[..|ids| - 1], status, record);
      var w := ids[|ids| - 1];
      ws1[w := ws1[w].(status := status, record := if ws1[w].batch.Some? then record else None)]
  }

  function Finished(s: State): State
    requires QueueBounds(s) && s.leader.Some?
  {
    var ld := s.leader.value;
    var n := Popped(s.queue, ld.lastWriter);
    s.(writers := Release(s.writers, s.queue[..n], if ld.ok then Ok else Failed, ld.record),
       queue := s.queue[n..], leader := None, lastSequence := s.lastSequence + |ld.ops|)
  }

  ghost predicate Enabled(s: State, a: Step) {
    match a
    case Arrive(_, _, _) => true
    case Begin(_, _) => s.leader.None? && s.queue != [] && QueueBounds(s)
    case WriteLog => s.leader.Some? && s.leader.value.phase == ToLog && s.leader.value.w < |s.writers|
    case SyncLog => s.leader.Some? && s.leader.value.phase == ToSync
    case InsertOne => s.leader.Some? && s.leader.value.phase.ToInsert?
    case Finish => s.leader.Some? && s.leader.value.phase == ToFinish && QueueBounds(s)
  }

  ghost function Next(s: State, a: Step): State
    requires Enabled(s, a)
  {
    match a
    case Arrive(batch, bytes, sync) =>
      s.(writers := s.writers + [Writer(batch, bytes, sync, Waiting, None)], queue := s.queue + [|s.writers|])
    case Begin(room, newFile) => Began(s, room, newFile)
    case WriteLog => Logged(s)
    case SyncLog => Synced(s)
    case InsertOne => Inserted(s)
    case Finish => Finished(s)
  }

  ghost predicate IsRun(run: seq<State>, acts: seq<Step>) {
    && |run| == |acts| + 1 && run[0] == INITIAL
    && forall i :: 0 <= i < |acts| ==> Enabled(run[i], acts[i]) && run[i + 1] == Next(run[i], acts[i])
  }
}
