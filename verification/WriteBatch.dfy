/** WriteBatch: a string of updates behind a sequence number and a count. */
module WriteBatch {
  import opened Coding
  import opened Common

  const HEADER_SIZE: nat := 12

  datatype Op = Put(key: seq<Byte>, value: seq<Byte>) | Delete(key: seq<Byte>)

  predicate OpOk(op: Op) { |op.key| < LIMIT32 && (op.Put? ==> |op.value| < LIMIT32) }

  function OpBytes(op: Op): seq<Byte> {
    match op
    case Put(k, v) => [1] + PutSlice(k) + PutSlice(v)
    case Delete(k) => [0] + PutSlice(k)
  }

  function OpsBytes(ops: seq<Op>): seq<Byte> {
    if ops == [] then [] else OpsBytes(ops[..|ops| - 1]) + OpBytes(ops[|ops| - 1])
  }

  lemma {:induction false} OpsBytesAppend(a: seq<Op>, b: seq<Op>)
    ensures OpsBytes(a + b) == OpsBytes(a) + OpsBytes(b)
    decreases |b|
  {
    hide OpBytes;
    if b == [] {
      assert a + b == a;
      assert OpsBytes(a) + [] == OpsBytes(a);
    } else {
      var rest, x := b[..|b| - 1], b[|b| - 1];
      OpsBytesAppend(a, rest);
      assert (a + b)[..|a + b| - 1] == a + rest && (a + b)[|a + b| - 1] == x;
      Assoc(OpsBytes(a), OpsBytes(rest), OpBytes(x));
    }
  }

  lemma OpsBytesFirst(op: Op, rest: seq<Op>)
    ensures OpsBytes([op] + rest) == OpBytes(op) + OpsBytes(rest)
  {
    hide OpBytes;
    OpsBytesAppend([op], rest);
    assert [op][..0] == [];
    assert OpsBytes([op]) == [] + OpBytes(op);
    EmptyLeft(OpBytes(op));
  }

  /** One round of Iterate: the next update and what follows it. */
  function ParseOp(b: seq<Byte>): (r: Option<(Op, seq<Byte>)>)
    requires b != []
    ensures r.Some? ==> |r.value.1| < |b|
  {
    if b[0] == 1 then
      var k := GetSlice(b[1..]);
      if k.None? then None
      else
        var v := GetSlice(k.value.1);
        if v.None? then None else Some((Put(k.value.0, v.value.0), v.value.1))
    else if b[0] == 0 then
      var k := GetSlice(b[1..]);
      if k.None? then None else Some((Delete(k.value.0), k.value.1))
    else None
  }

  lemma OpRoundTrip(op: Op, rest: seq<Byte>)
    requires OpOk(op)
    ensures OpBytes(op) + rest != [] && ParseOp(OpBytes(op) + rest) == Some((op, rest))
  {
    hide PutSlice, GetSlice;
    var b := OpBytes(op) + rest;
    match op {
      case Put(k, v) =>
        assert b[1..] == PutSlice(k) + (PutSlice(v) + rest);
        SliceRoundTrip(k, PutSlice(v) + rest);
        SliceRoundTrip(v, rest);
      case Delete(k) =>
        assert b[1..] == PutSlice(k) + rest;
        SliceRoundTrip(k, rest);
    }
  }

  /** The updates found before the input ends or turns bad. */
  function ParseOps(b: seq<Byte>): (seq<Op>, bool)
    decreases |b|
  {
    if b == [] then ([], true)
    else
      var r := ParseOp(b);
      if r.None? then ([], false)
      else
        var (ops, ok) := ParseOps(r.value.1);
        ([r.value.0] + ops, ok)
  }

  /** Whatever follows a list of updates is read as if it stood alone; a malformed rest yields nothing more. */
  lemma {:induction false} OpsThenRest(ops: seq<Op>, rest: seq<Byte>)
    requires forall i :: 0 <= i < |ops| ==> OpOk(ops[i])
    ensures ParseOps(OpsBytes(ops) + rest) == (ops + ParseOps(rest).0, ParseOps(rest).1)
    ensures rest != [] && ParseOp(rest).None? ==> ParseOps(OpsBytes(ops) + rest) == (ops, false)
    decreases |ops|
  {
    hide OpBytes, ParseOp;
    if ops == [] {
      EmptyLeft(rest);
      EmptyLeft(ParseOps(rest).0);
    } else {
      OpsBytesFirst(ops[0], ops[1..]);
      assert [ops[0]] + ops[1..] == ops;
      Assoc(OpBytes(ops[0]), OpsBytes(ops[1..]), rest);
      OpRoundTrip(ops[0], OpsBytes(ops[1..]) + rest);
      OpsThenRest(ops[1..], rest);
      assert [ops[0]] + (ops[1..] + ParseOps(rest).0) == ops + ParseOps(rest).0;
      assert ops + [] == ops;
    }
  }

  lemma {:induction false} OpsRoundTrip(ops: seq<Op>)
    requires forall i :: 0 <= i < |ops| ==> OpOk(ops[i])
    ensures ParseOps(OpsBytes(ops)) == (ops, true)
    decreases |ops|
  {
    hide OpBytes, ParseOp;
    if ops == [] {
    } else {
      assert ops == [ops[0]] + ops[1..];
      OpsBytesFirst(ops[0], ops[1..]);
      OpRoundTrip(ops[0], OpsBytes(ops[1..]));
      OpsRoundTrip(ops[1..]);
    }
  }

  class Batch {
    var rep: seq<Byte>
    ghost var ops: seq<Op>

    ghost predicate Valid()
      reads this
    {
      && |rep| >= HEADER_SIZE && |ops| < LIMIT32
      && (forall i :: 0 <= i < |ops| ==> OpOk(ops[i]))
      && DecodeFixed32(rep[8..]) == |ops| && rep[HEADER_SIZE..] == OpsBytes(ops)
    }

    constructor ()
      ensures Valid() && ops == [] && rep == seq(HEADER_SIZE, _ => 0)
    {
      rep, ops := seq(HEADER_SIZE, _ => 0), [];
    }

    function Count(): nat
      requires |rep| >= HEADER_SIZE
      reads this
    {
      DecodeFixed32(rep[8..])
    }

    method SetCount(n: nat)
      requires |rep| >= HEADER_SIZE && n < LIMIT32
      modifies this`rep
      ensures |rep| == |old(rep)| && rep[..8] == old(rep)[..8] && rep[HEADER_SIZE..] == old(rep)[HEADER_SIZE..]
      ensures DecodeFixed32(rep[8..]) == n
    {
      FixedLength(n);
      rep := rep[..8] + EncodeFixed32(n) + rep[HEADER_SIZE..];
      Fixed32RoundTrip(n, rep[HEADER_SIZE..]);
      assert rep[8..] == EncodeFixed32(n) + rep[HEADER_SIZE..];
    }

    method SetSequence(n: nat)
      requires Valid() && n < LIMIT64
      modifies this`rep
      ensures Valid() && DecodeFixed64(rep) == n && rep[8..] == old(rep)[8..]
    {
      rep := EncodeFixed64(n) + rep[8..];
      Fixed64RoundTrip(n, rep[8..]);
      assert rep[HEADER_SIZE..] == rep[8..][4..] && old(rep)[HEADER_SIZE..] == old(rep)[8..][4..];
    }

    method Add(op: Op)
      requires Valid() && OpOk(op) && |ops| + 1 < LIMIT32
      modifies this
      ensures Valid() && ops == old(ops) + [op] && rep[..8] == old(rep)[..8]
    {
      hide DecodeFixed32;
      SetCount(Count() + 1);
      ghost var before := rep;
      rep := rep + OpBytes(op);
      KeepHeader(before, OpBytes(op));
      DropAppend(before, OpBytes(op), HEADER_SIZE);
      assert (ops + [op])[..|ops|] == ops;
      ops := ops + [op];
    }

    /** WriteBatchInternal::Append: the other batch's updates follow this one's. */
    method Append(src: Batch)
      requires Valid() && src.Valid() && src != this && |ops| + |src.ops| < LIMIT32
      modifies this
      ensures Valid() && ops == old(ops) + src.ops && rep[..8] == old(rep)[..8]
    {
      hide DecodeFixed32, OpsBytes;
      SetCount(Count() + src.Count());
      ghost var before := rep;
      rep := rep + src.rep[HEADER_SIZE..];
      Appended(before, src.rep[HEADER_SIZE..], ops, src.ops);
      ops := ops + src.ops;
    }

    /** Iterate hands the updates it finds to the handler, in order, and checks their count. */
    method Iterate() returns (handled: seq<Op>, ok: bool)
      ensures |rep| < HEADER_SIZE ==> !ok && handled == []
      ensures |rep| >= HEADER_SIZE ==>
                handled == ParseOps(rep[HEADER_SIZE..]).0 && (ok <==> ParseOps(rep[HEADER_SIZE..]).1 && |handled| == Count())
      ensures Valid() ==> ok && handled == ops
    {
      if |rep| < HEADER_SIZE { return [], false; }
      ghost var all := ParseOps(rep[HEADER_SIZE..]);
      if Valid() { OpsRoundTrip(ops); }
      hide ParseOp, DecodeFixed32, OpsBytes;
      var input := rep[HEADER_SIZE..];
      handled := [];
      EmptyLeft(all.0);
      while input != []
        invariant handled + ParseOps(input).0 == all.0 && ParseOps(input).1 == all.1
        decreases |input|
      {
        var r := ParseOp(input);
        if r.None? { return handled, false; }
        Assoc(handled, [r.value.0], ParseOps(r.value.1).0);
        handled, input := handled + [r.value.0], r.value.1;
      }
      ok := |handled| == Count();
    }
  }

  lemma Appended(rep: seq<Byte>, more: seq<Byte>, a: seq<Op>, b: seq<Op>)
    requires |rep| >= HEADER_SIZE && rep[HEADER_SIZE..] == OpsBytes(a) && more == OpsBytes(b)
    ensures DecodeFixed32((rep + more)[8..]) == DecodeFixed32(rep[8..]) && (rep + more)[..8] == rep[..8]
    ensures (rep + more)[HEADER_SIZE..] == OpsBytes(a + b)
  {
    hide DecodeFixed32, OpsBytes;
    KeepHeader(rep, more);
    DropAppend(rep, more, HEADER_SIZE);
    OpsBytesAppend(a, b);
  }

  lemma DropAppend(a: seq<Byte>, b: seq<Byte>, n: nat)
    requires n <= |a|
    ensures (a + b)[n..] == a[n..] + b
  {}

  /** The count is not disturbed by bytes appended behind the header. */
  lemma KeepHeader(rep: seq<Byte>, more: seq<Byte>)
    requires |rep| >= HEADER_SIZE
    ensures DecodeFixed32((rep + more)[8..]) == DecodeFixed32(rep[8..]) && (rep + more)[..8] == rep[..8]
  {}
}
