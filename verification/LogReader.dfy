/** log::Reader on any prefix of a written log. */
module LogReader {
  import opened Coding
  import opened Common
  import opened LogFormat
  import opened LogWriter

  datatype Physical = Record(kind: Byte, fragment: seq<Byte>) | Eof | Bad

  // ----- Positions -----

  /** 1 if the next header goes to a new block. */
  function NewBlock(off: nat): nat
    requires off <= BLOCK
  {
    if BLOCK - off < HEADER then 1 else 0
  }

  /** From block b, offset off on, the file is a prefix of the bytes of the fragments. */
  ghost predicate Ahead(crc: Checksum, file: seq<Byte>, b: nat, off: nat, gs: seq<Frag>) {
    && crc.Lawful() && off <= BLOCK && Fits(off, gs)
    && BLOCK * b + off <= |file| && file[BLOCK * b + off..] <= Bytes(crc, off, gs)
  }

  /** The first fragment is in the file as a whole. */
  ghost predicate Whole(file: seq<Byte>, b: nat, off: nat, gs: seq<Frag>)
    requires off <= BLOCK
  {
    gs != [] && BLOCK * (b + NewBlock(off)) + HeaderAt(off) + HEADER + |gs[0].payload| <= |file|
  }

  lemma FragPlace(crc: Checksum, file: seq<Byte>, b: nat, off: nat, gs: seq<Frag>)
    requires Ahead(crc, file, b, off, gs) && gs != []
    ensures var q := BLOCK * (b + NewBlock(off)) + HeaderAt(off);
            && q == BLOCK * b + off + gs[0].pad && |gs[0].payload| <= 0xffff
            && (q + HEADER <= |file| ==> file[q..q + HEADER] == Header(crc, gs[0].kind, gs[0].payload))
            && (Whole(file, b, off, gs) ==> file[q + HEADER..q + HEADER + |gs[0].payload|] == gs[0].payload)
  {
    var f, p := gs[0], BLOCK * b + off;
    var all, tail := Bytes(crc, off, gs), file[p..];
    var q := p + f.pad;
    assert all == Zeros(f.pad) + Header(crc, f.kind, f.payload) + f.payload + Bytes(crc, Advance(off, f), gs[1..]);
    hide Bytes, Header, Fits;
    if q + HEADER <= |file| {
      assert tail[f.pad..f.pad + HEADER] == all[f.pad..f.pad + HEADER] == Header(crc, f.kind, f.payload);
      assert file[q..q + HEADER] == tail[f.pad..f.pad + HEADER];
    }
    if Whole(file, b, off, gs) {
      var x, y := f.pad + HEADER, f.pad + HEADER + |f.payload|;
      assert tail[x..y] == all[x..y] == f.payload;
      assert file[q + HEADER..q + HEADER + |f.payload|] == tail[x..y];
    }
  }

  lemma NextAhead(crc: Checksum, file: seq<Byte>, b: nat, off: nat, gs: seq<Frag>)
    requires Ahead(crc, file, b, off, gs) && Whole(file, b, off, gs)
    ensures Ahead(crc, file, b + NewBlock(off), Advance(off, gs[0]), gs[1..])
  {
    var f, p := gs[0], BLOCK * b + off;
    var all, tail := Bytes(crc, off, gs), file[p..];
    var n := f.pad + HEADER + |f.payload|;
    assert all == FragBytes(crc, f) + Bytes(crc, Advance(off, f), gs[1..]);
    assert |FragBytes(crc, f)| == n;
    hide Bytes, FragBytes;
    assert tail[n..] <= all[n..];
    assert file[p + n..] == tail[n..];
  }

  lemma HeaderParts(crc: Checksum, kind: Byte, payload: seq<Byte>)
    requires crc.Lawful() && |payload| <= 0xffff
    ensures var h := Header(crc, kind, payload);
            && (h[4] as int) + 256 * (h[5] as int) == |payload| && h[6] == kind
            && crc.unmask(DecodeFixed32(h)) == crc.value([kind] + payload)
  {
    var v := crc.mask(crc.value([kind] + payload));
    var tail: seq<Byte> := [|payload| % 256, |payload| / 256, kind];
    Fixed32RoundTrip(v, tail);
    assert Header(crc, kind, payload) == EncodeFixed32(v) + tail;
    hide DecodeFixed32;
  }

  class Reader {
    const crc: Checksum
    const file: seq<Byte>
    var buffer: seq<Byte>
    var endOfBuffer: nat
    var eof: bool

    constructor (c: Checksum, f: seq<Byte>)
      ensures crc == c && file == f && buffer == [] && endOfBuffer == 0 && !eof
    {
      crc, file := c, f;
      buffer, endOfBuffer, eof := [], 0, false;
    }

    /** Nothing more will be read. */
    ghost predicate Done()
      reads this
    {
      eof && buffer == [] && endOfBuffer == |file|
    }

    /** The reader has consumed everything before block b, offset off. */
    ghost predicate At(b: nat, off: nat)
      reads this
    {
      && off <= BLOCK && BLOCK * b + off <= endOfBuffer <= |file|
      && buffer == file[BLOCK * b + off..endOfBuffer]
      && (!eof ==> endOfBuffer == BLOCK * b + (if off == 0 then 0 else BLOCK))
      && (eof ==> endOfBuffer == |file| < BLOCK * (b + 1))
    }

    lemma DoneIsAt()
      requires Done()
      ensures At(|file| / BLOCK, |file| % BLOCK)
    {
      assert file[|file|..|file|] == [];
    }

    /** A block, or what is left of the file, has been read, and a header may start at offset off. */
    ghost predicate Loaded(b: nat, off: nat)
      reads this
    {
      && off <= BLOCK && BLOCK * b + off <= endOfBuffer <= |file|
      && buffer == file[BLOCK * b + off..endOfBuffer]
      && (!eof ==> endOfBuffer == BLOCK * (b + 1))
      && (eof ==> endOfBuffer == |file| < BLOCK * (b + 1))
    }

    /** file_->Read of one block. */
    method ReadBlock()
      requires endOfBuffer <= |file| && !eof
      modifies this
      ensures old(endOfBuffer) <= endOfBuffer <= |file| && buffer == file[old(endOfBuffer)..endOfBuffer]
      ensures endOfBuffer == if |file| - old(endOfBuffer) < BLOCK then |file| else old(endOfBuffer) + BLOCK
      ensures eof <==> |file| - old(endOfBuffer) < BLOCK
    {
      var n := if |file| - endOfBuffer < BLOCK then |file| - endOfBuffer else BLOCK;
      buffer := file[endOfBuffer..endOfBuffer + n];
      endOfBuffer := endOfBuffer + n;
      if |buffer| < BLOCK { eof := true; }
    }

    /** ReadPhysicalRecord: the next fragment if it is there as a whole. */
    method ReadPhysicalRecord(ghost b: nat, ghost off: nat, ghost gs: seq<Frag>) returns (r: Physical)
      requires At(b, off) && Ahead(crc, file, b, off, gs)
      modifies this
      ensures Whole(file, b, off, gs) ==>
                r == Record(gs[0].kind, gs[0].payload) && At(b + NewBlock(off), Advance(off, gs[0]))
      ensures !Whole(file, b, off, gs) ==> !r.Record? && Done()
      ensures r == Bad ==> gs != []
    {
      hide Bytes, Header, Fits, Ahead, Parse;
      ghost var loaded := false;
      while |buffer| < HEADER
        invariant !loaded ==> At(b, off)
        invariant loaded ==> Loaded(b + NewBlock(off), HeaderAt(off))
        decreases |buffer| < HEADER, !eof
      {
        if !eof {
          ReadBlock();
          loaded := true;
        } else {
          NotWhole(crc, file, b, off, gs, |buffer|, loaded);
          buffer := [];
          return Eof;
        }
      }
      ParsedFrag(crc, file, b, off, gs, buffer, endOfBuffer);
      r := ParseHeader();
    }

    /** The part of ReadPhysicalRecord that looks at the bytes. */
    method ParseHeader() returns (r: Physical)
      requires |buffer| >= HEADER
      modifies this`buffer
      ensures (r, buffer) == Parse(crc, old(buffer))
    {
      var length := buffer[4] as int + 256 * (buffer[5] as int);
      var kind := buffer[6];
      if HEADER + length > |buffer| {
        buffer := [];
        return Bad;
      }
      if kind == 0 && length == 0 {
        buffer := [];
        return Bad;
      }
      var expected := crc.unmask(DecodeFixed32(buffer));
      var actual := crc.value(buffer[6..HEADER + length]);
      if actual != expected {
        buffer := [];
        return Bad;
      }
      r := Record(kind, buffer[HEADER..HEADER + length]);
      buffer := buffer[HEADER + length..];
    }

    /** ReadRecord: the next record if all of it is in the file. */
    method ReadRecord(ghost b0: nat, ghost off0: nat, ghost rs: seq<seq<Byte>>)
      returns (ok: bool, record: seq<Byte>, ghost b: nat, ghost off: nat)
      requires crc.Lawful() && off0 <= BLOCK && At(b0, off0) && Ahead(crc, file, b0, off0, AllFrags(off0, rs))
      modifies this
      ensures ok <==> rs != [] && RecordEnd(crc, b0, off0, rs[0]) <= |file|
      ensures ok ==> record == rs[0] && At(b, off) && off <= BLOCK && Ahead(crc, file, b, off, AllFrags(off, rs[1..]))
                     && BLOCK * b + off == RecordEnd(crc, b0, off0, rs[0]) && off == EndOffset(off0, AllFrags(off0, rs[..1]))
    {
      hide *;
      var asm := Asm(false, []);
      ghost var gs, left := AllFrags(off0, rs), if rs == [] then [] else rs[0];
      b, off, ok, record := b0, off0, false, [];
      MidStart(crc, file, b0, off0, rs);
      while true
        invariant off <= BLOCK && At(b, off) && Mid(crc, file, b0, off0, rs, b, off, left, gs, asm)
        decreases |gs|
      {
        MidMeans(crc, file, b0, off0, rs, b, off, left, gs, asm);
        var r := ReadPhysicalRecord(b, off, gs);
        var out := Assemble(asm, r);
        Assembled(crc, file, b0, off0, rs, b, off, left, gs, asm, r);
        match out {
          case Stop =>
            return;
          case Got(rec) =>
            ok, record := true, rec;
            b, off := b + NewBlock(off), Advance(off, gs[0]);
            return;
          case More(asm') =>
            if r == Bad {
              DoneIsAt();
              b, off, gs, left := |file| / BLOCK, |file| % BLOCK, [], [];
            } else {
              left := left[|gs[0].payload|..];
              b, off, gs := b + NewBlock(off), Advance(off, gs[0]), gs[1..];
            }
            asm := asm';
        }
      }
    }
  }

  /** What the bytes in the buffer say, and what is left of them. */
  function Parse(crc: Checksum, buffer: seq<Byte>): (Physical, seq<Byte>)
    requires |buffer| >= HEADER
  {
    var length := buffer[4] as int + 256 * (buffer[5] as int);
    if HEADER + length > |buffer| || (buffer[6] == 0 && length == 0) then (Bad, [])
    else if crc.value(buffer[6..HEADER + length]) != crc.unmask(DecodeFixed32(buffer)) then (Bad, [])
    else (Record(buffer[6], buffer[HEADER..HEADER + length]), buffer[HEADER + length..])
  }

  /** Parsing a header followed by its whole payload gives the payload; by less gives nothing. */
  lemma ParseWritten(crc: Checksum, buffer: seq<Byte>, kind: Byte, payload: seq<Byte>)
    requires crc.Lawful() && |payload| <= 0xffff && kind > 0
    requires |buffer| >= HEADER && buffer[..HEADER] == Header(crc, kind, payload)
    ensures HEADER + |payload| > |buffer| ==> Parse(crc, buffer) == (Bad, [])
    ensures HEADER + |payload| <= |buffer| && buffer[HEADER..HEADER + |payload|] == payload ==>
              Parse(crc, buffer) == (Record(kind, payload), buffer[HEADER + |payload|..])
  {
    HeaderParts(crc, kind, payload);
    var h := buffer[..HEADER];
    assert buffer[4] == h[4] && buffer[5] == h[5] && buffer[6] == h[6];
    assert DecodeFixed32(buffer) == DecodeFixed32(h);
    hide DecodeFixed32, Header;
    if HEADER + |payload| <= |buffer| && buffer[HEADER..HEADER + |payload|] == payload {
      assert buffer[6..HEADER + |payload|] == [kind] + payload;
    }
  }

  lemma ParsedFrag(crc: Checksum, file: seq<Byte>, b: nat, off: nat, gs: seq<Frag>, buffer: seq<Byte>, e: nat)
    requires Ahead(crc, file, b, off, gs) && |buffer| >= HEADER
    requires var q := BLOCK * (b + NewBlock(off)) + HeaderAt(off);
             q <= e <= |file| && buffer == file[q..e] && (e == BLOCK * (b + NewBlock(off) + 1) || e == |file| < BLOCK * (b + NewBlock(off) + 1))
    ensures gs != []
    ensures Whole(file, b, off, gs) ==>
              var q := BLOCK * (b + NewBlock(off)) + HeaderAt(off);
              q + HEADER + |gs[0].payload| <= e
              && Parse(crc, buffer) == (Record(gs[0].kind, gs[0].payload), file[q + HEADER + |gs[0].payload|..e])
    ensures !Whole(file, b, off, gs) ==> Parse(crc, buffer) == (Bad, []) && e == |file| < BLOCK * (b + NewBlock(off) + 1)
  {
    var q := BLOCK * (b + NewBlock(off)) + HeaderAt(off);
    AheadEnd(crc, file, b, off, gs);
    var f := gs[0];
    assert f.kind > 0 && Advance(off, f) <= BLOCK by { assert Fits(off, gs); }
    FragPlace(crc, file, b, off, gs);
    hide Ahead, Fits, Header, Parse;
    ParsedSlice(crc, file, q, e, f.kind, f.payload);
  }

  /** Parsing a slice of the file that starts with a written header. */
  lemma ParsedSlice(crc: Checksum, file: seq<Byte>, q: nat, e: nat, kind: Byte, payload: seq<Byte>)
    requires crc.Lawful() && |payload| <= 0xffff && kind > 0 && q + HEADER <= e <= |file|
    requires file[q..q + HEADER] == Header(crc, kind, payload)
    ensures q + HEADER + |payload| > e ==> Parse(crc, file[q..e]) == (Bad, [])
    ensures q + HEADER + |payload| <= e && file[q + HEADER..q + HEADER + |payload|] == payload ==>
              Parse(crc, file[q..e]) == (Record(kind, payload), file[q + HEADER + |payload|..e])
  {
    hide Header, Parse;
    var buffer := file[q..e];
    Subslice(file, q, e, 0, HEADER);
    ParseWritten(crc, buffer, kind, payload);
    if q + HEADER + |payload| <= e {
      Subslice(file, q, e, HEADER, HEADER + |payload|);
      Subslice(file, q, e, HEADER + |payload|, |buffer|);
    }
  }

  /** With no fragments left the file ends here. */
  lemma AheadEnd(crc: Checksum, file: seq<Byte>, b: nat, off: nat, gs: seq<Frag>)
    requires Ahead(crc, file, b, off, gs)
    ensures gs == [] ==> |file| == BLOCK * b + off
  {}

  lemma NotWhole(crc: Checksum, file: seq<Byte>, b: nat, off: nat, gs: seq<Frag>, n: nat, loaded: bool)
    requires Ahead(crc, file, b, off, gs) && n < HEADER
    requires !loaded ==> |file| < BLOCK * (b + 1) && |file| == BLOCK * b + off + n
    requires loaded ==> |file| == BLOCK * (b + NewBlock(off)) + HeaderAt(off) + n
    ensures !Whole(file, b, off, gs)
  {}

  // ----- Records from fragments -----

  datatype Asm = Asm(inFrag: bool, scratch: seq<Byte>)

  datatype Outcome = More(asm: Asm) | Got(record: seq<Byte>) | Stop

  /** The switch of ReadRecord. */
  function Assemble(a: Asm, r: Physical): Outcome {
    match r
    case Eof => Stop
    case Bad => More(Asm(false, if a.inFrag then [] else a.scratch))
    case Record(kind, f) =>
      if kind == FULL then Got(f)
      else if kind == FIRST then More(Asm(true, f))
      else if kind == MIDDLE then More(if a.inFrag then a.(scratch := a.scratch + f) else a)
      else if kind == LAST then if a.inFrag then Got(a.scratch + f) else More(a)
      else More(Asm(false, []))
  }

  // ----- Damaged logs -----

  /** Whatever the bytes, a fragment is accepted exactly when it is complete, is no padding, and has the right checksum. */
  lemma AcceptedFragments(crc: Checksum, buffer: seq<Byte>, kind: Byte, payload: seq<Byte>)
    requires crc.Lawful() && |buffer| >= HEADER
    ensures Parse(crc, buffer).0 == Record(kind, payload) <==>
              && HEADER + |payload| <= |buffer| && |payload| <= 0xffff && !(kind == 0 && payload == [])
              && buffer[4] as int == |payload| % 256 && buffer[5] as int == |payload| / 256
              && buffer[6..HEADER + |payload|] == [kind] + payload
              && crc.unmask(DecodeFixed32(buffer)) == crc.value([kind] + payload)
    ensures Parse(crc, buffer).0 != Eof && (Parse(crc, buffer).0 == Bad ==> Parse(crc, buffer).1 == [])
  {
    hide DecodeFixed32;
    var length := buffer[4] as int + 256 * (buffer[5] as int);
    if HEADER + length <= |buffer| {
      assert buffer[6..HEADER + length] == [buffer[6]] + buffer[HEADER..HEADER + length];
    }
    if HEADER + |payload| <= |buffer| && buffer[6..HEADER + |payload|] == [kind] + payload {
      assert buffer[6..HEADER + |payload|][0] == buffer[6] && ([kind] + payload)[1..] == payload;
      assert buffer[6..HEADER + |payload|][1..] == buffer[HEADER..HEADER + |payload|];
    }
  }

  /** What is kept of a list of fragments when no record was complete before its end. */
  ghost function Gathered(ps: seq<Physical>): Option<Asm> {
    if ps == [] then Some(Asm(false, []))
    else
      var a := Gathered(ps[..|ps| - 1]);
      if a.None? then None
      else
        var o := Assemble(a.value, ps[|ps| - 1]);
        if o.More? then Some(o.asm) else None
  }

  /** The beginning of one record: a first fragment and middle ones. */
  ghost predicate Opening(ps: seq<Physical>) {
    ps != [] && forall i :: 0 <= i < |ps| ==> ps[i].Record? && ps[i].kind == if i == 0 then FIRST else MIDDLE
  }

  ghost function Joined(ps: seq<Physical>): seq<Byte> {
    if ps == [] then [] else Joined(ps[..|ps| - 1]) + if ps[|ps| - 1].Record? then ps[|ps| - 1].fragment else []
  }

  lemma {:induction false} GatheredIsOpening(ps: seq<Physical>) returns (i: nat)
    requires Gathered(ps).Some? && Gathered(ps).value.inFrag
    ensures i < |ps| && Opening(ps[i..]) && Gathered(ps).value.scratch == Joined(ps[i..])
  {
    var rest, p := ps[..|ps| - 1], ps[|ps| - 1];
    hide Gathered, Joined, Opening;
    LastGathered(ps);
    if p.Record? && p.kind == FIRST {
      i := |rest|;
      assert ps[i..] == [p];
      OpensWith(p);
    } else {
      i := GatheredIsOpening(rest);
      assert ps[i..] == rest[i..] + [p];
      OpensMore(rest[i..], p);
    }
  }

  /** A record is open after a fragment that opens it, or that goes on with an open one. */
  lemma LastGathered(ps: seq<Physical>)
    requires Gathered(ps).Some? && Gathered(ps).value.inFrag
    ensures ps != []
    ensures var rest, p := ps[..|ps| - 1], ps[|ps| - 1];
            && p.Record? && Gathered(rest).Some?
            && (p.kind == FIRST ==> Gathered(ps).value.scratch == p.fragment)
            && (p.kind != FIRST ==> p.kind == MIDDLE && Gathered(rest).value.inFrag
                                    && Gathered(ps).value.scratch == Gathered(rest).value.scratch + p.fragment)
  {}

  lemma OpensWith(p: Physical)
    requires p.Record? && p.kind == FIRST
    ensures Opening([p]) && Joined([p]) == p.fragment
  {
    assert [p][..0] == [];
    EmptyLeft(p.fragment);
  }

  lemma OpensMore(ps: seq<Physical>, p: Physical)
    requires Opening(ps) && p.Record? && p.kind == MIDDLE
    ensures Opening(ps + [p]) && Joined(ps + [p]) == Joined(ps) + p.fragment
  {
    assert (ps + [p])[..|ps|] == ps;
  }

  /**
    From any fragments, accepted or not, ReadRecord makes a record only of one
    full fragment, or of a first one, middle ones and a last one that follow each
    other: records are never mixed.
  */
  lemma RecordsAreNotMixed(ps: seq<Physical>, p: Physical, record: seq<Byte>) returns (i: nat)
    requires Gathered(ps).Some? && Assemble(Gathered(ps).value, p) == Got(record)
    ensures p.Record? && (p.kind == FULL || p.kind == LAST) && i <= |ps|
    ensures p.kind == FULL ==> record == p.fragment
    ensures p.kind == LAST ==> Opening(ps[i..]) && record == Joined(ps[i..]) + p.fragment
  {
    i := 0;
    if p.kind == LAST { i := GatheredIsOpening(ps); }
  }

  /** Where a record written at block b, offset off ends. */
  ghost function RecordEnd(crc: Checksum, b: nat, off: nat, data: seq<Byte>): nat
    requires crc.Lawful() && off <= BLOCK
  {
    FragsFit(off, data, true);
    BLOCK * b + off + |Bytes(crc, off, Frags(off, data, true))|
  }

  /** In the middle of record rs[0], of which `left` is still to come. */
  ghost predicate Reading(crc: Checksum, b0: nat, off0: nat, rs: seq<seq<Byte>>,
                          b: nat, off: nat, left: seq<Byte>, begin: bool, gs: seq<Frag>) {
    && crc.Lawful() && rs != [] && off0 <= BLOCK && off <= BLOCK
    && var fs := Frags(off, left, begin);
    && Fits(off, fs) && gs == fs + AllFrags(EndOffset(off, fs), rs[1..])
    && BLOCK * b + off + |Bytes(crc, off, fs)| == RecordEnd(crc, b0, off0, rs[0])
    && EndOffset(off, fs) == EndOffset(off0, AllFrags(off0, rs[..1]))
  }

  /** What ReadRecord knows between two fragments. */
  ghost predicate Mid(crc: Checksum, file: seq<Byte>, b0: nat, off0: nat, rs: seq<seq<Byte>>,
                      b: nat, off: nat, left: seq<Byte>, gs: seq<Frag>, asm: Asm) {
    && crc.Lawful() && off0 <= BLOCK && Ahead(crc, file, b, off, gs)
    && (gs == [] ==> rs == [] || RecordEnd(crc, b0, off0, rs[0]) > |file|)
    && (gs != [] ==>
          && rs != [] && Reading(crc, b0, off0, rs, b, off, left, !asm.inFrag, gs)
          && asm.scratch + left == rs[0] && (!asm.inFrag ==> asm.scratch == []))
  }

  lemma MidStart(crc: Checksum, file: seq<Byte>, b0: nat, off0: nat, rs: seq<seq<Byte>>)
    requires crc.Lawful() && off0 <= BLOCK && Ahead(crc, file, b0, off0, AllFrags(off0, rs))
    ensures Mid(crc, file, b0, off0, rs, b0, off0, if rs == [] then [] else rs[0], AllFrags(off0, rs), Asm(false, []))
  {
    hide Ahead, Reading, RecordEnd, Frags, Fits;
    if rs == [] {
      NothingLeft(off0, rs);
    } else {
      ReadingStart(crc, b0, off0, rs);
      EmptyLeft(rs[0]);
    }
  }

  lemma MidMeans(crc: Checksum, file: seq<Byte>, b0: nat, off0: nat, rs: seq<seq<Byte>>,
                 b: nat, off: nat, left: seq<Byte>, gs: seq<Frag>, asm: Asm)
    requires Mid(crc, file, b0, off0, rs, b, off, left, gs, asm)
    ensures crc.Lawful() && off0 <= BLOCK && off <= BLOCK && Ahead(crc, file, b, off, gs)
    ensures gs != [] ==> Advance(off, gs[0]) <= BLOCK
  {
    hide Reading, RecordEnd, Bytes;
  }

  lemma AssembleFrag(a: Asm, end: bool, f: seq<Byte>)
    requires !a.inFrag ==> a.scratch == []
    ensures Assemble(a, Record(Kind(!a.inFrag, end), f)) == if end then Got(a.scratch + f) else More(Asm(true, a.scratch + f))
  {
    EmptyLeft(f);
  }

  /** What the next fragment, or its absence, means for the record. */
  lemma Assembled(crc: Checksum, file: seq<Byte>, b0: nat, off0: nat, rs: seq<seq<Byte>>,
                  b: nat, off: nat, left: seq<Byte>, gs: seq<Frag>, asm: Asm, r: Physical)
    requires off <= BLOCK && Mid(crc, file, b0, off0, rs, b, off, left, gs, asm)
    requires Whole(file, b, off, gs) ==> r == Record(gs[0].kind, gs[0].payload)
    requires !Whole(file, b, off, gs) ==> !r.Record?
    requires r == Bad ==> gs != []
    ensures Whole(file, b, off, gs) ==> gs != []
    ensures Assemble(asm, r).Stop? ==> rs == [] || RecordEnd(crc, b0, off0, rs[0]) > |file|
    ensures Assemble(asm, r).Got? ==>
              && Whole(file, b, off, gs) && rs != [] && Assemble(asm, r).record == rs[0]
              && var off' := Advance(off, gs[0]);
              && off' <= BLOCK && off' == EndOffset(off0, AllFrags(off0, rs[..1]))
              && BLOCK * (b + NewBlock(off)) + off' == RecordEnd(crc, b0, off0, rs[0]) <= |file|
              && Ahead(crc, file, b + NewBlock(off), off', AllFrags(off', rs[1..]))
    ensures Assemble(asm, r).More? && r != Bad ==>
              && Whole(file, b, off, gs) && |gs[0].payload| <= |left| && Advance(off, gs[0]) <= BLOCK
              && Mid(crc, file, b0, off0, rs, b + NewBlock(off), Advance(off, gs[0]), left[|gs[0].payload|..], gs[1..],
                     Assemble(asm, r).asm)
    ensures r == Bad ==>
              && !Whole(file, b, off, gs) && Mid(crc, file, b0, off0, rs, |file| / BLOCK, |file| % BLOCK, [], [], Assemble(asm, r).asm)
              && BLOCK * (|file| / BLOCK) + |file| % BLOCK == |file| < BLOCK * (|file| / BLOCK + 1)
  {
    hide Ahead, Reading, RecordEnd, Frags, Fits, AllFrags, Bytes;
    EndAhead(crc, file);
    if gs == [] {
      NotWholeEmpty(file, b, off);
    } else {
      FirstOf(crc, file, b0, off0, rs, b, off, left, !asm.inFrag, gs);
      var n := Room(off, left);
      if r.Record? {
        AssembleFrag(asm, n == |left|, left[..n]);
        Assoc(asm.scratch, left[..n], left[n..]);
        assert left[..n] + left[n..] == left;
        hide Assemble, Whole;
        if n == |left| {
          LastRead(crc, file, b0, off0, rs, b, off, left, !asm.inFrag, gs);
        } else {
          MoreToRead(crc, file, b0, off0, rs, b, off, left, !asm.inFrag, gs);
        }
      }
    }
  }

  lemma NothingLeft(off: nat, rs: seq<seq<Byte>>)
    requires off <= BLOCK && rs == []
    ensures AllFrags(off, rs) == []
  {}

  lemma ReadingStart(crc: Checksum, b: nat, off: nat, rs: seq<seq<Byte>>)
    requires crc.Lawful() && off <= BLOCK && rs != []
    ensures AllFrags(off, rs) != [] && Reading(crc, b, off, rs, b, off, rs[0], true, AllFrags(off, rs))
  {
    FragsFit(off, rs[0], true);
    SingleRecord(off, rs[0]);
    assert rs[..1] == [rs[0]];
  }

  lemma NotWholeEmpty(file: seq<Byte>, b: nat, off: nat)
    requires off <= BLOCK
    ensures !Whole(file, b, off, [])
  {}

  /** The first fragment to come, and what its absence means. */
  lemma FirstOf(crc: Checksum, file: seq<Byte>, b0: nat, off0: nat, rs: seq<seq<Byte>>,
                b: nat, off: nat, left: seq<Byte>, begin: bool, gs: seq<Frag>)
    requires Reading(crc, b0, off0, rs, b, off, left, begin, gs) && gs != []
    ensures var n := Room(off, left);
            && gs[0] == Frag(Padding(off), Kind(begin, n == |left|), left[..n])
            && (!Whole(file, b, off, gs) ==> RecordEnd(crc, b0, off0, rs[0]) > |file|)
  {
    var n := Room(off, left);
    var fs := Frags(off, left, begin);
    NextFrag(off, left, begin);
    assert gs[0] == fs[0];
    assert |Bytes(crc, off, fs)| >= |FragBytes(crc, fs[0])|;
  }

  lemma LastRead(crc: Checksum, file: seq<Byte>, b0: nat, off0: nat, rs: seq<seq<Byte>>,
                 b: nat, off: nat, left: seq<Byte>, begin: bool, gs: seq<Frag>)
    requires Reading(crc, b0, off0, rs, b, off, left, begin, gs) && gs != [] && Room(off, left) == |left|
    requires Whole(file, b, off, gs) && Ahead(crc, file, b, off, gs)
    ensures var off' := Advance(off, gs[0]);
            && off' <= BLOCK && off' == EndOffset(off0, AllFrags(off0, rs[..1]))
            && BLOCK * (b + NewBlock(off)) + off' == RecordEnd(crc, b0, off0, rs[0]) <= |file|
            && Ahead(crc, file, b + NewBlock(off), off', AllFrags(off', rs[1..]))
  {
    var fs := Frags(off, left, begin);
    NextFrag(off, left, begin);
    NoFrags(crc, Advance(off, fs[0]), []);
    assert fs == [fs[0]] && fs[1..] == [];
    assert EndOffset(off, fs) == Advance(off, fs[0]);
    assert Bytes(crc, off, fs) == FragBytes(crc, fs[0]) + [];
    assert gs[1..] == AllFrags(Advance(off, fs[0]), rs[1..]);
    NextAhead(crc, file, b, off, gs);
  }

  lemma MoreToRead(crc: Checksum, file: seq<Byte>, b0: nat, off0: nat, rs: seq<seq<Byte>>,
                   b: nat, off: nat, left: seq<Byte>, begin: bool, gs: seq<Frag>)
    requires Reading(crc, b0, off0, rs, b, off, left, begin, gs) && gs != [] && Room(off, left) < |left|
    requires Whole(file, b, off, gs) && Ahead(crc, file, b, off, gs)
    ensures var off' := Advance(off, gs[0]);
            && off' <= BLOCK && gs[1..] != [] && |gs[0].payload| == Room(off, left)
            && Reading(crc, b0, off0, rs, b + NewBlock(off), off', left[Room(off, left)..], false, gs[1..])
            && Ahead(crc, file, b + NewBlock(off), off', gs[1..])
  {
    hide FragBytes, AllFrags, Ahead, Whole, RecordEnd;
    var n := Room(off, left);
    var fs := Frags(off, left, begin);
    NextFrag(off, left, begin);
    var f, off' := fs[0], Advance(off, fs[0]);
    var rest := Frags(off', left[n..], false);
    FragsFit(off', left[n..], false);
    assert fs == [f] + rest && fs[1..] == rest;
    assert EndOffset(off, fs) == EndOffset(off', rest);
    assert Bytes(crc, off, fs) == FragBytes(crc, f) + Bytes(crc, off', rest);
    assert gs[1..] == rest + AllFrags(EndOffset(off', rest), rs[1..]);
    NextAhead(crc, file, b, off, gs);
  }

  lemma EndAhead(crc: Checksum, file: seq<Byte>)
    requires crc.Lawful()
    ensures Ahead(crc, file, |file| / BLOCK, |file| % BLOCK, [])
    ensures BLOCK * (|file| / BLOCK) + |file| % BLOCK == |file| < BLOCK * (|file| / BLOCK + 1)
  {
    NoFrags(crc, |file| % BLOCK, []);
    assert file[|file|..] == [];
  }

  // ----- Whole logs, cut anywhere -----

  lemma NextRecordEnd(crc: Checksum, rs: seq<seq<Byte>>, k: nat, b: nat, off: nat)
    requires crc.Lawful() && k < |rs| && off == EndOffset(0, AllFrags(0, rs[..k])) && BLOCK * b + off == |File(crc, rs[..k])|
    ensures RecordEnd(crc, b, off, rs[k]) == |File(crc, rs[..k + 1])|
    ensures EndOffset(off, AllFrags(off, rs[k..][..1])) == EndOffset(0, AllFrags(0, rs[..k + 1]))
  {
    hide File, AllFrags, Frags, Fits, Bytes;
    assert rs[..k + 1] == rs[..k] + [rs[k]];
    assert rs[k..][..1] == [rs[k]];
    FileSnoc(crc, rs[..k], rs[k]);
    SingleRecord(off, rs[k]);
  }

  lemma StartAhead(crc: Checksum, file: seq<Byte>, rs: seq<seq<Byte>>)
    requires crc.Lawful() && file <= File(crc, rs)
    ensures Ahead(crc, file, 0, 0, AllFrags(0, rs)) && File(crc, []) == [] && EndOffset(0, AllFrags(0, [])) == 0
  {
    assert file[0..] == file;
  }

  /** Reading a written log cut at any byte gives exactly the records that end before the cut. */
  method ReadLog(crc: Checksum, file: seq<Byte>, ghost rs: seq<seq<Byte>>) returns (out: seq<seq<Byte>>)
    requires crc.Lawful() && file <= File(crc, rs)
    ensures out <= rs && |File(crc, out)| <= |file|
    ensures |out| < |rs| ==> |file| < |File(crc, rs[..|out| + 1])|
  {
    hide File, AllFrags, Ahead, Frags, Fits, Bytes, RecordEnd, EndOffset, HeaderAt;
    var reader := new Reader(crc, file);
    StartAhead(crc, file, rs);
    ghost var b: nat, off: nat := 0, 0;
    ghost var k := 0;
    out := [];
    assert rs[..0] == [] && rs[0..] == rs;
    var ok := true;
    while ok
      invariant reader.crc == crc && reader.file == file && k <= |rs| && out == rs[..k]
      invariant |File(crc, rs[..k])| <= |file|
      invariant ok ==> off <= BLOCK && reader.At(b, off) && Ahead(crc, file, b, off, AllFrags(off, rs[k..]))
      invariant ok ==> off == EndOffset(0, AllFrags(0, rs[..k])) && BLOCK * b + off == |File(crc, rs[..k])|
      invariant !ok ==> (k < |rs| ==> |file| < |File(crc, rs[..k + 1])|)
      decreases ok, |rs| - k
    {
      var record;
      ghost var b': nat, off': nat;
      if k < |rs| { NextRecordEnd(crc, rs, k, b, off); }
      ok, record, b', off' := reader.ReadRecord(b, off, rs[k..]);
      if ok {
        assert rs[k..][1..] == rs[k + 1..] && rs[..k + 1] == rs[..k] + [rs[k]];
        out := out + [record];
        b, off, k := b', off', k + 1;
      }
    }
  }
}
