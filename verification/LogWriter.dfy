/** log::Writer appends exactly the fragments of each record. */
module LogWriter {
  import opened Coding
  import opened Common
  import opened LogFormat

  lemma {:induction false} AllFragsSnoc(off: nat, rs: seq<seq<Byte>>, r: seq<Byte>)
    requires off <= BLOCK
    ensures var fs := AllFrags(off, rs);
            Fits(EndOffset(off, fs), Frags(EndOffset(off, fs), r, true))
            && AllFrags(off, rs + [r]) == fs + Frags(EndOffset(off, fs), r, true)
    decreases |rs|
  {
    hide Fits, Frags;
    if rs == [] {
      SingleRecord(off, r);
      assert rs + [r] == [r];
      NoRecords(off);
      EmptyLeft(Frags(off, r, true));
    } else {
      FragsFit(off, rs[0], true);
      var gs := Frags(off, rs[0], true);
      var off1 := EndOffset(off, gs);
      AllFragsSnoc(off1, rs[1..], r);
      assert (rs + [r])[1..] == rs[1..] + [r] && (rs + [r])[0] == rs[0];
      FitsAppend(off, gs, AllFrags(off1, rs[1..]));
      Assoc(gs, AllFrags(off1, rs[1..]), Frags(EndOffset(off1, AllFrags(off1, rs[1..])), r, true));
    }
  }

  lemma NoRecords(off: nat)
    requires off <= BLOCK
    ensures AllFrags(off, []) == [] && Fits(off, []) && EndOffset(off, []) == off
  {}

  lemma SingleRecord(off: nat, r: seq<Byte>)
    requires off <= BLOCK
    ensures AllFrags(off, [r]) == Frags(off, r, true) && Fits(off, Frags(off, r, true))
  {
    FragsFit(off, r, true);
    var gs := Frags(off, r, true);
    assert [r][1..] == [];
    NoRecords(EndOffset(off, gs));
    assert gs + [] == gs;
  }

  lemma FileSnoc(crc: Checksum, rs: seq<seq<Byte>>, r: seq<Byte>)
    requires crc.Lawful()
    ensures var fs := AllFrags(0, rs); var off := EndOffset(0, fs);
            && Fits(off, Frags(off, r, true))
            && File(crc, rs + [r]) == File(crc, rs) + Bytes(crc, off, Frags(off, r, true))
            && EndOffset(0, AllFrags(0, rs + [r])) == EndOffset(off, Frags(off, r, true))
  {
    hide Fits, Frags, AllFrags;
    var fs := AllFrags(0, rs);
    AllFragsSnoc(0, rs, r);
    BytesAppend(crc, 0, fs, Frags(EndOffset(0, fs), r, true));
    FitsAppend(0, fs, Frags(EndOffset(0, fs), r, true));
  }

  class Writer {
    const crc: Checksum
    const typeCrc: seq<nat>
    var dest: seq<Byte>
    var blockOffset: nat
    ghost var written: seq<seq<Byte>>

    ghost predicate Valid()
      reads this
    {
      && CrcOk() && dest == File(crc, written) && blockOffset == EndOffset(0, AllFrags(0, written))
    }

    constructor (c: Checksum)
      requires c.Lawful()
      ensures Valid() && written == [] && dest == []
    {
      crc, typeCrc := c, seq(5, i requires 0 <= i < 5 => c.value([i]));
      dest, blockOffset, written := [], 0, [];
    }

    /** The record's fragments, and nothing else, are appended. */
    method AddRecord(slice: seq<Byte>)
      requires Valid()
      modifies this
      ensures Valid() && written == old(written) + [slice]
    {
      hide Fits, Frags, Bytes, File, AllFrags, Midway;
      FileSnoc(crc, written, slice);
      ghost var off0, done: seq<Frag> := blockOffset, [];
      var ptr, begin, more := slice, true, true;
      MidwayStart(crc, off0, slice, dest);
      while more
        invariant CrcOk() && written == old(written) && blockOffset <= BLOCK && off0 == old(blockOffset)
        invariant Midway(crc, off0, slice, done, blockOffset, if more then Frags(blockOffset, ptr, begin) else [], old(dest), dest)
        decreases more, |ptr|, if BLOCK - blockOffset == HEADER then 1 else 0
      {
        ghost var off, before := blockOffset, dest;
        NextFrag(blockOffset, ptr, begin);
        var n := WriteFragment(ptr, begin);
        ghost var f := Frag(Padding(off), Kind(begin, n == |ptr|), ptr[..n]);
        MidwayStep(crc, off0, slice, done, off, f, if n == |ptr| then [] else Frags(blockOffset, ptr[n..], false),
                   old(dest), before, dest);
        done := done + [f];
        ptr := ptr[n..];
        begin := false;
        more := |ptr| > 0;
      }
      MidwayEnd(crc, off0, slice, done, blockOffset, old(dest), dest);
      written := written + [slice];
    }

    ghost predicate CrcOk() {
      crc.Lawful() && |typeCrc| == 5 && forall i :: 0 <= i < 5 ==> typeCrc[i] == crc.value([i])
    }

    /** One round: as much of the data as the block has room for, after padding if needed. */
    method WriteFragment(ptr: seq<Byte>, begin: bool) returns (n: nat)
      requires CrcOk() && blockOffset <= BLOCK
      modifies this`dest, this`blockOffset
      ensures n == Room(old(blockOffset), ptr)
      ensures var f := Frag(Padding(old(blockOffset)), Kind(begin, n == |ptr|), ptr[..n]);
              dest == old(dest) + FragBytes(crc, f) && blockOffset == Advance(old(blockOffset), f) <= BLOCK
    {
      var leftover := BLOCK - blockOffset;
      if leftover < HEADER {
        dest := dest + Zeros(leftover);
        blockOffset := 0;
      } else {
        EmptyRight(dest);
        assert Zeros(0) == [];
      }
      var avail := BLOCK - blockOffset - HEADER;
      n := if |ptr| < avail then |ptr| else avail;
      var end := |ptr| == n;
      var kind := if begin && end then FULL else if begin then FIRST else if end then LAST else MIDDLE;
      EmitPhysicalRecord(kind, ptr[..n]);
      Regrouped(old(dest), Zeros(Padding(old(blockOffset))), Header(crc, kind, ptr[..n]), ptr[..n]);
    }

    method EmitPhysicalRecord(kind: Byte, payload: seq<Byte>)
      requires |payload| <= 0xffff && blockOffset + HEADER + |payload| <= BLOCK && kind < 5
      requires CrcOk()
      modifies this`dest, this`blockOffset
      ensures dest == old(dest) + Header(crc, kind, payload) + payload
      ensures blockOffset == old(blockOffset) + HEADER + |payload|
    {
      var sum := crc.mask(crc.extend(typeCrc[kind], payload));
      dest := dest + (EncodeFixed32(sum) + [|payload| % 256, |payload| / 256, kind]);
      dest := dest + payload;
      blockOffset := blockOffset + HEADER + |payload|;
    }
  }

  // ----- The pieces of AddRecord -----

  /** Fragments `done` of the record have been appended to the file, `rest` are still to come. */
  ghost predicate Midway(crc: Checksum, off0: nat, slice: seq<Byte>, done: seq<Frag>, off: nat, rest: seq<Frag>,
                         dest0: seq<Byte>, dest: seq<Byte>) {
    && crc.Lawful() && off0 <= BLOCK && Fits(off0, done) && off == EndOffset(off0, done)
    && dest == dest0 + Bytes(crc, off0, done) && Frags(off0, slice, true) == done + rest
  }

  lemma MidwayStart(crc: Checksum, off0: nat, slice: seq<Byte>, dest: seq<Byte>)
    requires crc.Lawful() && off0 <= BLOCK
    ensures Midway(crc, off0, slice, [], off0, Frags(off0, slice, true), dest, dest)
  {
    EmptyRight(dest);
    NoFrags(crc, off0, Frags(off0, slice, true));
  }

  lemma MidwayStep(crc: Checksum, off0: nat, slice: seq<Byte>, done: seq<Frag>, off: nat, f: Frag, rest: seq<Frag>,
                   dest0: seq<Byte>, before: seq<Byte>, dest: seq<Byte>)
    requires Midway(crc, off0, slice, done, off, [f] + rest, dest0, before) && off <= BLOCK
    requires f.pad == Padding(off) && Advance(off, f) <= BLOCK && FULL <= f.kind <= LAST
    requires dest == before + FragBytes(crc, f)
    ensures Midway(crc, off0, slice, done + [f], Advance(off, f), rest, dest0, dest)
  {
    hide Fits, Frags, Bytes, FragBytes;
    Emitted(crc, off0, done, f, off);
    Assoc(dest0, Bytes(crc, off0, done), FragBytes(crc, f));
    FragSnoc(done, f, rest);
  }

  lemma MidwayEnd(crc: Checksum, off0: nat, slice: seq<Byte>, done: seq<Frag>, off: nat, dest0: seq<Byte>, dest: seq<Byte>)
    requires Midway(crc, off0, slice, done, off, [], dest0, dest)
    ensures off0 <= BLOCK && Fits(off0, Frags(off0, slice, true))
    ensures dest == dest0 + Bytes(crc, off0, Frags(off0, slice, true)) && off == EndOffset(off0, Frags(off0, slice, true))
  {
    EmptyTail(done);
  }

  lemma EmptyRight<T>(a: seq<T>)
    ensures a + [] == a
  {}

  lemma NoFrags(crc: Checksum, off: nat, fs: seq<Frag>)
    requires crc.Lawful() && off <= BLOCK
    ensures Fits(off, []) && EndOffset(off, []) == off && Bytes(crc, off, []) == [] && [] + fs == fs
  {}

  lemma EmptyTail(fs: seq<Frag>)
    ensures fs + [] == fs
  {}

  lemma NextFrag(off: nat, data: seq<Byte>, begin: bool)
    requires off <= BLOCK
    ensures var n := Room(off, data);
            Frags(off, data, begin)
            == [Frag(Padding(off), Kind(begin, n == |data|), data[..n])]
               + (if n == |data| then [] else Frags(HeaderAt(off) + HEADER + n, data[n..], false))
  {}

  lemma Regrouped(a: seq<Byte>, z: seq<Byte>, h: seq<Byte>, p: seq<Byte>)
    ensures a + z + h + p == a + (z + h + p)
  {}

  lemma FragSnoc(done: seq<Frag>, f: Frag, rest: seq<Frag>)
    ensures done + ([f] + rest) == done + [f] + rest
  {}

  lemma Emitted(crc: Checksum, off0: nat, done: seq<Frag>, f: Frag, off: nat)
    requires crc.Lawful() && off0 <= BLOCK && Fits(off0, done) && off == EndOffset(off0, done)
    requires f.pad == Padding(off) && Advance(off, f) <= BLOCK && FULL <= f.kind <= LAST
    ensures Fits(off0, done + [f]) && EndOffset(off0, done + [f]) == Advance(off, f)
    ensures Bytes(crc, off0, done + [f]) == Bytes(crc, off0, done) + FragBytes(crc, f)
  {
    assert [f][1..] == [];
    NoFrags(crc, Advance(off, f), []);
    assert Fits(off, [f]) && EndOffset(off, [f]) == Advance(off, f);
    FitsAppend(off0, done, [f]);
    BytesAppend(crc, off0, done, [f]);
    assert Bytes(crc, off, [f]) == FragBytes(crc, f) + [];
  }
}
