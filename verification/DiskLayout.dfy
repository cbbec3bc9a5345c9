/** The bytes on disk, position by position, without reference to the code that reads them. */
module DiskLayout {
  import opened Common
  import opened Coding
  import LogFormat
  import WriteBatch
  import LsmEdit
  import BlockFormat

  // ----- Integers -----

  /** The i-th group of seven bits, lowest first. */
  function Group(v: nat, i: nat): nat { if i == 0 then v % 128 else Group(v / 128, i - 1) }

  /** Byte i of a varint is the i-th group; all bytes but the last have the top bit set. */
  lemma {:induction false} VarintBytes(v: nat, i: nat)
    requires i < |PutVarint(v)|
    ensures PutVarint(v)[i] as int == Group(v, i) + (if i + 1 < |PutVarint(v)| then 128 else 0)
  {
    if i > 0 { VarintBytes(v / 128, i - 1); }
  }

  /** As many bytes as the number needs and no more. */
  lemma {:induction false} VarintIsShortest(v: nat)
    ensures v < Power(|PutVarint(v)|) && (|PutVarint(v)| > 1 ==> v >= Power(|PutVarint(v)| - 1))
  {
    if v < 128 {
      assert Power(1) == 128 * Power(0);
    } else {
      VarintIsShortest(v / 128);
      assert Power(1) == 128 * Power(0);
    }
  }

  function Power256(n: nat): nat { if n == 0 then 1 else 256 * Power256(n - 1) }

  /** Fixed-width numbers are little-endian. */
  lemma FixedBytes(v: nat, i: nat)
    requires v < LIMIT32 && i < 4
    ensures |EncodeFixed32(v)| == 4 && Power256(i) > 0 && EncodeFixed32(v)[i] as int == v / Power256(i) % 256
  {
    assert Power256(1) == 256 && Power256(2) == 65536 && Power256(3) == 16777216 by {
      assert Power256(1) == 256 * Power256(0) && Power256(2) == 256 * Power256(1) && Power256(3) == 256 * Power256(2);
    }
    assert v / 16777216 < 256;
  }

  lemma Fixed64Halves(v: nat)
    requires v < LIMIT64
    ensures EncodeFixed64(v)[..4] == EncodeFixed32(v % LIMIT32) && EncodeFixed64(v)[4..] == EncodeFixed32(v / LIMIT32)
  {}

  /** Four bytes stand for one number only. */
  lemma FixedInverse(b: seq<Byte>)
    requires |b| == 4
    ensures DecodeFixed32(b) < LIMIT32 && EncodeFixed32(DecodeFixed32(b)) == b
  {
    var b0, b1, b2, b3 := b[0] as int, b[1] as int, b[2] as int, b[3] as int;
    var v := DecodeFixed32(b);
    assert v == b0 + 256 * (b1 + 256 * (b2 + 256 * b3));
    assert v % 256 == b0 && v / 256 == b1 + 256 * (b2 + 256 * b3);
    assert v / 65536 == b2 + 256 * b3 && v / 16777216 == b3;
    assert v / 256 % 256 == b1 && v / 65536 % 256 == b2;
  }

  // ----- The log -----

  /** The payloads of fragments, joined. */
  function Joined(fs: seq<LogFormat.Frag>): seq<Byte> {
    if fs == [] then [] else fs[0].payload + Joined(fs[1..])
  }

  /** The block offset after the first i fragments. */
  function After(off: nat, fs: seq<LogFormat.Frag>, i: nat): nat
    requires off <= LogFormat.BLOCK && LogFormat.Fits(off, fs) && i <= |fs|
    ensures After(off, fs, i) <= LogFormat.BLOCK
    decreases i
  {
    if i == 0 then off else After(LogFormat.Advance(off, fs[0]), fs[1..], i - 1)
  }

  /** The type of fragment i of n. */
  function TypeAt(i: nat, n: nat, begin: bool): int {
    if i == 0 && begin then (if n == 1 then 1 else 2) else if i + 1 == n then 4 else 3
  }

  lemma {:induction false} FragmentsJoin(off: nat, data: seq<Byte>, begin: bool)
    requires off <= LogFormat.BLOCK
    ensures Joined(LogFormat.Frags(off, data, begin)) == data
    decreases |data|, if LogFormat.BLOCK - off == LogFormat.HEADER then 1 else 0
  {
    var fs, n := LogFormat.Frags(off, data, begin), LogFormat.Room(off, data);
    if n < |data| {
      FragmentsJoin(LogFormat.HeaderAt(off) + LogFormat.HEADER + n, data[n..], false);
      assert data[..n] + data[n..] == data;
    } else {
      assert fs[1..] == [] && data + [] == data;
    }
  }

  lemma {:induction false} FragmentTypes(off: nat, data: seq<Byte>, begin: bool)
    requires off <= LogFormat.BLOCK
    ensures var fs := LogFormat.Frags(off, data, begin);
            fs != [] && forall i :: 0 <= i < |fs| ==> fs[i].kind as int == TypeAt(i, |fs|, begin)
    decreases |data|, if LogFormat.BLOCK - off == LogFormat.HEADER then 1 else 0
  {
    var fs, n := LogFormat.Frags(off, data, begin), LogFormat.Room(off, data);
    if n < |data| {
      FragmentTypes(LogFormat.HeaderAt(off) + LogFormat.HEADER + n, data[n..], false);
      forall i | 0 < i < |fs| ensures fs[i].kind as int == TypeAt(i, |fs|, begin) { assert fs[i] == fs[1..][i - 1]; }
    }
  }

  lemma {:induction false} FragmentsFill(off: nat, data: seq<Byte>, begin: bool)
    requires off <= LogFormat.BLOCK
    ensures var fs := LogFormat.Frags(off, data, begin);
            LogFormat.Fits(off, fs) && forall i :: 0 < i < |fs| ==> After(off, fs, i) == 32768
    decreases |data|, if LogFormat.BLOCK - off == LogFormat.HEADER then 1 else 0
  {
    LogFormat.FragsFit(off, data, begin);
    var fs, n := LogFormat.Frags(off, data, begin), LogFormat.Room(off, data);
    if n < |data| {
      var off1 := LogFormat.HeaderAt(off) + LogFormat.HEADER + n;
      FragmentsFill(off1, data[n..], false);
      assert fs[1..] == LogFormat.Frags(off1, data[n..], false);
      forall i | 0 < i < |fs| ensures After(off, fs, i) == 32768 {
        if i > 1 { assert After(off1, fs[1..], i - 1) == 32768; }
      }
    }
  }

  /**
    A record is one fragment of type 1, or a fragment of type 2, some of type 3
    and one of type 4; every fragment but the last runs to the end of its block.
  */
  lemma FragmentsOfRecord(off: nat, data: seq<Byte>)
    requires off <= LogFormat.BLOCK
    ensures var fs := LogFormat.Frags(off, data, true);
            && LogFormat.Fits(off, fs) && fs != [] && Joined(fs) == data
            && (forall i :: 0 <= i < |fs| ==> fs[i].kind as int == TypeAt(i, |fs|, true))
            && (forall i :: 0 < i < |fs| ==> After(off, fs, i) == 32768)
  {
    hide LogFormat.Frags, LogFormat.Fits, Joined, After;
    FragmentsJoin(off, data, true);
    FragmentTypes(off, data, true);
    FragmentsFill(off, data, true);
  }

  /** A fragment: zeros where fewer than seven bytes are left, checksum, length, type, payload. */
  lemma FragmentLayout(crc: LogFormat.Checksum, off: nat, f: LogFormat.Frag)
    requires crc.Lawful() && off <= LogFormat.BLOCK && |f.payload| <= 0xffff && f.pad == LogFormat.Padding(off)
    ensures var b, p := LogFormat.FragBytes(crc, f), f.pad;
            && p == (if off > 32761 then 32768 - off else 0) && |b| == p + 7 + |f.payload|
            && (forall i :: 0 <= i < p ==> b[i] == 0)
            && b[p..p + 4] == EncodeFixed32(crc.mask(crc.value([f.kind] + f.payload)))
            && b[p + 4] as int + 256 * (b[p + 5] as int) == |f.payload| && b[p + 6] == f.kind && b[p + 7..] == f.payload
  {}

  // ----- Write batches -----

  /** An update: a type byte, then length-prefixed strings. */
  lemma UpdateLayout(k: seq<Byte>, v: seq<Byte>)
    ensures WriteBatch.OpBytes(WriteBatch.Put(k, v)) == [1] + PutVarint(|k|) + k + PutVarint(|v|) + v
    ensures WriteBatch.OpBytes(WriteBatch.Delete(k)) == [0] + PutVarint(|k|) + k
  {}

  /** A batch: eight bytes of sequence number, four of count, then the updates. */
  lemma BatchLayout(b: WriteBatch.Batch)
    requires b.Valid()
    ensures |b.rep| >= 12 && b.rep[8..12] == EncodeFixed32(|b.ops|) && b.rep[12..] == WriteBatch.OpsBytes(b.ops)
  {
    FixedInverse(b.rep[8..12]);
    assert DecodeFixed32(b.rep[8..12]) == DecodeFixed32(b.rep[8..]);
  }

  // ----- Version edits -----

  lemma OneByte(n: nat)
    requires n < 128
    ensures PutVarint(n) == [n]
  {}

  /** A number of an edit: its tag and the number. */
  lemma NumberLayout(n: nat)
    ensures LsmEdit.ItemBytes(LsmEdit.LogNumber(n)) == [2] + PutVarint(n)
    ensures LsmEdit.ItemBytes(LsmEdit.NextFile(n)) == [3] + PutVarint(n)
    ensures LsmEdit.ItemBytes(LsmEdit.LastSequence(n)) == [4] + PutVarint(n)
    ensures LsmEdit.ItemBytes(LsmEdit.PrevLogNumber(n)) == [9] + PutVarint(n)
  {
    hide PutVarint;
    OneByte(2);
    OneByte(3);
    OneByte(4);
    OneByte(9);
  }

  /** The comparator's name, a compaction pointer, a deleted file. */
  lemma FieldLayout(name: seq<Byte>, n: nat, level: nat)
    ensures LsmEdit.ItemBytes(LsmEdit.Comparator(name)) == [1] + (PutVarint(|name|) + name)
    ensures LsmEdit.ItemBytes(LsmEdit.CompactPointer(level, name)) == [5] + (PutVarint(level) + (PutVarint(|name|) + name))
    ensures LsmEdit.ItemBytes(LsmEdit.DeletedFile(level, n)) == [6] + (PutVarint(level) + PutVarint(n))
  {
    hide PutVarint;
    OneByte(1);
    OneByte(5);
    OneByte(6);
  }

  /** A new file: level, number, size, smallest and largest key. */
  lemma FileLayout(level: nat, f: LsmEdit.FileMeta)
    ensures LsmEdit.ItemBytes(LsmEdit.NewFile(level, f))
            == [7] + (PutVarint(level) + (PutVarint(f.number) + (PutVarint(f.size)
               + ((PutVarint(|f.smallest|) + f.smallest) + (PutVarint(|f.largest|) + f.largest)))))
  {
    hide PutVarint;
    OneByte(7);
  }

  /** The fields of an edit, in the order they are written. */
  lemma EditLayout(e: LsmEdit.Edit)
    requires e.comparator.Some? && e.logNumber.Some? && e.prevLogNumber.Some? && e.nextFile.Some? && e.lastSequence.Some?
    ensures var its, p, d := LsmEdit.Items(e), 5 + |e.compactPointers|, 5 + |e.compactPointers| + |e.deleted|;
            && |its| == d + |e.newFiles|
            && its[0] == LsmEdit.Comparator(e.comparator.value) && its[1] == LsmEdit.LogNumber(e.logNumber.value)
            && its[2] == LsmEdit.PrevLogNumber(e.prevLogNumber.value) && its[3] == LsmEdit.NextFile(e.nextFile.value)
            && its[4] == LsmEdit.LastSequence(e.lastSequence.value)
            && (forall i :: 0 <= i < |e.compactPointers| ==>
                  its[5 + i] == LsmEdit.CompactPointer(e.compactPointers[i].0, e.compactPointers[i].1))
            && (forall i :: 0 <= i < |e.deleted| ==> its[p + i] == LsmEdit.DeletedFile(e.deleted[i].0, e.deleted[i].1))
            && (forall i :: 0 <= i < |e.newFiles| ==> its[d + i] == LsmEdit.NewFile(e.newFiles[i].0, e.newFiles[i].1))
  {
    var head := LsmEdit.HeadItems(e);
    assert |head| == 5;
  }

  // ----- Blocks -----

  /** A block entry: shared length, unshared length, value length, unshared key bytes, value. */
  lemma EntryLayout(shared: nat, e: BlockFormat.Pair)
    requires shared <= |e.key|
    ensures BlockFormat.Encode(shared, e)
            == PutVarint(shared) + (PutVarint(|e.key| - shared) + (PutVarint(|e.value|) + (e.key[shared..] + e.value)))
  {}
}
