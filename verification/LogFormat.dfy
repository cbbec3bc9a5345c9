/** The layout of the log: records cut into fragments that never cross a block. */
module LogFormat {
  import opened Coding
  import opened Common

  const BLOCK: nat := 32768
  const HEADER: nat := 7

  const FULL: Byte := 1
  const FIRST: Byte := 2
  const MIDDLE: Byte := 3
  const LAST: Byte := 4

  /** crc32c, of which only these laws are used. */
  datatype Checksum = Checksum(value: seq<Byte> -> nat, extend: (nat, seq<Byte>) -> nat,
                               mask: nat -> nat, unmask: nat -> nat)
  {
    ghost predicate Lawful() {
      && (forall a :: value(a) < LIMIT32)
      && (forall a, b :: extend(value(a), b) == value(a + b))
      && (forall c: nat :: c < LIMIT32 ==> mask(c) < LIMIT32 && unmask(mask(c)) == c)
    }
  }

  // ----- Fragments -----

  /** Zero bytes up to the next block, a type and a payload. */
  datatype Frag = Frag(pad: nat, kind: Byte, payload: seq<Byte>)

  function Padding(off: nat): nat
    requires off <= BLOCK
  {
    if BLOCK - off < HEADER then BLOCK - off else 0
  }

  /** Where in the block the header goes. */
  function HeaderAt(off: nat): nat
    requires off <= BLOCK
    ensures HeaderAt(off) + HEADER <= BLOCK
  {
    if BLOCK - off < HEADER then 0 else off
  }

  function Room(off: nat, data: seq<Byte>): (n: nat)
    requires off <= BLOCK
    ensures n <= |data| && HeaderAt(off) + HEADER + n <= BLOCK
  {
    var avail := BLOCK - HeaderAt(off) - HEADER;
    if |data| < avail then |data| else avail
  }

  function Kind(begin: bool, end: bool): Byte {
    if begin && end then FULL else if begin then FIRST else if end then LAST else MIDDLE
  }

  /** The fragments of one record written at block offset off. */
  function Frags(off: nat, data: seq<Byte>, begin: bool): seq<Frag>
    requires off <= BLOCK
    decreases |data|, if BLOCK - off == HEADER then 1 else 0
  {
    var n := Room(off, data);
    var f := Frag(Padding(off), Kind(begin, n == |data|), data[..n]);
    if n == |data| then [f] else [f] + Frags(HeaderAt(off) + HEADER + n, data[n..], false)
  }

  /** The block offset after a fragment, and after a list of them. */
  function Advance(off: nat, f: Frag): nat
    requires off <= BLOCK
  {
    HeaderAt(off) + HEADER + |f.payload|
  }

  ghost predicate Fits(off: nat, fs: seq<Frag>)
    requires off <= BLOCK
    decreases |fs|
  {
    fs == [] || (&& fs[0].pad == Padding(off) && Advance(off, fs[0]) <= BLOCK && FULL <= fs[0].kind <= LAST
                 && Fits(Advance(off, fs[0]), fs[1..]))
  }

  function EndOffset(off: nat, fs: seq<Frag>): nat
    requires off <= BLOCK && Fits(off, fs)
    ensures EndOffset(off, fs) <= BLOCK
    decreases |fs|
  {
    if fs == [] then off else EndOffset(Advance(off, fs[0]), fs[1..])
  }

  lemma {:induction false} FragsFit(off: nat, data: seq<Byte>, begin: bool)
    requires off <= BLOCK
    ensures Fits(off, Frags(off, data, begin)) && |Frags(off, data, begin)| > 0
    decreases |data|, if BLOCK - off == HEADER then 1 else 0
  {
    var n := Room(off, data);
    if n < |data| {
      FragsFit(HeaderAt(off) + HEADER + n, data[n..], false);
    }
  }

  /** The fragments of a list of records. */
  function AllFrags(off: nat, rs: seq<seq<Byte>>): (fs: seq<Frag>)
    requires off <= BLOCK
    ensures Fits(off, fs)
    decreases |rs|
  {
    if rs == [] then []
    else
      FragsFit(off, rs[0], true);
      var gs := Frags(off, rs[0], true);
      var rest := AllFrags(EndOffset(off, gs), rs[1..]);
      FitsAppend(off, gs, rest);
      gs + rest
  }

  lemma {:induction false} FitsAppend(off: nat, fs: seq<Frag>, gs: seq<Frag>)
    requires off <= BLOCK && Fits(off, fs) && Fits(EndOffset(off, fs), gs)
    ensures Fits(off, fs + gs) && EndOffset(off, fs + gs) == EndOffset(EndOffset(off, fs), gs)
    decreases |fs|
  {
    if fs == [] {
      assert fs + gs == gs;
    } else {
      FitsAppend(Advance(off, fs[0]), fs[1..], gs);
      assert (fs + gs)[1..] == fs[1..] + gs;
    }
  }

  // ----- Bytes -----

  function Zeros(n: nat): seq<Byte> { seq(n, _ => 0) }

  function Header(crc: Checksum, kind: Byte, payload: seq<Byte>): (h: seq<Byte>)
    requires crc.Lawful() && |payload| <= 0xffff
    ensures |h| == HEADER
  {
    EncodeFixed32(crc.mask(crc.value([kind] + payload))) + [|payload| % 256, |payload| / 256, kind]
  }

  function FragBytes(crc: Checksum, f: Frag): (b: seq<Byte>)
    requires crc.Lawful() && |f.payload| <= 0xffff
    ensures |b| == f.pad + HEADER + |f.payload|
  {
    Zeros(f.pad) + Header(crc, f.kind, f.payload) + f.payload
  }

  function Bytes(crc: Checksum, off: nat, fs: seq<Frag>): seq<Byte>
    requires crc.Lawful() && off <= BLOCK && Fits(off, fs)
    decreases |fs|
  {
    if fs == [] then [] else FragBytes(crc, fs[0]) + Bytes(crc, Advance(off, fs[0]), fs[1..])
  }

  /** The file after a list of records has been written to an empty log. */
  function File(crc: Checksum, rs: seq<seq<Byte>>): seq<Byte>
    requires crc.Lawful()
  {
    Bytes(crc, 0, AllFrags(0, rs))
  }

  lemma {:induction false} BytesAppend(crc: Checksum, off: nat, fs: seq<Frag>, gs: seq<Frag>)
    requires crc.Lawful() && off <= BLOCK && Fits(off, fs) && Fits(EndOffset(off, fs), gs)
    ensures Fits(off, fs + gs) && Bytes(crc, off, fs + gs) == Bytes(crc, off, fs) + Bytes(crc, EndOffset(off, fs), gs)
    decreases |fs|
  {
    hide FragBytes;
    FitsAppend(off, fs, gs);
    if fs == [] {
      assert fs + gs == gs;
      EmptyLeft(Bytes(crc, off, gs));
    } else {
      var off1 := Advance(off, fs[0]);
      BytesAppend(crc, off1, fs[1..], gs);
      assert (fs + gs)[1..] == fs[1..] + gs;
      Assoc(FragBytes(crc, fs[0]), Bytes(crc, off1, fs[1..]), Bytes(crc, EndOffset(off, fs), gs));
    }
  }
}
