/** VersionEdit: a change to the set of files, and its encoding as one manifest record. */
module LsmEdit {
  import opened Common
  import opened Coding

  const NUM_LEVELS: nat := 7

  datatype FileMeta = FileMeta(number: nat, size: nat, smallest: seq<Byte>, largest: seq<Byte>)

  datatype Edit = Edit(comparator: Option<seq<Byte>>, logNumber: Option<nat>, prevLogNumber: Option<nat>,
                       nextFile: Option<nat>, lastSequence: Option<nat>,
                       compactPointers: seq<(nat, seq<Byte>)>, deleted: seq<(nat, nat)>, newFiles: seq<(nat, FileMeta)>)

  const EMPTY: Edit := Edit(None, None, None, None, None, [], [], [])

  /** The order in which the set of deleted files is walked. */
  predicate PairLess(p: (nat, nat), q: (nat, nat)) { p.0 < q.0 || (p.0 == q.0 && p.1 < q.1) }

  ghost predicate Ordered(s: seq<(nat, nat)>) {
    forall i, j :: 0 <= i < j < |s| ==> PairLess(s[i], s[j])
  }

  /** Insertion into the set. */
  function InsertPair(s: seq<(nat, nat)>, p: (nat, nat)): seq<(nat, nat)> {
    if s == [] then [p]
    else
      var q := s[|s| - 1];
      if q == p then s else if PairLess(q, p) then s + [p] else InsertPair(s[..|s| - 1], p) + [q]
  }

  // ----- One field -----

  datatype Item =
    | Comparator(name: seq<Byte>)
    | LogNumber(n: nat)
    | NextFile(n: nat)
    | LastSequence(n: nat)
    | CompactPointer(level: nat, key: seq<Byte>)
    | DeletedFile(level: nat, number: nat)
    | NewFile(level: nat, f: FileMeta)
    | PrevLogNumber(n: nat)

  predicate IsSlice(s: seq<Byte>) { |s| < LIMIT32 }

  predicate Encodable(it: Item) {
    match it
    case Comparator(name) => IsSlice(name)
    case LogNumber(n) => n < LIMIT64
    case NextFile(n) => n < LIMIT64
    case LastSequence(n) => n < LIMIT64
    case CompactPointer(level, key) => level < NUM_LEVELS && IsSlice(key)
    case DeletedFile(level, number) => level < NUM_LEVELS && number < LIMIT64
    case NewFile(level, f) =>
      level < NUM_LEVELS && f.number < LIMIT64 && f.size < LIMIT64 && IsSlice(f.smallest) && IsSlice(f.largest)
    case PrevLogNumber(n) => n < LIMIT64
  }

  function Tag(it: Item): nat {
    match it
    case Comparator(_) => 1
    case LogNumber(_) => 2
    case NextFile(_) => 3
    case LastSequence(_) => 4
    case CompactPointer(_, _) => 5
    case DeletedFile(_, _) => 6
    case NewFile(_, _) => 7
    case PrevLogNumber(_) => 9
  }

  function Body(it: Item): seq<Byte> {
    match it
    case Comparator(name) => PutSlice(name)
    case LogNumber(n) => PutVarint(n)
    case NextFile(n) => PutVarint(n)
    case LastSequence(n) => PutVarint(n)
    case CompactPointer(level, key) => PutVarint(level) + PutSlice(key)
    case DeletedFile(level, number) => PutVarint(level) + PutVarint(number)
    case NewFile(level, f) =>
      PutVarint(level) + (PutVarint(f.number) + (PutVarint(f.size) + (PutSlice(f.smallest) + PutSlice(f.largest))))
    case PrevLogNumber(n) => PutVarint(n)
  }

  function GetLevel(b: seq<Byte>): (r: Option<(nat, seq<Byte>)>)
    ensures r.Some? ==> r.value.0 < NUM_LEVELS && |r.value.1| < |b|
  {
    var r := GetVarint32(b);
    if r.None? || r.value.0 >= NUM_LEVELS then None else r
  }

  function ParseFile(level: nat, b: seq<Byte>): (r: Option<(Item, seq<Byte>)>)
    ensures r.Some? ==> |r.value.1| < |b|
  {
    var n := GetVarint64(b);
    if n.None? then None
    else
      var z := GetVarint64(n.value.1);
      if z.None? then None
      else
        var x := GetSlice(z.value.1);
        if x.None? then None
        else
          var y := GetSlice(x.value.1);
          if y.None? then None
          else Some((NewFile(level, FileMeta(n.value.0, z.value.0, x.value.0, y.value.0)), y.value.1))
  }

  /** The switch of DecodeFrom: what follows a tag. */
  function ParseBody(tag: nat, b: seq<Byte>): (r: Option<(Item, seq<Byte>)>)
    ensures r.Some? ==> |r.value.1| < |b|
  {
    if tag == 1 then
      var s := GetSlice(b);
      if s.None? then None else Some((Comparator(s.value.0), s.value.1))
    else if tag == 2 || tag == 3 || tag == 4 || tag == 9 then
      var n := GetVarint64(b);
      if n.None? then None
      else Some((if tag == 2 then LogNumber(n.value.0) else if tag == 3 then NextFile(n.value.0)
                 else if tag == 4 then LastSequence(n.value.0) else PrevLogNumber(n.value.0), n.value.1))
    else if tag == 5 || tag == 6 || tag == 7 then
      var l := GetLevel(b);
      if l.None? then None
      else if tag == 5 then
        var s := GetSlice(l.value.1);
        if s.None? then None else Some((CompactPointer(l.value.0, s.value.0), s.value.1))
      else if tag == 6 then
        var n := GetVarint64(l.value.1);
        if n.None? then None else Some((DeletedFile(l.value.0, n.value.0), n.value.1))
      else ParseFile(l.value.0, l.value.1)
    else None
  }

  lemma LevelRoundTrip(level: nat, rest: seq<Byte>)
    requires level < NUM_LEVELS
    ensures GetLevel(PutVarint(level) + rest) == Some((level, rest))
  {
    Varint32RoundTrip(level, rest);
  }

  lemma FileRoundTrip(level: nat, f: FileMeta, rest: seq<Byte>)
    requires Encodable(NewFile(level, f))
    ensures ParseFile(level, (PutVarint(f.number) + (PutVarint(f.size) + (PutSlice(f.smallest) + PutSlice(f.largest)))) + rest)
            == Some((NewFile(level, f), rest))
  {
    hide PutVarint, PutSlice, GetVarint64, GetSlice;
    var n, z, x, y := PutVarint(f.number), PutVarint(f.size), PutSlice(f.smallest), PutSlice(f.largest);
    Assoc(n, z + (x + y), rest);
    Assoc(z, x + y, rest);
    Assoc(x, y, rest);
    Varint64RoundTrip(f.number, z + (x + (y + rest)));
    Varint64RoundTrip(f.size, x + (y + rest));
    SliceRoundTrip(f.smallest, y + rest);
    SliceRoundTrip(f.largest, rest);
  }

  lemma BodyRoundTrip(it: Item, rest: seq<Byte>)
    requires Encodable(it)
    ensures ParseBody(Tag(it), Body(it) + rest) == Some((it, rest))
  {
    hide PutVarint, PutSlice, GetVarint64, GetSlice, GetLevel, ParseFile;
    match it {
      case Comparator(name) => SliceRoundTrip(name, rest);
      case LogNumber(n) => Varint64RoundTrip(n, rest);
      case NextFile(n) => Varint64RoundTrip(n, rest);
      case LastSequence(n) => Varint64RoundTrip(n, rest);
      case CompactPointer(level, key) =>
        Assoc(PutVarint(level), PutSlice(key), rest);
        LevelRoundTrip(level, PutSlice(key) + rest);
        SliceRoundTrip(key, rest);
      case DeletedFile(level, number) =>
        Assoc(PutVarint(level), PutVarint(number), rest);
        LevelRoundTrip(level, PutVarint(number) + rest);
        Varint64RoundTrip(number, rest);
      case NewFile(level, f) =>
        var body := PutVarint(f.number) + (PutVarint(f.size) + (PutSlice(f.smallest) + PutSlice(f.largest)));
        Assoc(PutVarint(level), body, rest);
        LevelRoundTrip(level, body + rest);
        FileRoundTrip(level, f, rest);
      case PrevLogNumber(n) => Varint64RoundTrip(n, rest);
    }
  }

  // ----- The whole record -----

  function ItemBytes(it: Item): seq<Byte> { PutVarint(Tag(it)) + Body(it) }

  function Bytes(its: seq<Item>): seq<Byte> {
    if its == [] then [] else ItemBytes(its[0]) + Bytes(its[1..])
  }

  /** One field read by DecodeFrom. */
  function Set(e: Edit, it: Item): Edit {
    match it
    case Comparator(name) => e.(comparator := Some(name))
    case LogNumber(n) => e.(logNumber := Some(n))
    case NextFile(n) => e.(nextFile := Some(n))
    case LastSequence(n) => e.(lastSequence := Some(n))
    case CompactPointer(level, key) => e.(compactPointers := e.compactPointers + [(level, key)])
    case DeletedFile(level, number) => e.(deleted := InsertPair(e.deleted, (level, number)))
    case NewFile(level, f) => e.(newFiles := e.newFiles + [(level, f)])
    case PrevLogNumber(n) => e.(prevLogNumber := Some(n))
  }

  function SetAll(e: Edit, its: seq<Item>): Edit
    decreases |its|
  {
    if its == [] then e else SetAll(Set(e, its[0]), its[1..])
  }

  /** What a record says, or None if it is malformed. */
  function Decode(e: Edit, b: seq<Byte>): Option<Edit>
    decreases |b|
  {
    var t := GetVarint32(b);
    if t.None? then (if b == [] then Some(e) else None)
    else
      var r := ParseBody(t.value.0, t.value.1);
      if r.None? then None else Decode(Set(e, r.value.0), r.value.1)
  }

  /** Whatever follows written fields is decoded on top of what they set. */
  lemma {:induction false} DecodeThenRest(e: Edit, its: seq<Item>, rest: seq<Byte>)
    requires forall i :: 0 <= i < |its| ==> Encodable(its[i])
    ensures Decode(e, Bytes(its) + rest) == Decode(SetAll(e, its), rest)
    decreases |its|
  {
    hide PutVarint, Body, GetVarint32, ParseBody, Set;
    if its == [] {
      EmptyLeft(rest);
    } else {
      var it, tail := its[0], Bytes(its[1..]) + rest;
      Assoc(ItemBytes(it), Bytes(its[1..]), rest);
      Assoc(PutVarint(Tag(it)), Body(it), tail);
      Varint32RoundTrip(Tag(it), Body(it) + tail);
      BodyRoundTrip(it, tail);
      DecodeThenRest(Set(e, it), its[1..], rest);
    }
  }

  lemma DecodeBytes(e: Edit, its: seq<Item>)
    requires forall i :: 0 <= i < |its| ==> Encodable(its[i])
    ensures Decode(e, Bytes(its)) == Some(SetAll(e, its))
  {
    hide GetVarint32, SetAll;
    DecodeThenRest(e, its, []);
    assert Bytes(its) + [] == Bytes(its);
    NoTag();
  }

  /** An unknown tag, or bytes that are no tag, spoil the whole record, wherever they come. */
  lemma SpoiltRecord(e: Edit, its: seq<Item>, rest: seq<Byte>)
    requires (forall i :: 0 <= i < |its| ==> Encodable(its[i])) && rest != []
    requires var t := GetVarint32(rest); t.None? || t.value.0 == 0 || t.value.0 == 8 || t.value.0 > 9
    ensures Decode(e, Bytes(its) + rest) == None
  {
    DecodeThenRest(e, its, rest);
    hide GetVarint32, SetAll, Bytes;
  }

  lemma NoTag()
    ensures GetVarint32([]) == None
  {}

  /** DecodeFrom, which reads field by field until the input is used up or wrong. */
  method DecodeFrom(src: seq<Byte>) returns (r: Option<Edit>)
    ensures r == Decode(EMPTY, src)
  {
    hide GetVarint32, ParseBody, Set;
    var e, input := EMPTY, src;
    while true
      invariant Decode(EMPTY, src) == Decode(e, input)
      decreases |input|
    {
      var tag := GetVarint32(input);
      if tag.None? { break; }
      var field := ParseBody(tag.value.0, tag.value.1);
      if field.None? { return None; }
      e, input := Set(e, field.value.0), field.value.1;
    }
    if input != [] { return None; }
    r := Some(e);
  }

  // ----- EncodeTo -----

  function NumberField(tag: nat, n: nat): Item {
    if tag == 2 then LogNumber(n) else if tag == 3 then NextFile(n) else if tag == 4 then LastSequence(n) else PrevLogNumber(n)
  }

  function OptItem(o: Option<nat>, tag: nat): seq<Item> {
    if o.None? then [] else [NumberField(tag, o.value)]
  }

  /** The single-valued fields, in the order they are written. */
  function HeadItems(e: Edit): seq<Item> {
    (if e.comparator.None? then [] else [Comparator(e.comparator.value)])
    + OptItem(e.logNumber, 2) + OptItem(e.prevLogNumber, 9)
    + OptItem(e.nextFile, 3) + OptItem(e.lastSequence, 4)
  }

  function PointerItems(ps: seq<(nat, seq<Byte>)>): seq<Item> {
    seq(|ps|, i requires 0 <= i < |ps| => CompactPointer(ps[i].0, ps[i].1))
  }

  function DeletedItems(ds: seq<(nat, nat)>): seq<Item> {
    seq(|ds|, i requires 0 <= i < |ds| => DeletedFile(ds[i].0, ds[i].1))
  }

  function FileItems(fs: seq<(nat, FileMeta)>): seq<Item> {
    seq(|fs|, i requires 0 <= i < |fs| => NewFile(fs[i].0, fs[i].1))
  }

  function Items(e: Edit): seq<Item> {
    HeadItems(e) + PointerItems(e.compactPointers) + DeletedItems(e.deleted) + FileItems(e.newFiles)
  }

  ghost predicate EditOk(e: Edit) {
    Ordered(e.deleted) && forall i :: 0 <= i < |Items(e)| ==> Encodable(Items(e)[i])
  }

  lemma {:induction false} BytesAppend(a: seq<Item>, b: seq<Item>)
    ensures Bytes(a + b) == Bytes(a) + Bytes(b)
    decreases |a|
  {
    hide ItemBytes;
    if a == [] {
      assert a + b == b;
      EmptyLeft(Bytes(b));
    } else {
      BytesAppend(a[1..], b);
      assert (a + b)[1..] == a[1..] + b;
      Assoc(ItemBytes(a[0]), Bytes(a[1..]), Bytes(b));
    }
  }

  lemma BytesSnoc(a: seq<Item>, it: Item)
    ensures Bytes(a + [it]) == Bytes(a) + ItemBytes(it)
  {
    hide ItemBytes;
    BytesAppend(a, [it]);
    assert [it][1..] == [];
    assert Bytes([it]) == ItemBytes(it) + [] == ItemBytes(it);
  }

  /** EncodeTo with its three loops. */
  method EncodeTo(e: Edit) returns (dst: seq<Byte>)
    ensures dst == Bytes(Items(e))
  {
    hide Bytes, ItemBytes, HeadItems;
    dst := EncodeHead(e);
    ghost var its := HeadItems(e);
    var i := 0;
    while i < |e.compactPointers|
      invariant 0 <= i <= |e.compactPointers|
      invariant its == HeadItems(e) + PointerItems(e.compactPointers)[..i] && dst == Bytes(its)
    {
      var it := CompactPointer(e.compactPointers[i].0, e.compactPointers[i].1);
      BytesSnoc(its, it);
      dst, its := dst + ItemBytes(it), its + [it];
      i := i + 1;
    }
    assert its == HeadItems(e) + PointerItems(e.compactPointers);
    ghost var its1 := its;
    i := 0;
    while i < |e.deleted|
      invariant 0 <= i <= |e.deleted| && its == its1 + DeletedItems(e.deleted)[..i] && dst == Bytes(its)
    {
      var it := DeletedFile(e.deleted[i].0, e.deleted[i].1);
      BytesSnoc(its, it);
      dst, its := dst + ItemBytes(it), its + [it];
      i := i + 1;
    }
    assert its == its1 + DeletedItems(e.deleted);
    ghost var its2 := its;
    i := 0;
    while i < |e.newFiles|
      invariant 0 <= i <= |e.newFiles| && its == its2 + FileItems(e.newFiles)[..i] && dst == Bytes(its)
    {
      var it := NewFile(e.newFiles[i].0, e.newFiles[i].1);
      BytesSnoc(its, it);
      dst, its := dst + ItemBytes(it), its + [it];
      i := i + 1;
    }
    assert its == its2 + FileItems(e.newFiles);
  }

  method EncodeHead(e: Edit) returns (dst: seq<Byte>)
    ensures dst == Bytes(HeadItems(e))
  {
    hide ItemBytes;
    dst := [];
    ghost var its: seq<Item> := [];
    if e.comparator.Some? {
      BytesSnoc(its, Comparator(e.comparator.value));
      dst, its := dst + ItemBytes(Comparator(e.comparator.value)), its + [Comparator(e.comparator.value)];
    }
    if e.logNumber.Some? {
      BytesSnoc(its, LogNumber(e.logNumber.value));
      dst, its := dst + ItemBytes(LogNumber(e.logNumber.value)), its + [LogNumber(e.logNumber.value)];
    }
    if e.prevLogNumber.Some? {
      BytesSnoc(its, PrevLogNumber(e.prevLogNumber.value));
      dst, its := dst + ItemBytes(PrevLogNumber(e.prevLogNumber.value)), its + [PrevLogNumber(e.prevLogNumber.value)];
    }
    if e.nextFile.Some? {
      BytesSnoc(its, NextFile(e.nextFile.value));
      dst, its := dst + ItemBytes(NextFile(e.nextFile.value)), its + [NextFile(e.nextFile.value)];
    }
    if e.lastSequence.Some? {
      BytesSnoc(its, LastSequence(e.lastSequence.value));
      dst, its := dst + ItemBytes(LastSequence(e.lastSequence.value)), its + [LastSequence(e.lastSequence.value)];
    }
    assert its == HeadItems(e);
  }

  // ----- Round trip -----

  lemma {:induction false} SetAllAppend(e: Edit, a: seq<Item>, b: seq<Item>)
    ensures SetAll(e, a + b) == SetAll(SetAll(e, a), b)
    decreases |a|
  {
    hide Set;
    if a == [] {
      assert a + b == b;
    } else {
      SetAllAppend(Set(e, a[0]), a[1..], b);
      assert (a + b)[1..] == a[1..] + b;
    }
  }

  lemma SetSnoc(e: Edit, a: seq<Item>, it: Item)
    ensures SetAll(e, a + [it]) == Set(SetAll(e, a), it)
  {
    hide Set;
    SetAllAppend(e, a, [it]);
    assert [it][1..] == [];
  }

  lemma HeadSet(e: Edit)
    ensures SetAll(EMPTY, HeadItems(e)) == e.(compactPointers := [], deleted := [], newFiles := [])
  {
    var a: seq<Item> := if e.comparator.None? then [] else [Comparator(e.comparator.value)];
    var b := a + OptItem(e.logNumber, 2);
    var c := b + OptItem(e.prevLogNumber, 9);
    var d := c + OptItem(e.nextFile, 3);
    var e0 := EMPTY.(comparator := e.comparator);
    assert SetAll(EMPTY, a) == e0 by { if e.comparator.Some? { assert a[1..] == []; } }
    var e1 := e0.(logNumber := e.logNumber);
    assert SetAll(EMPTY, b) == e1 by { OptSet(EMPTY, a, e.logNumber, 2); }
    var e2 := e1.(prevLogNumber := e.prevLogNumber);
    assert SetAll(EMPTY, c) == e2 by { OptSet(EMPTY, b, e.prevLogNumber, 9); }
    var e3 := e2.(nextFile := e.nextFile);
    assert SetAll(EMPTY, d) == e3 by { OptSet(EMPTY, c, e.nextFile, 3); }
    OptSet(EMPTY, d, e.lastSequence, 4);
  }

  lemma OptSet(e: Edit, a: seq<Item>, o: Option<nat>, tag: nat)
    ensures SetAll(e, a + OptItem(o, tag)) == if o.None? then SetAll(e, a) else Set(SetAll(e, a), NumberField(tag, o.value))
  {
    hide Set;
    if o.None? { assert a + [] == a; } else { SetSnoc(e, a, NumberField(tag, o.value)); }
  }

  lemma {:induction false} PointersSet(e: Edit, ps: seq<(nat, seq<Byte>)>, n: nat)
    requires n <= |ps|
    ensures SetAll(e, PointerItems(ps)[..n]) == e.(compactPointers := e.compactPointers + ps[..n])
  {
    if n == 0 {
      assert e.compactPointers + [] == e.compactPointers;
    } else {
      PointersSet(e, ps, n - 1);
      assert PointerItems(ps)[..n] == PointerItems(ps)[..n - 1] + [PointerItems(ps)[n - 1]];
      SetSnoc(e, PointerItems(ps)[..n - 1], PointerItems(ps)[n - 1]);
      assert ps[..n] == ps[..n - 1] + [ps[n - 1]];
      Assoc(e.compactPointers, ps[..n - 1], [ps[n - 1]]);
    }
  }

  lemma {:induction false} DeletedSet(e: Edit, ds: seq<(nat, nat)>, n: nat)
    requires n <= |ds| && Ordered(ds) && e.deleted == []
    ensures SetAll(e, DeletedItems(ds)[..n]) == e.(deleted := ds[..n])
  {
    if n > 0 {
      DeletedSet(e, ds, n - 1);
      assert DeletedItems(ds)[..n] == DeletedItems(ds)[..n - 1] + [DeletedItems(ds)[n - 1]];
      SetSnoc(e, DeletedItems(ds)[..n - 1], DeletedItems(ds)[n - 1]);
      assert ds[..n] == ds[..n - 1] + [ds[n - 1]];
      if n > 1 { assert PairLess(ds[n - 2], ds[n - 1]); }
    }
  }

  lemma {:induction false} FilesSet(e: Edit, fs: seq<(nat, FileMeta)>, n: nat)
    requires n <= |fs|
    ensures SetAll(e, FileItems(fs)[..n]) == e.(newFiles := e.newFiles + fs[..n])
  {
    if n == 0 {
      assert e.newFiles + [] == e.newFiles;
    } else {
      FilesSet(e, fs, n - 1);
      assert FileItems(fs)[..n] == FileItems(fs)[..n - 1] + [FileItems(fs)[n - 1]];
      SetSnoc(e, FileItems(fs)[..n - 1], FileItems(fs)[n - 1]);
      assert fs[..n] == fs[..n - 1] + [fs[n - 1]];
      Assoc(e.newFiles, fs[..n - 1], [fs[n - 1]]);
    }
  }

  /** Every edit that fits its field widths is read back as it was written. */
  lemma EditRoundTrip(e: Edit)
    requires EditOk(e)
    ensures Decode(EMPTY, Bytes(Items(e))) == Some(e)
  {
    DecodeBytes(EMPTY, Items(e));
    hide Decode, Bytes, HeadItems, PointerItems, DeletedItems, FileItems, Set, SetAll;
    var h, p, d, f := HeadItems(e), PointerItems(e.compactPointers), DeletedItems(e.deleted), FileItems(e.newFiles);
    SetAllAppend(EMPTY, h + p + d, f);
    SetAllAppend(EMPTY, h + p, d);
    SetAllAppend(EMPTY, h, p);
    HeadSet(e);
    var e0 := e.(compactPointers := [], deleted := [], newFiles := []);
    ListsSet(e0, e.compactPointers, e.deleted, e.newFiles);
  }

  lemma ListsSet(e: Edit, ps: seq<(nat, seq<Byte>)>, ds: seq<(nat, nat)>, fs: seq<(nat, FileMeta)>)
    requires e.compactPointers == [] && e.deleted == [] && e.newFiles == [] && Ordered(ds)
    ensures SetAll(e, PointerItems(ps)) == e.(compactPointers := ps)
    ensures SetAll(e.(compactPointers := ps), DeletedItems(ds)) == e.(compactPointers := ps, deleted := ds)
    ensures SetAll(e.(compactPointers := ps, deleted := ds), FileItems(fs))
            == e.(compactPointers := ps, deleted := ds, newFiles := fs)
  {
    hide SetAll;
    assert PointerItems(ps)[..|ps|] == PointerItems(ps) && ps[..|ps|] == ps;
    assert DeletedItems(ds)[..|ds|] == DeletedItems(ds) && ds[..|ds|] == ds;
    assert FileItems(fs)[..|fs|] == FileItems(fs) && fs[..|fs|] == fs;
    hide PointerItems, DeletedItems, FileItems;
    PointersSet(e, ps, |ps|);
    EmptyLeft(ps);
    DeletedSet(e.(compactPointers := ps), ds, |ds|);
    FilesSet(e.(compactPointers := ps, deleted := ds), fs, |fs|);
    EmptyLeft(fs);
  }
}
