/** Version::GetOverlappingInputs: files that touch a range, closed under overlap on level 0. */
module LsmOverlap {
  import opened Common
  import opened Lsm

  datatype FileSpan = FileSpan(number: nat, start: UserKey, limit: UserKey)

  /** A missing bound is unbounded. */
  datatype Range = Range(lo: Option<UserKey>, hi: Option<UserKey>)

  predicate Overlaps(f: FileSpan, r: Range) {
    !(r.lo.Some? && f.limit < r.lo.value) && !(r.hi.Some? && f.start > r.hi.value)
  }

  predicate Inside(f: FileSpan, r: Range) {
    (r.lo.Some? ==> r.lo.value <= f.start) && (r.hi.Some? ==> f.limit <= r.hi.value)
  }

  predicate Covers(r: Range, q: Range) {
    && (r.lo.Some? ==> q.lo.Some? && r.lo.value <= q.lo.value)
    && (r.hi.Some? ==> q.hi.Some? && q.hi.value <= r.hi.value)
  }

  /** Every file that touches the range lies inside it. */
  ghost predicate Closed(files: seq<FileSpan>, r: Range) {
    forall i :: 0 <= i < |files| && Overlaps(files[i], r) ==> Inside(files[i], r)
  }

  /** The least closed range that covers q. */
  ghost predicate LeastClosed(files: seq<FileSpan>, q: Range, r: Range) {
    && Closed(files, r) && Covers(r, q)
    && forall s :: Closed(files, s) && Covers(s, q) ==> Covers(s, r)
  }

  function Touching(files: seq<FileSpan>, r: Range): seq<FileSpan> {
    if files == [] then []
    else Touching(files[..|files| - 1], r)
         + (if Overlaps(files[|files| - 1], r) then [files[|files| - 1]] else [])
  }

  // ----- Termination: every restart leaves fewer end points outside the range -----

  function Outside(files: seq<FileSpan>, r: Range): nat {
    if files == [] then 0
    else
      var f := files[|files| - 1];
      Outside(files[..|files| - 1], r) + (if r.lo.Some? && f.start < r.lo.value then 1 else 0)
        + (if r.hi.Some? && f.limit > r.hi.value then 1 else 0)
  }

  lemma {:induction false} OutsideShrinks(files: seq<FileSpan>, r: Range, s: Range, i: nat)
    requires Covers(s, r) && s.lo.Some? == r.lo.Some? && s.hi.Some? == r.hi.Some?
    ensures Outside(files, s) <= Outside(files, r)
    ensures i < |files| && !Inside(files[i], r) && (r.lo.Some? && files[i].start < r.lo.value ==> s.lo.value <= files[i].start)
            && (!(r.lo.Some? && files[i].start < r.lo.value) ==> r.hi.Some? && files[i].limit <= s.hi.value) ==>
              Outside(files, s) < Outside(files, r)
  {
    if files != [] {
      var rest := files[..|files| - 1];
      OutsideShrinks(rest, r, s, i);
      if i < |rest| { assert rest[i] == files[i]; }
    }
  }

  lemma TouchingNext(files: seq<FileSpan>, i: nat, r: Range)
    requires i < |files|
    ensures Touching(files[..i + 1], r) == Touching(files[..i], r) + (if Overlaps(files[i], r) then [files[i]] else [])
  {
    assert files[..i + 1][..i] == files[..i];
  }

  /** Widening to a touching file stays inside every closed range around the request. */
  lemma WidenKeepsLeast(files: seq<FileSpan>, q: Range, r: Range, f: FileSpan, s: Range)
    requires f in files && Overlaps(f, r) && Closed(files, s) && Covers(s, r)
    ensures Inside(f, s)
  {
    var i :| 0 <= i < |files| && files[i] == f;
    assert Overlaps(files[i], s);
  }

  method GetOverlappingInputs(level: nat, files: seq<FileSpan>, q: Range) returns (inputs: seq<FileSpan>)
    ensures level > 0 ==> inputs == Touching(files, q)
    ensures level == 0 ==> exists r :: LeastClosed(files, q, r) && inputs == Touching(files, r)
  {
    inputs := [];
    var range := q;
    var i := 0;
    assert files[..0] == [];
    while i < |files|
      invariant 0 <= i <= |files| && inputs == Touching(files[..i], range)
      invariant range.lo.Some? == q.lo.Some? && range.hi.Some? == q.hi.Some?
      invariant level > 0 ==> range == q
      invariant Covers(range, q) && forall s :: Closed(files, s) && Covers(s, q) ==> Covers(s, range)
      invariant level == 0 ==> forall j :: 0 <= j < i && Overlaps(files[j], range) ==> Inside(files[j], range)
      decreases Outside(files, range), |files| - i
    {
      var f := files[i];
      TouchingNext(files, i, range);
      i := i + 1;
      if range.lo.Some? && f.limit < range.lo.value {
      } else if range.hi.Some? && f.start > range.hi.value {
      } else {
        inputs := inputs + [f];
        if level == 0 {
          forall s | Closed(files, s) && Covers(s, q) ensures Inside(f, s) { WidenKeepsLeast(files, q, range, f, s); }
          if range.lo.Some? && f.start < range.lo.value {
            ghost var before := range;
            range := range.(lo := Some(f.start));
            OutsideShrinks(files, before, range, i - 1);
            inputs, i := [], 0;
          } else if range.hi.Some? && f.limit > range.hi.value {
            ghost var before := range;
            range := range.(hi := Some(f.limit));
            OutsideShrinks(files, before, range, i - 1);
            inputs, i := [], 0;
          }
        }
      }
    }
    assert files[..i] == files;
    assert level == 0 ==> LeastClosed(files, q, range);
  }

  /** Exactly the files touching the range are returned, each as often as it occurs. */
  lemma {:induction false} TouchingHas(files: seq<FileSpan>, r: Range, f: FileSpan)
    ensures f in Touching(files, r) <==> f in files && Overlaps(f, r)
  {
    if files != [] {
      TouchingHas(files[..|files| - 1], r, f);
      assert files == files[..|files| - 1] + [files[|files| - 1]];
    }
  }

  /** They come in the order of the level. */
  lemma {:induction false} TouchingInOrder(files: seq<FileSpan>, r: Range) returns (idx: seq<nat>)
    ensures Picks(files, Touching(files, r), idx) && forall i :: i in idx <==> 0 <= i < |files| && Overlaps(files[i], r)
  {
    hide Picks;
    if files == [] {
      idx := [];
      PicksNone(files);
    } else {
      var front, f := files[..|files| - 1], files[|files| - 1];
      assert files == front + [f];
      idx := TouchingInOrder(front, r);
      PicksLonger(front, f, Touching(front, r), idx);
      if Overlaps(f, r) {
        assert forall j :: 0 <= j < |idx| ==> idx[j] in idx;
        PicksMore(files, Touching(front, r), idx, |front|);
        idx := idx + [|front|];
      } else {
        assert Touching(front, r) + [] == Touching(front, r);
      }
    }
  }

  /** Two least closed ranges are the same: the result does not depend on the order of the files. */
  lemma LeastIsUnique(files: seq<FileSpan>, q: Range, r: Range, s: Range)
    requires LeastClosed(files, q, r) && LeastClosed(files, q, s)
    ensures r == s
  {
    assert Covers(r, s) && Covers(s, r);
  }
}
