/** `slice` and `invert` as the loops the source runs (crates/gal-ot/src/delta.rs:411-426,
    628-661). */
module Reverting {
  import opened Basics
  import opened Utf16
  import opened Attributes
  import opened Deltas
  import opened Building
  import opened Composing
  import opened Documents
  import opened Inverting
  import opened Iterating
  import opened Engine

  // --- slice ------------------------------------------------------------

  /** The pieces that the loop of `slice` pushes, in order, wherever `start` and `end` lie. What is
      counted is the length of each piece, and a cut that splits a character makes that longer. */
  function SliceCuts(r: Reading, start: nat, end: nat, index: nat): seq<Op>
    requires Proper(r)
    decreases |r.ops|, if r.ops == [] then 0 else Remaining(r)
  {
    if index >= end || !HasMore(r) then []
    else if index < start then
      var n := Least(start - index, Remaining(r));
      SliceCuts(Onward(r, n), start, end, index + Piece(r, n).Len())
    else
      var n := Least(end - index, Remaining(r));
      [Piece(r, n)] + SliceCuts(Onward(r, n), start, end, index + Piece(r, n).Len())
  }

  /** What the machine makes of a slice, whatever the bounds. */
  function SliceAny(ops: seq<Op>, start: nat, end: nat): seq<Op> {
    SaturatingPushAll([], SliceCuts(StartOf(ops), start, end, 0))
  }

  /** A document that can be cut after `skip` units and after `n` more without splitting a character,
      or ends before that. */
  ghost predicate Sliceable(doc: seq<Op>, skip: nat, n: nat) {
    IsDocument(doc) && Sized(doc) && CutOk(Content(doc), skip) && CutOk(Content(doc), skip + n)
  }

  /** The first cut of a slice: it leaves a document that the rest of the slice can be taken from. */
  lemma {:induction false} SliceDocument(doc: seq<Op>, skip: nat, n: nat)
    requires Sliceable(doc, skip, n) && doc != [] && skip + n > 0
    ensures var k := Least(if skip > 0 then skip else n, doc[0].Len());
            && doc[0].kind.Insert? && doc[0].Len() < INFINITY && CutsCleanly(doc, k) && Take(doc[0], k).Len() == k
            && (if skip > 0 then Sliceable(Tail(doc, k), skip - k, n) else Sliceable(Tail(doc, k), 0, n - k))
  {
    hide Content, CutOk, Take, Drop, OnBoundary, CharsFor, Len16, Tail, Styled, Syms;
    var k := FirstCut(doc, if skip > 0 then skip else n);
    HeadKinds(doc, k);
    TailSized(doc, k);
    CutShift(Content(doc), k, skip + n);
    ContentHeadOk(Tail(doc, k));
    CutAtStart(Content(Tail(doc, k)));
  }

  lemma {:induction false} SlicePass(r: Reading, skip: nat, n: nat)
    requires Proper(r) && Aligned(r) && r.ops != [] && Sliceable(RestOf(r), skip, n) && skip + n > 0
    ensures var rest := RestOf(r);
            var k := Least(if skip > 0 then skip else n, Remaining(r));
            && HasMore(r) && rest != [] && Remaining(r) == rest[0].Len()
            && Piece(r, k) == Take(rest[0], k) && Piece(r, k).Len() == k
            && Aligned(Onward(r, k)) && RestOf(Onward(r, k)) == Tail(rest, k)
            && (if skip > 0 then Sliceable(Tail(rest, k), skip - k, n) else Sliceable(Tail(rest, k), 0, n - k))
  {
    hide Sliceable, Take, OnBoundary, CharsFor, Len16, Aligned, Piece, Onward, Tail, RestOf;
    RestParts(r);
    SliceDocument(RestOf(r), skip, n);
    CutAligned(r, Least(if skip > 0 then skip else n, Remaining(r)));
  }

  lemma {:induction false} CutShift(d: seq<Cell>, k: nat, n: nat)
    requires k <= n && k <= |d|
    ensures CutOk(d, n) ==> CutOk(d[k..], n - k)
  {
    if n < |d| {
      assert d[k..][n - k..] == d[n..];
    }
  }

  lemma {:induction false} CutAtStart(d: seq<Cell>)
    requires HeadOk(d)
    ensures CutOk(d, 0)
  {
    assert d[0..] == d;
  }

  /** Past `start`, with cuts on boundaries, the pieces are the units still to take. */
  lemma {:induction false} TakeCutsAligned(r: Reading, start: nat, end: nat, index: nat)
    requires Proper(r) && Aligned(r) && start <= index <= end && Sliceable(RestOf(r), 0, end - index)
    ensures SliceCuts(r, start, end, index) == TakeUnits(RestOf(r), end - index)
    decreases |r.ops|, if r.ops == [] then 0 else Remaining(r)
  {
    hide Sliceable, Take, Tail, OnBoundary, CharsFor, RestOf, Aligned, Len16, Piece, Onward;
    RestParts(r);
    if index < end && r.ops != [] {
      SlicePass(r, 0, end - index);
      var n := Least(end - index, Remaining(r));
      SliceProgress(r, n);
      TakeCutsAligned(Onward(r, n), start, end, index + n);
    }
  }

  /** On a document, cut on boundaries, the pieces are those that make up its slice. */
  lemma {:induction false} SliceCutsAligned(r: Reading, start: nat, end: nat, index: nat)
    requires Proper(r) && Aligned(r) && index <= start <= end && Sliceable(RestOf(r), start - index, end - start)
    ensures SliceCuts(r, start, end, index) == TakeUnits(SkipUnits(RestOf(r), start - index), end - start)
    decreases |r.ops|, if r.ops == [] then 0 else Remaining(r)
  {
    hide Sliceable, Take, Tail, OnBoundary, CharsFor, RestOf, Aligned, Len16, Piece, Onward, TakeUnits;
    RestParts(r);
    if index == start {
      TakeCutsAligned(r, start, end, index);
    } else if r.ops == [] {
      TakeNothing(end - start);
    } else {
      SlicePass(r, start - index, end - start);
      var n := Least(start - index, Remaining(r));
      SliceProgress(r, n);
      SliceCutsAligned(Onward(r, n), start, end, index + n);
    }
  }

  lemma {:induction false} TakeNothing(n: nat)
    ensures TakeUnits([], n) == []
  {
  }

  /** Taking units, or using an op up, brings the loop closer to its end. */
  lemma {:induction false} SliceProgress(r: Reading, n: nat)
    requires Proper(r) && r.ops != [] && n <= Remaining(r) && (n > 0 || Remaining(r) == 0)
    ensures |Onward(r, n).ops| < |r.ops| || (Onward(r, n).ops == r.ops && Remaining(Onward(r, n)) < Remaining(r))
    ensures WordSized(r.ops) ==> WordSized(Onward(r, n).ops)
  {
  }

  /** A slice that ends before it starts is empty. */
  lemma {:induction false} SliceBackwards(r: Reading, start: nat, end: nat, index: nat)
    requires Proper(r) && end <= start
    ensures SliceCuts(r, start, end, index) == []
    decreases |r.ops|, if r.ops == [] then 0 else Remaining(r)
  {
    hide Piece, Len16, CharsFor;
    if index < end && HasMore(r) {
      var n := Least(start - index, Remaining(r));
      SliceProgress(r, n);
      SliceBackwards(Onward(r, n), start, end, index + Piece(r, n).Len());
    }
  }

  lemma {:induction false} SaturatingInserts(ops: seq<Op>, more: seq<Op>)
    requires IsDocument(more)
    ensures SaturatingPushAll(ops, more) == PushAll(ops, more)
    decreases |more|
  {
    hide SaturatingPush, Deltas.Push;
    if more != [] {
      PushInsertExact(ops, more[0]);
      SaturatingInserts(Deltas.Push(ops, more[0]), more[1..]);
    }
  }

  lemma {:induction false} PushInsertExact(ops: seq<Op>, op: Op)
    requires op.kind.Insert?
    ensures SaturatingPush(ops, op) == Deltas.Push(ops, op)
  {
  }

  /** Bounds that split no character, or lie past the end, cut out the slice. */
  lemma {:induction false} SliceAnyExact(doc: seq<Op>, start: nat, end: nat)
    requires IsDocument(doc) && Sized(doc) && CutOk(Content(doc), start) && CutOk(Content(doc), end)
    ensures SliceAny(doc, start, end) == if start <= end then Slice(doc, start, end - start) else []
  {
    hide Content, HeadOk, SliceCuts, TakeUnits, SkipUnits, SaturatingPushAll, PushAll;
    if start <= end {
      AtStart(doc);
      ContentHeadOk(doc);
      CutAtStart(Content(doc));
      SliceCutsAligned(StartOf(doc), start, end, 0);
      SkipContent(doc, start);
      SliceOfRest(Content(doc), start, end - start);
      TakeContent(SkipUnits(doc, start), end - start);
      SaturatingInserts([], TakeUnits(SkipUnits(doc, start), end - start));
    } else {
      SliceBackwards(StartOf(doc), start, end, 0);
      NothingPushed();
    }
  }

  /** One pass of the loop of `slice`. */
  lemma {:induction false} SliceCutsStep(r: Reading, start: nat, end: nat, index: nat)
    requires Proper(r) && HasMore(r) && index < end
    ensures var n := Least(if index < start then start - index else end - index, Remaining(r));
            var rest := SliceCuts(Onward(r, n), start, end, index + Piece(r, n).Len());
            && SliceCuts(r, start, end, index) == (if index < start then rest else [Piece(r, n)] + rest)
            && r.ops != []
            && (|Onward(r, n).ops| < |r.ops| || (Onward(r, n).ops == r.ops && Remaining(Onward(r, n)) < Remaining(r)))
            && (WordSized(r.ops) ==> WordSized(Onward(r, n).ops))
  {
    hide Piece, WordSized;
    SliceProgress(r, Least(if index < start then start - index else end - index, Remaining(r)));
  }

  /** Where the loop of `slice` stands. */
  ghost predicate Slicing(iter: OpIterator, out: Delta, all: seq<Op>, done: seq<Op>, start: nat, end: nat, index: nat)
    reads iter, out
  {
    && iter.InPlace() && WordSized(iter.At().ops)
    && all == done + SliceCuts(iter.At(), start, end, index) && out.ops == SaturatingPushAll([], done)
  }

  /** One pass of the loop of `slice`. */
  method SliceOnce(iter: OpIterator, out: Delta, start: nat, end: nat, index: nat, ghost all: seq<Op>,
        ghost done: seq<Op>)
      returns (index': nat, ghost done': seq<Op>)
    requires Slicing(iter, out, all, done, start, end, index) && iter.HasNext() && index < end
    modifies iter, out
    ensures Slicing(iter, out, all, done', start, end, index')
    ensures |iter.At().ops| < old(|iter.At().ops|)
         || (iter.At().ops == old(iter.At().ops) && Remaining(iter.At()) < old(Remaining(iter.At())))
  {
    hide SaturatingPush, SaturatingPushAll, SliceCuts, Piece, Onward, Len16, CharsFor, OnBoundary, Aligned, WordSized;
    ghost var r := iter.At();
    SliceCutsStep(r, start, end, index);
    var nextOp: Op;
    if index < start {
      nextOp := iter.Next(start - index);
      done' := done;
    } else {
      ghost var n := Least(end - index, Remaining(r));
      PushedOne(all, done, Piece(r, n), SliceCuts(Onward(r, n), start, end, index + Piece(r, n).Len()));
      nextOp := iter.Next(end - index);
      out.Push(nextOp);
      done' := done + [nextOp];
    }
    index' := index + nextOp.Len();
  }

  /** Extract the units from `start` to `end` of a document as a document of its own. A bound past
      the end is as good as the end; one inside a character is rounded up, piece by piece. */
  method SliceDelta(ops: seq<Op>, start: nat, end: nat) returns (r: seq<Op>)
    requires WordSized(ops)
    ensures r == SliceAny(ops, start, end)
    ensures IsDocument(ops) && Sized(ops) && CutOk(Content(ops), start) && CutOk(Content(ops), end) ==>
              r == if start <= end then Slice(ops, start, end - start) else []
  {
    hide SliceCuts, SaturatingPushAll, Slice, Content, HeadOk, CutOk, Sized, HasMore;
    var out := new Delta();
    var iter := new OpIterator(ops);
    var index: nat := 0;
    ghost var all, done: seq<Op> := SliceCuts(StartOf(ops), start, end, 0), [];
    assert [] + all == all;
    NothingPushed();
    while index < end && iter.HasNext()
      invariant Slicing(iter, out, all, done, start, end, index)
      decreases |iter.At().ops|, if iter.At().ops == [] then 0 else Remaining(iter.At())
    {
      index, done := SliceOnce(iter, out, start, end, index, all, done);
    }
    SliceCutsEnd(iter.At(), start, end, index);
    assert done + [] == done;
    r := out.ops;
    if IsDocument(ops) && Sized(ops) && CutOk(Content(ops), start) && CutOk(Content(ops), end) {
      SliceAnyExact(ops, start, end);
    }
  }

  lemma {:induction false} SliceCutsEnd(r: Reading, start: nat, end: nat, index: nat)
    requires Proper(r) && (index >= end || !HasMore(r))
    ensures SliceCuts(r, start, end, index) == []
  {
  }

  // --- invert -----------------------------------------------------------

  /** Push the inverse of one op over the run of the document it changed. */
  method InvertRunInto(inverted: Delta, op: Op, run: seq<Op>, ghost all: seq<Op>, ghost done: seq<Op>,
        ghost rest: seq<Op>)
    requires Progress(all, done, InvertRun(op, run) + rest, inverted.ops)
    modifies inverted
    ensures Progress(all, done + InvertRun(op, run), rest, inverted.ops)
  {
    assert InvertRun(op, run)[..0] == [] && done + [] == done;
    assert InvertRun(op, run)[0..] == InvertRun(op, run);
    for j := 0 to |run|
      invariant Progress(all, done + InvertRun(op, run)[..j], InvertRun(op, run)[j..] + rest, inverted.ops)
    {
      ghost var inverse := InvertRun(op, run);
      ghost var tail := inverse[j + 1..] + rest;
      assert inverse[j..] + rest == [inverse[j]] + tail;
      ProgressPush(all, done + inverse[..j], inverse[j], tail, inverted.ops);
      assert done + inverse[..j] + [inverse[j]] == done + inverse[..j + 1];
      SaturatingPushExact(inverted.ops, inverse[j]);
      if op.kind.Delete? {
        inverted.Push(run[j]);
      } else {
        var restored := InvertAttributes(op.attributes, run[j].attributes);
        inverted.Push(RetainOp(run[j].Len(), restored));
      }
    }
    assert InvertRun(op, run)[|run|..] + rest == rest;
    assert InvertRun(op, run)[..|run|] == InvertRun(op, run);
  }

  /** Where the loop of `invert` stands: `at` units of the base are behind it. */
  ghost predicate InvertLoop(all: seq<Op>, done: seq<Op>, change: seq<Op>, base: seq<Op>, at: nat, out: seq<Op>) {
    && IsDocument(base) && Sized(base) && at <= |Content(base)| && Fits(change, Content(base)[at..])
    && Progress(all, done, InvertList(change, base, at), out)
  }

  lemma {:induction false} InvertLoopSpan(base: seq<Op>, at: nat, change: seq<Op>)
    requires IsDocument(base) && at <= |Content(base)| && Fits(change, Content(base)[at..])
    requires change != [] && !change[0].kind.Insert?
    ensures var n := change[0].kind.n;
            && at + n <= |Content(base)| && HeadOk(Content(base)[at..]) && HeadOk(Content(base)[at + n..])
            && Fits(change[1..], Content(base)[at + n..])
  {
    assert Content(base)[at..][change[0].kind.n..] == Content(base)[at + change[0].kind.n..];
  }

  /** What undoes a retain or a delete: the run it changed is read off the base. */
  method InvertSpan(inverted: Delta, change: seq<Op>, base: seq<Op>, at: nat, ghost all: seq<Op>, ghost done: seq<Op>)
      returns (ghost done': seq<Op>)
    requires IsDocument(base) && Sized(base) && change != [] && !change[0].kind.Insert?
    requires at + change[0].kind.n <= |Content(base)|
    requires HeadOk(Content(base)[at..]) && HeadOk(Content(base)[at + change[0].kind.n..])
    requires Progress(all, done, InvertList(change, base, at), inverted.ops)
    modifies inverted
    ensures Progress(all, done', InvertList(change[1..], base, at + change[0].kind.n), inverted.ops)
  {
    hide Content, HeadOk, Progress, SaturatingPush, Deltas.Push, Slice, InvertRun;
    var op := change[0];
    var n := op.kind.n;
    ghost var rest := InvertList(change[1..], base, at + n);
    if op.kind.Retain? && op.attributes == map[] {
      ProgressPush(all, done, RetainOp(n), rest, inverted.ops);
      SaturatingPushExact(inverted.ops, RetainOp(n));
      inverted.Push(RetainOp(n));
      done' := done + [RetainOp(n)];
    } else {
      var run := SliceDelta(base, at, at + n);
      assert InvertList(change, base, at) == InvertRun(op, run) + rest;
      InvertRunInto(inverted, op, run, all, done, rest);
      done' := done + InvertRun(op, run);
    }
  }

  lemma {:induction false} InvertLoopInsert(all: seq<Op>, done: seq<Op>, change: seq<Op>, base: seq<Op>, at: nat,
        out: seq<Op>)
    requires InvertLoop(all, done, change, base, at, out) && change != [] && change[0].kind.Insert?
    ensures var undo := DeleteOp(change[0].Len());
            && SaturatingPush(out, undo) == Deltas.Push(out, undo)
            && InvertLoop(all, done + [undo], change[1..], base, at, Deltas.Push(out, undo))
  {
    hide Content, HeadOk, SaturatingPush, Deltas.Push, Progress;
    ProgressPush(all, done, DeleteOp(change[0].Len()), InvertList(change[1..], base, at), out);
    SaturatingPushExact(out, DeleteOp(change[0].Len()));
  }

  /** One op of the change, turned into what undoes it. */
  method InvertOp(inverted: Delta, change: seq<Op>, base: seq<Op>, at: nat, ghost all: seq<Op>, ghost done: seq<Op>)
      returns (at': nat, ghost done': seq<Op>)
    requires InvertLoop(all, done, change, base, at, inverted.ops) && change != []
    modifies inverted
    ensures InvertLoop(all, done', change[1..], base, at', inverted.ops)
  {
    hide Content, HeadOk, Progress, SaturatingPush, Deltas.Push, Fits, InvertList;
    var op := change[0];
    match op.kind
    case Insert(_) => {
      InvertLoopInsert(all, done, change, base, at, inverted.ops);
      inverted.Push(DeleteOp(op.Len()));
      at', done' := at, done + [DeleteOp(op.Len())];
    }
    case _ => {
      InvertLoopSpan(base, at, change);
      done' := InvertSpan(inverted, change, base, at, all, done);
      at' := at + op.kind.n;
    }
  }

  /** The inverse of a change, taken against the document it is for. */
  method InvertDeltas(change: seq<Op>, base: seq<Op>) returns (r: seq<Op>)
    requires IsDocument(base) && Sized(base) && Fits(change, Content(base))
    requires |Effect(Content(base), change)| <= INFINITY
    ensures r == Invert(change, base)
  {
    var inverted := new Delta();
    var baseIndex: nat := 0;
    ghost var all, done: seq<Op> := InvertList(change, base, 0), [];
    InvertStart(change, base);
    for i := 0 to |change|
      invariant InvertLoop(all, done, change[i..], base, baseIndex, inverted.ops)
    {
      assert change[i..][1..] == change[i + 1..];
      baseIndex, done := InvertOp(inverted, change[i..], base, baseIndex, all, done);
    }
    assert done + [] == done;
    inverted.Chop();
    r := inverted.ops;
  }

  lemma {:induction false} InvertStart(change: seq<Op>, base: seq<Op>)
    requires IsDocument(base) && Sized(base) && Fits(change, Content(base))
    requires |Effect(Content(base), change)| <= INFINITY
    ensures change[0..] == change
    ensures InvertLoop(InvertList(change, base, 0), [], change, base, 0, [])
  {
    assert Content(base)[0..] == Content(base);
    InvertListMeans(change, base, 0);
    FitsAppend(InvertList(change, base, 0), [], Effect(Content(base), change));
    assert [] + InvertList(change, base, 0) == InvertList(change, base, 0);
  }
}
