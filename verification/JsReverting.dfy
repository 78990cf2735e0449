/** `slice` and `invert` of the browser (crates/gal-server/src/web/ot.js:305-321, 465-490), proved to
    compute, in the browser's representation, exactly what the server's engine computes. */
module JsReverting {
  import opened Basics
  import opened Utf16
  import opened Attributes
  import opened Deltas
  import opened Inverting
  import opened Iterating
  import opened Engine
  import opened Reverting
  import opened JsEngine
  import opened JsLoops

  // --- slice ------------------------------------------------------------

  /** Where the browser's loop stands. */
  ghost predicate JsSlicing(iter: JsIterator, out: JsDelta, all: seq<Op>, done: seq<Op>, start: nat, end: nat,
        index: nat)
    reads iter, out
  {
    && iter.InPlace() && WordSized(iter.At().ops)
    && all == done + SliceCuts(iter.At(), start, end, index) && Stands(out.ops, PushAll([], done))
  }

  /** One pass of the browser's loop. */
  method JsSliceOnce(iter: JsIterator, out: JsDelta, start: nat, end: nat, index: nat, ghost all: seq<Op>,
        ghost done: seq<Op>)
      returns (index': nat, ghost done': seq<Op>)
    requires JsSlicing(iter, out, all, done, start, end, index) && iter.HasNext() && index < end
    modifies iter, out
    ensures JsSlicing(iter, out, all, done', start, end, index')
    ensures |iter.At().ops| < old(|iter.At().ops|)
         || (iter.At().ops == old(iter.At().ops) && Remaining(iter.At()) < old(Remaining(iter.At())))
  {
    hide Deltas.Push, PushAll, SliceCuts, Piece, Onward, Len16, CharsFor, OnBoundary, Aligned, WordSized, EncodeOp,
      EncodeOps,
      Stands, PlainDelete;
    ghost var r := iter.At();
    SliceCutsStep(r, start, end, index);
    var nextOp: JsOp;
    if index < start {
      nextOp := iter.Next(start - index);
      done' := done;
    } else {
      ghost var n := Least(end - index, Remaining(r));
      Regrouped(all, done, [Piece(r, n)], SliceCuts(Onward(r, n), start, end, index + Piece(r, n).Len()));
      PiecePlain(r, n);
      PushAllNext(done, Piece(r, n), PushAll([], done));
      nextOp := iter.Next(end - index);
      PushEncoded(out, nextOp, Piece(r, n), PushAll([], done));
      done' := done + [Piece(r, n)];
    }
    index' := index + nextOp.Len();
  }

  /** The browser's slice is the server's, op for op, whatever the bounds. */
  method JsSlice(ops: seq<JsOp>, start: nat, end: nat, ghost source: seq<Op>) returns (r: seq<JsOp>)
    requires ops == EncodeOps(source) && IsDocument(source) && Sized(source)
    ensures r == EncodeOps(SliceAny(source, start, end))
    ensures CutOk(Content(source), start) && CutOk(Content(source), end) ==>
              r == EncodeOps(if start <= end then Slice(source, start, end - start) else [])
  {
    hide SliceCuts, SaturatingPushAll, PushAll, Slice, EncodeOps, Content, HeadOk, CutOk, HasMore;
    var out := new JsDelta();
    var iter := new JsIterator(ops, source);
    var index: nat := 0;
    ghost var all, done: seq<Op> := SliceCuts(StartOf(source), start, end, 0), [];
    assert [] + all == all;
    StandsEmpty();
    while index < end && iter.HasNext()
      invariant JsSlicing(iter, out, all, done, start, end, index)
      decreases |iter.At().ops|, if iter.At().ops == [] then 0 else Remaining(iter.At())
    {
      index, done := JsSliceOnce(iter, out, start, end, index, all, done);
    }
    SliceCutsEnd(iter.At(), start, end, index);
    assert done + [] == done;
    SliceCutsInserts(StartOf(source), start, end, 0);
    SaturatingInserts([], all);
    r := out.ops;
    if CutOk(Content(source), start) && CutOk(Content(source), end) {
      SliceAnyExact(source, start, end);
    }
  }

  /** Slices of documents are made of inserts. */
  lemma {:induction false} SliceCutsInserts(r: Reading, start: nat, end: nat, index: nat)
    requires Proper(r) && IsDocument(r.ops)
    ensures IsDocument(SliceCuts(r, start, end, index))
    decreases |r.ops|, if r.ops == [] then 0 else Remaining(r)
  {
    hide Len16, CharsFor;
    if index < end && HasMore(r) {
      var n := Least(if index < start then start - index else end - index, Remaining(r));
      SliceProgress(r, n);
      SliceCutsInserts(Onward(r, n), start, end, index + Piece(r, n).Len());
    }
  }

  // --- invert -----------------------------------------------------------

  method PushDelete(out: JsDelta, n: nat, ghost built: seq<Op>)
    requires Stands(out.ops, built)
    modifies out
    ensures Stands(out.ops, Deltas.Push(built, DeleteOp(n)))
  {
    if n == 0 {
      return;
    }
    PushEncoded(out, JsOp(JsDelete(n), map[]), DeleteOp(n), built);
  }

  /** Push the inverse of one op over the run of the document it changed. */
  method JsInvertRun(inverted: JsDelta, op: JsOp, run: seq<JsOp>, ghost held: Op, ghost source: seq<Op>,
        ghost all: seq<Op>,
        ghost done: seq<Op>, ghost rest: seq<Op>, ghost built: seq<Op>) returns (ghost built': seq<Op>)
    requires op == EncodeOp(held) && run == EncodeOps(source) && IsDocument(source) && !held.kind.Insert?
    requires Stands(inverted.ops, built) && Progress(all, done, InvertRun(held, source) + rest, built)
    modifies inverted
    ensures Stands(inverted.ops, built') && Progress(all, done + InvertRun(held, source), rest, built')
  {
    hide Progress, Stands, Deltas.Push;
    ghost var inverse := InvertRun(held, source);
    assert inverse[..0] == [] && done + [] == done && inverse[0..] == inverse;
    built' := built;
    for j := 0 to |run|
      invariant Stands(inverted.ops, built')
      invariant Progress(all, done + inverse[..j], inverse[j..] + rest, built')
    {
      ghost var tail := inverse[j + 1..] + rest;
      assert inverse[j..] + rest == [inverse[j]] + tail;
      ProgressPush(all, done + inverse[..j], inverse[j], tail, built');
      assert done + inverse[..j] + [inverse[j]] == done + inverse[..j + 1];
      if op.kind.JsDelete? {
        PushEncoded(inverted, run[j], source[j], built');
      } else {
        var restored := InvertAttributes(op.attributes, run[j].attributes);
        PushRetain(inverted, run[j].Len(), restored, built');
      }
      built' := Deltas.Push(built', inverse[j]);
    }
    assert inverse[|run|..] + rest == rest && inverse[..|run|] == inverse;
  }

  /** What undoes a retain or a delete: the run it changed is read off the base. */
  method JsInvertSpan(inverted: JsDelta, op: JsOp, base: seq<JsOp>, at: nat, ghost change: seq<Op>,
        ghost source: seq<Op>,
        ghost all: seq<Op>, ghost done: seq<Op>, ghost built: seq<Op>) returns (ghost done': seq<Op>, ghost built': seq<Op>)
    requires base == EncodeOps(source) && IsDocument(source) && Sized(source)
    requires change != [] && op == EncodeOp(change[0]) && !change[0].kind.Insert?
    requires at + change[0].kind.n <= |Content(source)|
    requires HeadOk(Content(source)[at..]) && HeadOk(Content(source)[at + change[0].kind.n..])
    requires Stands(inverted.ops, built) && Progress(all, done, InvertList(change, source, at), built)
    modifies inverted
    ensures Stands(inverted.ops, built')
    ensures Progress(all, done', InvertList(change[1..], source, at + change[0].kind.n), built')
  {
    hide Content, HeadOk, Progress, Deltas.Push, Slice, InvertRun, Stands, EncodeOps;
    var n := op.Len();
    ghost var rest := InvertList(change[1..], source, at + n);
    if op.kind.JsRetain? && op.attributes == map[] {
      ProgressPush(all, done, RetainOp(n), rest, built);
      PushRetain(inverted, n, map[], built);
      done', built' := done + [RetainOp(n)], Deltas.Push(built, RetainOp(n));
    } else {
      SliceOf(source, at, n);
      var run := JsSlice(base, at, at + n, source);
      ghost var slice := Slice(source, at, n);
      assert InvertList(change, source, at) == InvertRun(change[0], slice) + rest;
      built' := JsInvertRun(inverted, op, run, change[0], slice, all, done, rest, built);
      done' := done + InvertRun(change[0], slice);
    }
  }

  lemma {:induction false} SliceOf(source: seq<Op>, at: nat, n: nat)
    requires IsDocument(source) && at + n <= |Content(source)|
    requires HeadOk(Content(source)[at..]) && HeadOk(Content(source)[at + n..])
    ensures IsDocument(Slice(source, at, n))
  {
    SliceContent(source, at, n);
  }

  /** One op of the change, turned into what undoes it. */
  method JsInvertOp(inverted: JsDelta, op: JsOp, base: seq<JsOp>, at: nat, ghost change: seq<Op>, ghost source: seq<Op>,
        ghost all: seq<Op>, ghost done: seq<Op>, ghost built: seq<Op>) returns (at': nat, ghost done': seq<Op>, ghost built': seq<Op>)
    requires base == EncodeOps(source) && change != [] && op == EncodeOp(change[0])
    requires Stands(inverted.ops, built) && InvertLoop(all, done, change, source, at, built)
    modifies inverted
    ensures Stands(inverted.ops, built') && InvertLoop(all, done', change[1..], source, at', built')
  {
    hide Content, HeadOk, Progress, Deltas.Push, Fits, InvertList, Stands, EncodeOps;
    if op.kind.JsText? || op.kind.JsEmbed? {
      InvertLoopInsert(all, done, change, source, at, built);
      PushDelete(inverted, op.Len(), built);
      at', done', built' := at, done + [DeleteOp(op.Len())], Deltas.Push(built, DeleteOp(op.Len()));
    } else {
      InvertLoopSpan(source, at, change);
      done', built' := JsInvertSpan(inverted, op, base, at, change, source, all, done, built);
      at' := at + op.Len();
    }
  }

  /** The browser's inverse is the server's, op for op. */
  method JsInvert(change: seq<JsOp>, base: seq<JsOp>, ghost sc: seq<Op>, ghost sb: seq<Op>) returns (r: seq<JsOp>)
    requires change == EncodeOps(sc) && base == EncodeOps(sb)
    requires IsDocument(sb) && Sized(sb) && Fits(sc, Content(sb)) && |Effect(Content(sb), sc)| <= INFINITY
    ensures r == EncodeOps(Invert(sc, sb))
  {
    hide InvertLoop, Content, Effect, Fits, Stands, Deltas.Chop, InvertList;
    var inverted := new JsDelta();
    var baseIndex: nat := 0;
    ghost var all, done: seq<Op>, built: seq<Op> := InvertList(sc, sb, 0), [], [];
    InvertStart(sc, sb);
    StandsEmpty();
    for i := 0 to |change|
      invariant Stands(inverted.ops, built)
      invariant InvertLoop(all, done, sc[i..], sb, baseIndex, built)
    {
      assert sc[i..][1..] == sc[i + 1..];
      baseIndex, done, built := JsInvertOp(inverted, change[i], base, baseIndex, sc[i..], sb, all, done, built);
    }
    InvertLoopOver(all, done, sc[|sc|..], sb, baseIndex, built);
    StandsFor(inverted.ops, built);
    ChopAlike(built);
    inverted.Chop();
    r := inverted.ops;
  }

  lemma {:induction false} InvertLoopOver(all: seq<Op>, done: seq<Op>, change: seq<Op>, base: seq<Op>, at: nat,
        out: seq<Op>)
    requires InvertLoop(all, done, change, base, at, out) && change == []
    ensures out == PushAll([], all)
  {
    assert done + [] == done;
  }

  lemma {:induction false} StandsFor(ops: seq<JsOp>, built: seq<Op>)
    requires Stands(ops, built)
    ensures ops == EncodeOps(built)
  {
  }
}
