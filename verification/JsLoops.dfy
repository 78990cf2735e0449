/** `compose` and `transform` of the browser (crates/gal-server/src/web/ot.js:367-437), proved to
    compute, in the browser's representation, exactly what the server's engine computes. */
module JsLoops {
  import opened Basics
  import opened Utf16
  import opened Attributes
  import opened Deltas
  import opened Building
  import opened Composing
  import opened Transforming
  import opened Iterating
  import opened Engine
  import opened Encodings
  import opened JsEngine
  import Carets

  /** The browser's list under construction stands for `built`. */
  ghost predicate Stands(ops: seq<JsOp>, built: seq<Op>) {
    ops == EncodeOps(built) && PlainDeletes(built)
  }

  /** Push an op that stands for `op`. */
  method PushEncoded(out: JsDelta, newOp: JsOp, ghost op: Op, ghost built: seq<Op>)
    requires Stands(out.ops, built) && newOp == EncodeOp(op) && PlainDelete(op)
    modifies out
    ensures Stands(out.ops, Deltas.Push(built, op))
  {
    PushAlike(built, op);
    out.Push(newOp);
  }

  lemma {:induction false} PushAllNext(done: seq<Op>, op: Op, built: seq<Op>)
    requires built == PushAll([], done)
    ensures Deltas.Push(built, op) == PushAll([], done + [op])
  {
    PushAllLast([], done, op);
  }

  lemma {:induction false} PiecePlain(r: Reading, n: nat)
    requires Proper(r)
    ensures PlainDelete(Piece(r, n))
  {
  }

  lemma {:induction false} StandsEmpty()
    ensures Stands([], []) && PushAll([], []) == []
  {
  }

  // --- compose ----------------------------------------------------------

  /** What the browser pushes for one stride, if anything. */
  function JsComposeOp(x: JsOp, y: JsOp, n: nat): seq<JsOp> {
    if y.kind.JsRetain? then
      [JsOp(if x.kind.JsRetain? then JsRetain(n) else x.kind, Composed(x.attributes, y.attributes, x.kind.JsRetain?))]
    else if y.kind.JsDelete? && x.kind.JsRetain? then [y]
    else []
  }

  /** An iterator that is used up hands out an endless retain; nothing of it is left in the op. */
  lemma {:induction false} ComposeOpAlike(x: Op, y: Op, n: nat, jx: JsOp, jy: JsOp)
    requires jx == EncodeOp(x) || (x == RetainOp(n) && jx == JsOp(JsRetain(INFINITY), map[]))
    requires jy == EncodeOp(y) || (y == RetainOp(n) && jy == JsOp(JsRetain(INFINITY), map[]))
    requires !x.kind.Delete?
    ensures JsComposeOp(jx, jy, n) == EncodeOps(ComposeOp(x, y, n))
  {
    hide Encode, Composed;
  }

  /** Where the browser's loop stands. */
  ghost predicate JsComposing(ia: JsIterator, ib: JsIterator, out: JsDelta, all: seq<Op>, done: seq<Op>)
    reads ia, ib, out
  {
    && ia != ib && ia.InPlace() && ib.InPlace() && WordSized(ia.At().ops) && WordSized(ib.At().ops)
    && Stands(out.ops, PushAll([], done)) && all == done + ComposeCuts(ia.At(), ib.At())
  }

  /** Push the whole of the current op. */
  method PassWhole(it: JsIterator, out: JsDelta, ghost done: seq<Op>)
    requires it.InPlace() && it.At().ops != [] && WordSized(it.At().ops) && Stands(out.ops, PushAll([], done))
    modifies it, out
    ensures it.InPlace() && it.At() == Onward(old(it.At()), Remaining(old(it.At())))
    ensures Stands(out.ops, PushAll([], done + [Piece(old(it.At()), Remaining(old(it.At())))]))
  {
    hide EncodeOp, Stands, Piece, Onward, PushAll, Deltas.Push, PlainDelete, Len16;
    ghost var piece := Piece(it.At(), Remaining(it.At()));
    PiecePlain(it.At(), Remaining(it.At()));
    PushAllNext(done, piece, PushAll([], done));
    var op := it.Next(INFINITY);
    PushEncoded(out, op, piece, PushAll([], done));
  }

  lemma {:induction false} Regrouped<T>(all: seq<T>, done: seq<T>, ops: seq<T>, rest: seq<T>)
    requires all == done + (ops + rest)
    ensures all == (done + ops) + rest
  {
  }

  /** Push the one op that stands for `ops`. */
  method PushOne(out: JsDelta, newOp: JsOp, ghost ops: seq<Op>, ghost done: seq<Op>)
    requires Stands(out.ops, PushAll([], done)) && [newOp] == EncodeOps(ops) && PlainDeletes(ops)
    modifies out
    ensures Stands(out.ops, PushAll([], done + ops))
  {
    hide EncodeOp, Stands, PushAll, Deltas.Push;
    assert |ops| == |EncodeOps(ops)| == 1;
    assert ops == [ops[0]] && newOp == EncodeOps(ops)[0] == EncodeOp(ops[0]);
    PushAllNext(done, ops[0], PushAll([], done));
    PushEncoded(out, newOp, ops[0], PushAll([], done));
  }

  /** Take a stride from both iterators and push what the second makes of the first. */
  method JsStride(ia: JsIterator, ib: JsIterator, out: JsDelta, n: nat, ghost all: seq<Op>, ghost done: seq<Op>)
      returns (ghost done': seq<Op>)
    requires JsComposing(ia, ib, out, all, done) && (HasMore(ia.At()) || HasMore(ib.At()))
    requires n == Least(Remaining(ia.At()), Remaining(ib.At()))
    requires ib.At().ops == [] || !ib.At().ops[0].kind.Insert?
    requires ia.At().ops == [] || !ia.At().ops[0].kind.Delete?
    modifies ia, ib, out
    ensures JsComposing(ia, ib, out, all, done')
    ensures |ia.At().ops| + |ib.At().ops| < old(|ia.At().ops| + |ib.At().ops|)
  {
    hide EncodeOp, EncodeOps, Composed, Stands, Piece, Onward, ComposeOp, PushAll, Deltas.Push, PlainDelete,
      PlainDeletes, WordSized, Len16, JsIterator.InPlace, JsIterator.At, JsIterator.Rest;
    ghost var x, y := ia.At(), ib.At();
    StrideKinds(x, y, n);
    var opA := ia.Next(n);
    var opB := ib.Next(n);
    ghost var ops := ComposeOp(Piece(x, n), Piece(y, n), n);
    ComposeOpAlike(Piece(x, n), Piece(y, n), n, opA, opB);
    PiecePlain(y, n);
    ComposedPlain(Piece(x, n), Piece(y, n), n);
    assert all == done + (ops + ComposeCuts(ia.At(), ib.At()));
    Regrouped(all, done, ops, ComposeCuts(ia.At(), ib.At()));
    done' := done + ops;
    if opB.kind.JsRetain? {
      var merged := ComposeAttributes(opA.attributes, opB.attributes, opA.kind.JsRetain?);
      var newOp := JsOp(if opA.kind.JsRetain? then JsRetain(n) else opA.kind, merged);
      assert JsComposeOp(opA, opB, n) == [newOp];
      PushOne(out, newOp, ops, done);
    } else if opB.kind.JsDelete? && opA.kind.JsRetain? {
      assert JsComposeOp(opA, opB, n) == [opB];
      PushOne(out, opB, ops, done);
    } else {
      assert JsComposeOp(opA, opB, n) == [];
      assert done + ops == done;
    }
  }

  lemma {:induction false} ComposedPlain(x: Op, y: Op, n: nat)
    requires PlainDelete(y)
    ensures PlainDeletes(ComposeOp(x, y, n))
  {
  }

  /** One pass of the browser's loop. */
  method JsComposeOnce(ia: JsIterator, ib: JsIterator, out: JsDelta, ghost all: seq<Op>, ghost done: seq<Op>)
      returns (ghost done': seq<Op>)
    requires JsComposing(ia, ib, out, all, done) && (ia.HasNext() || ib.HasNext())
    modifies ia, ib, out
    ensures JsComposing(ia, ib, out, all, done')
    ensures |ia.At().ops| + |ib.At().ops| < old(|ia.At().ops| + |ib.At().ops|)
  {
    hide ComposeOp, Stands, EncodeOp, Deltas.Push, PushAll, Piece, Len16;
    ghost var x, y := ia.At(), ib.At();
    if ib.PeekKind() == InsertKind {
      Regrouped(all, done, [Piece(y, Remaining(y))], ComposeCuts(x, Onward(y, Remaining(y))));
      PassWhole(ib, out, done);
      done' := done + [Piece(y, Remaining(y))];
    } else if ia.PeekKind() == DeleteKind {
      Regrouped(all, done, [Piece(x, Remaining(x))], ComposeCuts(Onward(x, Remaining(x)), y));
      PassWhole(ia, out, done);
      done' := done + [Piece(x, Remaining(x))];
    } else {
      var length := Least(ia.PeekLength(), ib.PeekLength());
      done' := JsStride(ia, ib, out, length, all, done);
    }
  }

  /** The browser's composition is the server's, op for op, on whatever two changes, malformed ones
      included: as long as no sum outgrows the server's machine word. `d` is a document the two
      were written for, if any. */
  method JsCompose(a: seq<JsOp>, b: seq<JsOp>, ghost sa: seq<Op>, ghost sb: seq<Op>, ghost d: seq<Cell>)
      returns (r: seq<JsOp>)
    requires a == EncodeOps(sa) && b == EncodeOps(sb) && Sized(sa) && Sized(sb)
    ensures r == EncodeOps(Built(ComposeCuts(StartOf(sa), StartOf(sb))))
    ensures Span(ComposeCuts(StartOf(sa), StartOf(sb))) <= INFINITY ==> r == EncodeOps(ComposeAny(sa, sb))
    ensures InSequence(d, sa, sb) && |d| <= INFINITY ==> r == EncodeOps(Compose(sa, sb))
  {
    hide ComposeCuts, InSequence, ComposeList, EncodeOps, Deltas.Chop, Span, PushAll, SaturatingPushAll, HasMore,
      Compose;
    var ia := new JsIterator(a, sa);
    var ib := new JsIterator(b, sb);
    var out := new JsDelta();
    ghost var all, done: seq<Op> := ComposeCuts(StartOf(sa), StartOf(sb)), [];
    assert [] + all == all;
    StandsEmpty();
    while ia.HasNext() || ib.HasNext()
      invariant JsComposing(ia, ib, out, all, done)
      decreases |ia.At().ops| + |ib.At().ops|
    {
      done := JsComposeOnce(ia, ib, out, all, done);
    }
    ComposeCutsEnd(ia.At(), ib.At());
    assert done + [] == done;
    ChopAlike(PushAll([], all));
    out.Chop();
    r := out.ops;
    JsComposeExact(sa, sb, d);
  }

  lemma {:induction false} JsComposeExact(a: seq<Op>, b: seq<Op>, d: seq<Cell>)
    requires Sized(a) && Sized(b)
    ensures var all := ComposeCuts(StartOf(a), StartOf(b));
            && (Span(all) <= INFINITY ==> Built(all) == ComposeAny(a, b))
            && (InSequence(d, a, b) && |d| <= INFINITY ==> Built(all) == Compose(a, b))
  {
    hide ComposeCuts, PushAll, SaturatingPushAll, InSequence, ComposeList, Sized;
    var all := ComposeCuts(StartOf(a), StartOf(b));
    if Span(all) <= INFINITY {
      assert Span([]) == 0;
      SaturatingPushAllExact([], all);
    }
    if InSequence(d, a, b) && |d| <= INFINITY {
      AtStart(a);
      AtStart(b);
      ComposeCutsAligned(d, StartOf(a), StartOf(b));
    }
  }

  // --- transform --------------------------------------------------------

  /** What the browser pushes for one stride in which neither side inserts. */
  function JsTransformOp(x: JsOp, y: JsOp, n: nat, priority: bool): seq<JsOp> {
    if x.kind.JsDelete? then []
    else if y.kind.JsDelete? then [y]
    else [JsOp(JsRetain(n), Transformed(x.attributes, y.attributes, priority))]
  }

  lemma {:induction false} TransformOpAlike(x: Op, y: Op, n: nat, priority: bool, jx: JsOp, jy: JsOp)
    requires jx == EncodeOp(x) || (x == RetainOp(n) && jx == JsOp(JsRetain(INFINITY), map[]))
    requires jy == EncodeOp(y) || (y == RetainOp(n) && jy == JsOp(JsRetain(INFINITY), map[]))
    requires !x.kind.Insert? && !y.kind.Insert? && PlainDelete(y)
    ensures JsTransformOp(jx, jy, n, priority) == EncodeOps(TransformOp(x, y, n, priority))
    ensures PlainDeletes(TransformOp(x, y, n, priority))
  {
    hide Encode, Transformed;
  }

  ghost predicate JsTransforming(ia: JsIterator, ib: JsIterator, out: JsDelta, priority: bool, all: seq<Op>,
        done: seq<Op>)
    reads ia, ib, out
  {
    && ia != ib && ia.Valid() && ib.Valid() && WordSized(ia.Rest()) && WordSized(ib.Rest())
    && Stands(out.ops, PushAll([], done)) && all == done + TransformCuts(ia.Rest(), ib.Rest(), priority)
  }

  /** `Delta.retain`: nothing for no units. */
  method PushRetain(out: JsDelta, n: nat, attributes: Attrs, ghost built: seq<Op>)
    requires Stands(out.ops, built)
    modifies out
    ensures Stands(out.ops, Deltas.Push(built, RetainOp(n, attributes)))
  {
    if n == 0 {
      return;
    }
    PushEncoded(out, JsOp(JsRetain(n), attributes), RetainOp(n, attributes), built);
  }

  /** The next `n` units of a list that does not start with an insert. */
  method NextSpan(it: JsIterator, n: nat) returns (op: JsOp)
    requires it.Valid() && (it.Rest() == [] || (!it.Rest()[0].kind.Insert? && n <= it.Rest()[0].Len()))
    modifies it
    ensures it.Valid() && it.Rest() == Tail(old(it.Rest()), n)
    ensures op == if old(it.Rest()) == [] then JsOp(JsRetain(INFINITY), map[]) else EncodeOp(Head(old(it.Rest()), n))
  {
    op := it.Next(n);
  }

  /** The whole of the current op, which is an insert. */
  method NextInsert(it: JsIterator) returns (op: JsOp)
    requires it.Valid() && it.Rest() != [] && it.Rest()[0].kind.Insert? && it.Rest()[0].Len() <= INFINITY
    modifies it
    ensures it.Valid() && it.Rest() == old(it.Rest())[1..] && op == EncodeOp(old(it.Rest())[0])
  {
    TakeAll(it.Rest()[0]);
    op := it.Next(INFINITY);
  }

  /** The pass in which neither side inserts. */
  method JsTransformSpans(ia: JsIterator, ib: JsIterator, out: JsDelta, priority: bool, ghost all: seq<Op>,
        ghost done: seq<Op>)
      returns (ghost done': seq<Op>)
    requires JsTransforming(ia, ib, out, priority, all, done) && (ia.HasNext() || ib.HasNext())
    requires ia.PeekKind() != InsertKind && ib.PeekKind() != InsertKind
    modifies ia, ib, out
    ensures JsTransforming(ia, ib, out, priority, all, done')
    ensures |ia.Rest()| + |ib.Rest()| < old(|ia.Rest()| + |ib.Rest()|)
  {
    hide EncodeOp, EncodeOps, Transformed, Stands, Tail, Take, WordSized, PushAll, Deltas.Push, PlainDelete,
      PlainDeletes, RestOf, Aligned, Len16, TransformOp, JsIterator.InPlace, JsIterator.At, JsIterator.Rest;
    ghost var x, y := ia.Rest(), ib.Rest();
    var n := Least(ia.PeekLength(), ib.PeekLength());
    StrideOfLengths(x, y);
    SpansStride(x, y, n, priority);
    TailWordSized(x, n);
    TailWordSized(y, n);
    HeadIsSpan(x, n);
    HeadIsSpan(y, n);
    var opA := NextSpan(ia, n);
    var opB := NextSpan(ib, n);
    ghost var ops := TransformOp(Head(x, n), Head(y, n), n, priority);
    TransformOpAlike(Head(x, n), Head(y, n), n, priority, opA, opB);
    assert all == done + (ops + TransformCuts(ia.Rest(), ib.Rest(), priority));
    Regrouped(all, done, ops, TransformCuts(ia.Rest(), ib.Rest(), priority));
    done' := done + ops;
    if opA.kind.JsDelete? {
      assert JsTransformOp(opA, opB, n, priority) == [];
      assert done + ops == done;
      return;
    } else if opB.kind.JsDelete? {
      assert JsTransformOp(opA, opB, n, priority) == [opB];
      PushOne(out, opB, ops, done);
    } else {
      var attributes := Transformed(opA.attributes, opB.attributes, priority);
      assert JsTransformOp(opA, opB, n, priority) == [JsOp(JsRetain(n), attributes)];
      RetainAlike(ops, n, attributes);
      PushAllNext(done, ops[0], PushAll([], done));
      PushRetain(out, n, attributes, PushAll([], done));
    }
  }

  lemma {:induction false} HeadIsSpan(ops: seq<Op>, n: nat)
    requires ops == [] || (!ops[0].kind.Insert? && n <= ops[0].Len())
    ensures !Head(ops, n).kind.Insert? && PlainDelete(Head(ops, n))
    ensures ops == [] ==> Head(ops, n) == RetainOp(n)
  {
  }

  lemma {:induction false} RetainAlike(ops: seq<Op>, n: nat, attributes: Attrs)
    requires EncodeOps(ops) == [JsOp(JsRetain(n), attributes)]
    ensures ops == [RetainOp(n, attributes)]
  {
    assert |ops| == |EncodeOps(ops)| == 1 && EncodeOp(ops[0]) == EncodeOps(ops)[0];
  }

  /** One pass of the browser's loop. */
  method JsTransformOnce(ia: JsIterator, ib: JsIterator, out: JsDelta, priority: bool, ghost all: seq<Op>,
        ghost done: seq<Op>)
      returns (ghost done': seq<Op>)
    requires JsTransforming(ia, ib, out, priority, all, done) && (ia.HasNext() || ib.HasNext())
    modifies ia, ib, out
    ensures JsTransforming(ia, ib, out, priority, all, done')
    ensures |ia.Rest()| + |ib.Rest()| < old(|ia.Rest()| + |ib.Rest()|)
  {
    hide Stands, EncodeOp, Deltas.Push, Tail, Take, PushAll, RestOf, Aligned, TransformOp, Len16, JsIterator.InPlace,
      JsIterator.At, JsIterator.Rest;
    ghost var x, y := ia.Rest(), ib.Rest();
    if ia.PeekKind() == InsertKind && (priority || ib.PeekKind() != InsertKind) {
      Regrouped(all, done, [RetainOp(x[0].Len())], TransformCuts(x[1..], y, priority));
      PushAllNext(done, RetainOp(x[0].Len()), PushAll([], done));
      var op := NextInsert(ia);
      PushRetain(out, op.Len(), map[], PushAll([], done));
      done' := done + [RetainOp(x[0].Len())];
    } else if ib.PeekKind() == InsertKind {
      Regrouped(all, done, [y[0]], TransformCuts(x, y[1..], priority));
      PushAllNext(done, y[0], PushAll([], done));
      var op := NextInsert(ib);
      PushEncoded(out, op, y[0], PushAll([], done));
      done' := done + [y[0]];
    } else {
      done' := JsTransformSpans(ia, ib, out, priority, all, done);
    }
  }

  /** The browser's transformation is the server's, op for op. */
  method JsTransform(a: seq<JsOp>, b: seq<JsOp>, priority: bool, ghost sa: seq<Op>,
        ghost sb: seq<Op>) returns (r: seq<JsOp>)
    requires a == EncodeOps(sa) && b == EncodeOps(sb) && Sized(sa) && Sized(sb)
    ensures r == EncodeOps(Transform(sa, sb, priority))
    ensures Span(TransformList(sa, sb, priority)) <= INFINITY ==> r == EncodeOps(TransformAny(sa, sb, priority))
  {
    hide TransformCuts, TransformList, EncodeOps, Deltas.Chop, PushAll, SaturatingPushAll, RestOf, Aligned, Span;
    var ia := new JsIterator(a, sa);
    var ib := new JsIterator(b, sb);
    var out := new JsDelta();
    ghost var all, done: seq<Op> := TransformCuts(sa, sb, priority), [];
    assert [] + all == all;
    StandsEmpty();
    while ia.HasNext() || ib.HasNext()
      invariant JsTransforming(ia, ib, out, priority, all, done)
      decreases |ia.Rest()| + |ib.Rest()|
    {
      done := JsTransformOnce(ia, ib, out, priority, all, done);
    }
    TransformCutsEnd(ia.Rest(), ib.Rest(), priority);
    assert done + [] == done;
    ChopAlike(PushAll([], all));
    out.Chop();
    r := out.ops;
    TransformCutsExact(sa, sb, priority);
    if Span(TransformList(sa, sb, priority)) <= INFINITY {
      TransformAnyExact(sa, sb, priority);
    }
  }

  // --- carets -----------------------------------------------------------

  /** Look at the current op and go past it. */
  method PassOver(iter: JsIterator) returns (length: nat, kind: Kind)
    requires iter.Valid() && iter.Rest() != [] && Sized(iter.Rest())
    modifies iter
    ensures iter.Valid() && iter.Rest() == old(iter.Rest())[1..] && Sized(iter.Rest())
    ensures length == old(iter.Rest())[0].Len() && kind == KindOf(old(iter.Rest())[0])
  {
    hide Aligned, RestOf, Len16;
    Carets.TakesWhole(iter.Rest()[0]);
    length := iter.PeekLength();
    kind := iter.PeekKind();
    var op := iter.Next(INFINITY);
  }

  /** The browser moves a caret where the server moves it. */
  method JsTransformPosition(ops: seq<JsOp>, start: nat, priority: bool, ghost source: seq<Op>) returns (index: nat)
    requires ops == EncodeOps(source) && Sized(source)
    ensures index == Carets.Moved(source, start, priority)
  {
    hide Carets.Walking, Carets.Moved, Aligned, RestOf, Len16, JsIterator.InPlace, JsIterator.At, JsIterator.Rest,
      Proper, HasMore;
    index := start;
    var offset: nat := 0;
    var iter := new JsIterator(ops, source);
    ghost var goal := Carets.Moved(source, start, priority);
    Carets.WalkStart(source, start, priority);
    while iter.HasNext() && offset <= index
      invariant iter.Valid() && Sized(iter.Rest())
      invariant Carets.Walking(goal, iter.Rest(), index, offset, priority)
      decreases |iter.Rest()|
    {
      Carets.WalkStep(goal, iter.Rest(), index, offset, priority);
      var length, kind := PassOver(iter);
      if kind == DeleteKind {
        index := index - Least(length, index - offset);
      } else {
        if kind == InsertKind && (offset < index || !priority) {
          index := index + length;
        }
        offset := offset + length;
      }
    }
    Carets.WalkEnd(goal, iter.Rest(), index, offset, priority);
  }
}
