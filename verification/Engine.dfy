/** `compose` and `transform` as the loops the source runs (crates/gal-ot/src/delta.rs:503-596):
    two iterators and a builder, proved to compute the functions whose laws are proved elsewhere. */
module Engine {
  import opened Basics
  import opened Utf16
  import opened Attributes
  import opened Deltas
  import opened Building
  import opened Composing
  import opened Transforming
  import opened Iterating
  import opened Inverting

  lemma {:induction false} PushAllLast(ops: seq<Op>, more: seq<Op>, op: Op)
    ensures PushAll(ops, more + [op]) == Deltas.Push(PushAll(ops, more), op)
    decreases |more|
  {
    if more == [] {
      assert more + [op] == [op];
      assert PushAll(Deltas.Push(ops, op), []) == Deltas.Push(ops, op);
    } else {
      assert (more + [op])[1..] == more[1..] + [op];
      PushAllLast(Deltas.Push(ops, more[0]), more[1..], op);
    }
  }

  lemma {:induction false} PushAllSpan(ops: seq<Op>, more: seq<Op>)
    ensures Span(PushAll(ops, more)) == Span(ops) + Span(more)
    decreases |more|
  {
    if more != [] {
      PushSpan(ops, more[0]);
      SpanAppend(ops, [more[0]]);
      PushAllSpan(Deltas.Push(ops, more[0]), more[1..]);
      assert more == [more[0]] + more[1..];
      SpanAppend([more[0]], more[1..]);
    }
  }

  /** Of the ops `all` that a loop pushes, those in `done` have been pushed. */
  ghost predicate Progress(all: seq<Op>, done: seq<Op>, rest: seq<Op>, out: seq<Op>) {
    && all == done + rest
    && out == PushAll([], done)
    && Span(all) <= INFINITY
  }

  lemma {:induction false} ProgressPush(all: seq<Op>, done: seq<Op>, op: Op, rest: seq<Op>, out: seq<Op>)
    requires Progress(all, done, [op] + rest, out)
    ensures Span(out + [op]) <= INFINITY
    ensures Progress(all, done + [op], rest, Deltas.Push(out, op))
  {
    assert done + ([op] + rest) == (done + [op]) + rest;
    PushAllLast([], done, op);
    PushAllSpan([], done);
    SpanAppend(done + [op], rest);
    SpanAppend(done, [op]);
    SpanAppend(out, [op]);
  }

  lemma {:induction false} TakeAll(op: Op)
    ensures Take(op, op.Len()) == if op.kind.Delete? then DeleteOp(op.Len()) else op
    ensures op.IsText() ==> OnBoundary(op.kind.payload.s, op.Len())
  {
    if op.IsText() {
      var s := op.kind.payload.s;
      CharsForAll(s, op.Len());
      assert s[..|s|] == s;
    }
  }

  lemma {:induction false} TailSized(ops: seq<Op>, n: nat)
    requires Sized(ops) && Cuttable(ops, n)
    ensures Sized(Tail(ops, n))
  {
    if ops != [] && n < ops[0].Len() {
      CutAtoms(ops[0], n);
    }
  }

  // --- compose ----------------------------------------------------------

  /** One pass that strides through both lists, and the document it goes on with. */
  function StrideBase(d: seq<Cell>, a: seq<Op>, n: nat): seq<Cell>
    requires n <= |d| || (a != [] && a[0].kind.Insert?)
  {
    if a != [] && a[0].kind.Insert? then d else d[n..]
  }

  lemma {:induction false} ComposePass(d: seq<Cell>, a: seq<Op>, b: seq<Op>)
    requires InSequence(d, a, b) && Sized(a) && Sized(b)
    requires a != [] || b != []
    requires b == [] || !b[0].kind.Insert?
    requires a == [] || !a[0].kind.Delete?
    ensures var n := Stride(a, b);
            && CutsCleanly(a, n) && CutsCleanly(b, n)
            && (n <= |d| || (a != [] && a[0].kind.Insert?))
            && InSequence(StrideBase(d, a, n), Tail(a, n), Tail(b, n)) && Sized(Tail(a, n)) && Sized(Tail(b, n))
            && |Tail(a, n)| + |Tail(b, n)| < |a| + |b|
  {
    hide Effect, Take, Drop;
    var n := Stride(a, b);
    if EmptyAtEmbed(a, b) {
      EmptyStride(d, a, b);
    } else if a != [] && b != [] {
      StrideInSequence(d, a, b);
      TailSized(a, n);
      TailSized(b, n);
    } else if a != [] {
      TakeAll(a[0]);
      var e := StrideBase(d, a, n);
      assert Fits(a[1..], e);
      EffectHeadOk(e, a[1..]);
    } else {
      EffectNothing(d);
      EffectNothing(d[n..]);
      assert Fits(b[1..], d[n..]);
    }
  }

  /** The next `n` units of `ops` end on a character boundary. */
  predicate CutsCleanly(ops: seq<Op>, n: nat) {
    ops != [] ==> n <= ops[0].Len() && (ops[0].IsText() ==> OnBoundary(ops[0].kind.payload.s, n))
  }

  /** The ops that the loop of `compose` pushes, in order, wherever its cuts fall and however long the
      two lists are. */
  function ComposeCuts(x: Reading, y: Reading): seq<Op>
    requires Proper(x) && Proper(y)
    decreases |x.ops| + |y.ops|
  {
    if !HasMore(x) && !HasMore(y) then []
    else if y.ops != [] && y.ops[0].kind.Insert? then
      [Piece(y, Remaining(y))] + ComposeCuts(x, Onward(y, Remaining(y)))
    else if x.ops != [] && x.ops[0].kind.Delete? then
      [Piece(x, Remaining(x))] + ComposeCuts(Onward(x, Remaining(x)), y)
    else
      var n := Least(Remaining(x), Remaining(y));
      ComposeOp(Piece(x, n), Piece(y, n), n) + ComposeCuts(Onward(x, n), Onward(y, n))
  }

  function SaturatingPushAll(ops: seq<Op>, more: seq<Op>): seq<Op>
    decreases |more|
  {
    if more == [] then ops else SaturatingPushAll(SaturatingPush(ops, more[0]), more[1..])
  }

  /** What the machine makes of two changes, whatever they are. */
  function ComposeAny(a: seq<Op>, b: seq<Op>): seq<Op> {
    Deltas.Chop(SaturatingPushAll([], ComposeCuts(StartOf(a), StartOf(b))))
  }

  lemma {:induction false} SaturatingPushAllLast(ops: seq<Op>, more: seq<Op>, op: Op)
    ensures SaturatingPushAll(ops, more + [op]) == SaturatingPush(SaturatingPushAll(ops, more), op)
    decreases |more|
  {
    hide SaturatingPush;
    if more == [] {
      assert more + [op] == [op];
      assert SaturatingPushAll(SaturatingPush(ops, op), []) == SaturatingPush(ops, op);
    } else {
      assert (more + [op])[1..] == more[1..] + [op];
      SaturatingPushAllLast(SaturatingPush(ops, more[0]), more[1..], op);
    }
  }

  /** Below the largest machine word nothing saturates. */
  lemma {:induction false} SaturatingPushAllExact(ops: seq<Op>, more: seq<Op>)
    requires Span(ops) + Span(more) <= INFINITY
    ensures SaturatingPushAll(ops, more) == PushAll(ops, more)
    decreases |more|
  {
    hide SaturatingPush, Deltas.Push;
    if more != [] {
      assert more == [more[0]] + more[1..];
      SpanAppend([more[0]], more[1..]);
      SpanAppend(ops, [more[0]]);
      SaturatingPushExact(ops, more[0]);
      PushSpan(ops, more[0]);
      SaturatingPushAllExact(Deltas.Push(ops, more[0]), more[1..]);
    }
  }

  /** On changes whose cuts split no character, and that end within the document, the loop pushes
      the list whose meaning is proved. */
  lemma {:induction false} ComposeCutsAligned(d: seq<Cell>, x: Reading, y: Reading)
    requires Proper(x) && Proper(y) && Aligned(x) && Aligned(y)
    requires InSequence(d, RestOf(x), RestOf(y)) && Sized(RestOf(x)) && Sized(RestOf(y))
    ensures ComposeCuts(x, y) == ComposeList(RestOf(x), RestOf(y))
    decreases |x.ops| + |y.ops|
  {
    hide InSequence, ComposeOp, Aligned, Piece, Onward, Take, Drop, Tail, OnBoundary, CharsFor, RestOf, Sized,
      Effect, Len16;
    var a, b := RestOf(x), RestOf(y);
    RestParts(x);
    RestParts(y);
    if a != [] || b != [] {
      StrideRemaining(x, y);
    }
    if a == [] && b == [] {
    } else if b != [] && b[0].kind.Insert? {
      WholeReads(y);
      InsertStepInSequence(d, a, b);
      ComposeCutsAligned(d, x, Onward(y, Remaining(y)));
    } else if a != [] && a[0].kind.Delete? {
      WholeReads(x);
      DeleteStepFits(d, a, b);
      ComposeCutsAligned(d[a[0].kind.n..], Onward(x, Remaining(x)), y);
    } else {
      ComposePass(d, a, b);
      var n := Stride(a, b);
      StrideReads(x, n);
      StrideReads(y, n);
      ComposeCutsAligned(StrideBase(d, a, n), Onward(x, n), Onward(y, n));
    }
  }

  /** What the rest of a list has in common with the place it starts at. */
  lemma {:induction false} RestParts(r: Reading)
    requires Proper(r) && Aligned(r)
    ensures RestOf(r) == [] <==> r.ops == []
    ensures r.ops != [] ==> RestOf(r)[0].Len() == Remaining(r) && |RestOf(r)| == |r.ops|
    ensures r.ops != [] ==> (RestOf(r)[0].kind.Insert? <==> r.ops[0].kind.Insert?)
    ensures r.ops != [] ==> (RestOf(r)[0].kind.Delete? <==> r.ops[0].kind.Delete?)
  {
    if r.ops != [] {
      RestLength(r);
    }
  }

  lemma {:induction false} StrideRemaining(x: Reading, y: Reading)
    requires Proper(x) && Proper(y) && Aligned(x) && Aligned(y) && (x.ops != [] || y.ops != [])
    requires Sized(RestOf(x)) && Sized(RestOf(y))
    ensures RestOf(x) != [] || RestOf(y) != []
    ensures var n := Stride(RestOf(x), RestOf(y));
            && n == Least(Remaining(x), Remaining(y)) && n < INFINITY
            && |Onward(x, n).ops| + |Onward(y, n).ops| < |x.ops| + |y.ops|
    ensures HasMore(x) || HasMore(y)
  {
    hide RestOf, Aligned, Len16, CharsFor;
    RestParts(x);
    RestParts(y);
  }

  lemma {:induction false} StrideReads(r: Reading, n: nat)
    requires Proper(r) && Aligned(r) && CutsCleanly(RestOf(r), n) && (r.ops == [] ==> n <= INFINITY)
    ensures n <= Remaining(r) && Piece(r, n) == Head(RestOf(r), n)
    ensures Aligned(Onward(r, n)) && RestOf(Onward(r, n)) == Tail(RestOf(r), n)
  {
    RestParts(r);
    if r.ops != [] {
      CutAligned(r, n);
    }
  }

  lemma {:induction false} WholeReads(r: Reading)
    requires Proper(r) && Aligned(r) && r.ops != []
    ensures var rest, next := RestOf(r), Onward(r, Remaining(r));
            && Aligned(next) && |next.ops| < |r.ops| && RestOf(next) == rest[1..]
            && Piece(r, Remaining(r)) == Take(rest[0], rest[0].Len())
            && (rest[0].kind.Insert? ==> Take(rest[0], rest[0].Len()) == rest[0])
            && (Sized(rest) ==> Sized(rest[1..]))
  {
    hide Piece, OnBoundary, CharsFor, Len16, Take, Drop;
    RestParts(r);
    TakeAll(RestOf(r)[0]);
    CutAligned(r, Remaining(r));
  }

  lemma {:induction false} ComposeAnyExact(d: seq<Cell>, a: seq<Op>, b: seq<Op>)
    requires InSequence(d, a, b) && Sized(a) && Sized(b) && |d| <= INFINITY
    ensures ComposeAny(a, b) == Compose(a, b)
  {
    hide InSequence, ComposeCuts, ComposeList, PushAll, SaturatingPushAll, Fits, Aligned;
    AtStart(a);
    AtStart(b);
    ComposeCutsAligned(d, StartOf(a), StartOf(b));
    ComposeListFits(d, a, b);
    FitsAppend(ComposeList(a, b), [], d);
    SaturatingPushAllExact([], ComposeList(a, b));
  }

  /** Units still to come of a list, and units it still asks of another. */
  function UnitsLeft(r: Reading): nat
    requires Proper(r)
  {
    if r.ops == [] then 0 else Remaining(r) + InsertLen(r.ops[1..])
  }

  function SpanLeft(r: Reading): nat
    requires Proper(r)
  {
    if r.ops == [] then 0 else (if r.ops[0].kind.Insert? then 0 else Remaining(r)) + Span(r.ops[1..])
  }

  /** Every op inserts, or is empty and will not be pushed. */
  predicate BuildsDocument(ops: seq<Op>) {
    forall i | 0 <= i < |ops| :: ops[i].kind.Insert? || ops[i].Len() == 0
  }

  /** A change that asks for no more units than the document has leaves a document, wherever its cuts
      fall. */
  lemma {:induction false} ComposeCutsDocument(x: Reading, y: Reading)
    requires Proper(x) && Proper(y) && IsDocument(x.ops) && SpanLeft(y) <= UnitsLeft(x)
    ensures BuildsDocument(ComposeCuts(x, y))
    decreases |x.ops| + |y.ops|
  {
    hide Len16, CharsFor, Composed, ComposeOp, Piece;
    if !HasMore(x) && !HasMore(y) {
    } else if y.ops != [] && y.ops[0].kind.Insert? {
      PieceInserts(y, Remaining(y));
      SpanOnward(y, Remaining(y));
      ComposeCutsDocument(x, Onward(y, Remaining(y)));
    } else {
      var n := Least(Remaining(x), Remaining(y));
      StrideKinds(x, y, n);
      UnitsOnward(x, n);
      SpanOnward(y, n);
      StrideInserts(x, y, n);
      ComposeCutsDocument(Onward(x, n), Onward(y, n));
    }
  }

  lemma {:induction false} PieceInserts(r: Reading, n: nat)
    requires Proper(r) && r.ops != [] && r.ops[0].kind.Insert?
    ensures Piece(r, n).kind.Insert?
  {
  }

  lemma {:induction false} UnitsOnward(r: Reading, n: nat)
    requires Proper(r) && n <= Remaining(r) && IsDocument(r.ops)
    ensures UnitsLeft(Onward(r, n)) == if r.ops == [] then 0 else UnitsLeft(r) - n
    ensures IsDocument(Onward(r, n).ops)
  {
    hide Len16, CharsFor;
  }

  lemma {:induction false} SpanOnward(r: Reading, n: nat)
    requires Proper(r) && n <= Remaining(r)
    ensures SpanLeft(Onward(r, n)) == if r.ops == [] then 0 else if r.ops[0].kind.Insert? then SpanLeft(r) else SpanLeft(r) - n
  {
    hide Len16, CharsFor;
  }

  lemma {:induction false} StrideInserts(x: Reading, y: Reading, n: nat)
    requires Proper(x) && Proper(y) && IsDocument(x.ops) && SpanLeft(y) <= UnitsLeft(x)
    requires n == Least(Remaining(x), Remaining(y)) && (HasMore(x) || HasMore(y))
    requires y.ops == [] || !y.ops[0].kind.Insert?
    ensures BuildsDocument(ComposeOp(Piece(x, n), Piece(y, n), n))
  {
    hide Len16, CharsFor, Composed;
    if x.ops == [] {
      assert n == 0;
    } else {
      PieceInserts(x, n);
    }
  }

  lemma {:induction false} SaturatingDocument(ops: seq<Op>, more: seq<Op>)
    requires IsDocument(ops) && BuildsDocument(more)
    ensures IsDocument(SaturatingPushAll(ops, more))
    decreases |more|
  {
    hide Len16;
    if more != [] {
      SaturatingDocument(SaturatingPush(ops, more[0]), more[1..]);
    }
  }

  lemma {:induction false} ComposeAnyDocument(doc: seq<Op>, change: seq<Op>)
    requires IsDocument(doc) && Span(change) <= InsertLen(doc)
    ensures IsDocument(ComposeAny(doc, change))
  {
    hide ComposeCuts, SaturatingPushAll;
    assert SpanLeft(StartOf(change)) == Span(change) && UnitsLeft(StartOf(doc)) == InsertLen(doc);
    ComposeCutsDocument(StartOf(doc), StartOf(change));
    SaturatingDocument([], ComposeCuts(StartOf(doc), StartOf(change)));
  }

  /** Where the loop of `compose` stands: of the ops `all` that it pushes, `done` have been pushed. */
  ghost predicate ComposeRunning(ia: OpIterator, ib: OpIterator, out: Delta, all: seq<Op>, done: seq<Op>)
    reads ia, ib, out
  {
    && ia != ib && ia.InPlace() && ib.InPlace() && WordSized(ia.At().ops) && WordSized(ib.At().ops)
    && all == done + ComposeCuts(ia.At(), ib.At()) && out.ops == SaturatingPushAll([], done)
  }

  /** Push the whole of the current op. */
  method PassWhole(it: OpIterator, out: Delta)
    requires it.InPlace() && it.At().ops != [] && WordSized(it.At().ops)
    modifies it, out
    ensures it.InPlace() && it.At() == Onward(old(it.At()), Remaining(old(it.At())))
    ensures out.ops == SaturatingPush(old(out.ops), Piece(old(it.At()), Remaining(old(it.At()))))
  {
    var op := it.Next(INFINITY);
    out.Push(op);
  }

  lemma {:induction false} PushedOne(all: seq<Op>, done: seq<Op>, op: Op, rest: seq<Op>)
    requires all == done + ([op] + rest)
    ensures all == (done + [op]) + rest
    ensures SaturatingPushAll([], done + [op]) == SaturatingPush(SaturatingPushAll([], done), op)
  {
    SaturatingPushAllLast([], done, op);
  }

  /** A stride, with the retain that an iterator hands out when it is used up. */
  lemma {:induction false} StridePushes(x: Op, y: Op, n: nat, opA: Op, opB: Op)
    requires opA == x || (x == RetainOp(n) && opA == RetainOp(INFINITY))
    requires opB == y || (y == RetainOp(n) && opB == RetainOp(INFINITY))
    requires !x.kind.Delete?
    ensures ComposeOp(opA, opB, n) == ComposeOp(x, y, n)
    ensures ComposeOp(x, y, n) ==
              if opB.kind.Retain? then [Op(if opA.kind.Insert? then opA.kind else Retain(n), Composed(opA.attributes, opB.attributes, opA.kind.Retain?))]
              else if opB.kind.Delete? && opA.kind.Retain? then [opB] else []
  {
  }

  /** Take the same number of units from both iterators and push what the second makes of the first. */
  method ComposeStride(ia: OpIterator, ib: OpIterator, out: Delta, length: nat, ghost all: seq<Op>, ghost done: seq<Op>)
      returns (ghost done': seq<Op>)
    requires ComposeRunning(ia, ib, out, all, done) && (HasMore(ia.At()) || HasMore(ib.At()))
    requires length == Least(Remaining(ia.At()), Remaining(ib.At()))
    requires ib.At().ops == [] || !ib.At().ops[0].kind.Insert?
    requires ia.At().ops == [] || !ia.At().ops[0].kind.Delete?
    modifies ia, ib, out
    ensures ComposeRunning(ia, ib, out, all, done')
    ensures |ia.At().ops| + |ib.At().ops| < old(|ia.At().ops| + |ib.At().ops|)
  {
    hide Composed, SaturatingPush, SaturatingPushAll, ComposeOp, Piece, Onward, Len16, CharsFor, OnBoundary,
      CharIndex, Len8, Aligned, WordSized, OpIterator.InPlace, OpIterator.At, OpIterator.Rest;
    ghost var x, y := ia.At(), ib.At();
    StrideKinds(x, y, length);
    var opA := ia.Next(length);
    var opB := ib.Next(length);
    ghost var rest := ComposeCuts(ia.At(), ib.At());
    ghost var ops := ComposeOp(Piece(x, length), Piece(y, length), length);
    assert all == done + (ops + rest);
    StridePushes(Piece(x, length), Piece(y, length), length, opA, opB);
    if opB.kind.Retain? {
      var keepNull := opA.kind.Retain?;
      var merged := ComposeAttributes(opA.attributes, opB.attributes, keepNull);
      var kind := if opA.kind.Insert? then opA.kind else Retain(length);
      PushedOne(all, done, Op(kind, merged), rest);
      out.Push(Op(kind, merged));
    } else if opB.kind.Delete? && opA.kind.Retain? {
      PushedOne(all, done, opB, rest);
      out.Push(opB);
    } else {
      assert ops + rest == rest && done + ops == done;
    }
    done' := done + ops;
  }

  /** A stride uses up the current op of one of the two, and takes no delete from the first. */
  lemma {:induction false} StrideKinds(x: Reading, y: Reading, n: nat)
    requires Proper(x) && Proper(y) && (HasMore(x) || HasMore(y)) && n == Least(Remaining(x), Remaining(y))
    requires x.ops == [] || !x.ops[0].kind.Delete?
    ensures !Piece(x, n).kind.Delete?
    ensures x.ops == [] ==> Piece(x, n) == RetainOp(n) && Onward(x, n) == x
    ensures y.ops == [] ==> Piece(y, n) == RetainOp(n) && Onward(y, n) == y
    ensures |Onward(x, n).ops| + |Onward(y, n).ops| < |x.ops| + |y.ops|
    ensures WordSized(x.ops) ==> WordSized(Onward(x, n).ops)
    ensures WordSized(y.ops) ==> WordSized(Onward(y, n).ops)
  {
    hide CharsFor, Len16;
  }

  /** One pass of the loop of `compose`. */
  method ComposeOnce(ia: OpIterator, ib: OpIterator, out: Delta, ghost all: seq<Op>, ghost done: seq<Op>)
      returns (ghost done': seq<Op>)
    requires ComposeRunning(ia, ib, out, all, done) && (ia.HasNext() || ib.HasNext())
    modifies ia, ib, out
    ensures ComposeRunning(ia, ib, out, all, done')
    ensures |ia.At().ops| + |ib.At().ops| < old(|ia.At().ops| + |ib.At().ops|)
  {
    hide ComposeOp, SaturatingPush, SaturatingPushAll, Piece, Len16, OpIterator.InPlace, OpIterator.At,
      OpIterator.Rest;
    ghost var x, y := ia.At(), ib.At();
    if ib.PeekKind() == InsertKind {
      PushedOne(all, done, Piece(y, Remaining(y)), ComposeCuts(x, Onward(y, Remaining(y))));
      PassWhole(ib, out);
      done' := done + [Piece(y, Remaining(y))];
    } else if ia.PeekKind() == DeleteKind {
      PushedOne(all, done, Piece(x, Remaining(x)), ComposeCuts(Onward(x, Remaining(x)), y));
      PassWhole(ia, out);
      done' := done + [Piece(x, Remaining(x))];
    } else {
      var length := Least(ia.PeekLength(), ib.PeekLength());
      done' := ComposeStride(ia, ib, out, length, all, done);
    }
  }

  /** Sequential composition, and the way a change is applied to a document, on whatever two
      changes there are in memory: where a cut splits a character the text is rounded up, and past
      the end of a list everything is kept. `d` is a document the two were written for, if any:
      for it the result is the composition. */
  method ComposeDeltas(a: seq<Op>, b: seq<Op>, ghost d: seq<Cell>) returns (r: seq<Op>)
    requires WordSized(a) && WordSized(b)
    ensures r == ComposeAny(a, b)
    ensures InSequence(d, a, b) && Sized(a) && Sized(b) && |d| <= INFINITY ==> r == Compose(a, b)
  {
    hide ComposeCuts, SaturatingPushAll, Compose, InSequence, HasMore;
    var ia := new OpIterator(a);
    var ib := new OpIterator(b);
    var out := new Delta();
    ghost var all, done: seq<Op> := ComposeCuts(StartOf(a), StartOf(b)), [];
    assert [] + all == all;
    NothingPushed();
    while ia.HasNext() || ib.HasNext()
      invariant ComposeRunning(ia, ib, out, all, done)
      decreases |ia.At().ops| + |ib.At().ops|
    {
      done := ComposeOnce(ia, ib, out, all, done);
    }
    ComposeCutsEnd(ia.At(), ib.At());
    assert done + [] == done;
    out.Chop();
    r := out.ops;
    if InSequence(d, a, b) && Sized(a) && Sized(b) && |d| <= INFINITY {
      ComposeAnyExact(d, a, b);
    }
  }

  lemma {:induction false} NothingPushed()
    ensures SaturatingPushAll([], []) == []
  {
  }

  lemma {:induction false} ComposeCutsEnd(x: Reading, y: Reading)
    requires Proper(x) && Proper(y) && !HasMore(x) && !HasMore(y)
    ensures ComposeCuts(x, y) == []
  {
  }

  // --- transform --------------------------------------------------------

  /** Units left of the first op of a list, or the sentinel when there is none. */
  function FirstLen(ops: seq<Op>): nat {
    if ops == [] then INFINITY else ops[0].Len()
  }

  /** The ops that the loop of `transform` pushes, in order, however long the two lists are. Inserts
      are always taken whole, so no cut splits a character. */
  function TransformCuts(x: seq<Op>, y: seq<Op>, priority: bool): seq<Op>
    decreases |x| + |y|
  {
    if FirstLen(x) >= INFINITY && FirstLen(y) >= INFINITY then []
    else if x != [] && x[0].kind.Insert? && (priority || y == [] || !y[0].kind.Insert?)
    then [RetainOp(x[0].Len())] + TransformCuts(x[1..], y, priority)
    else if y != [] && y[0].kind.Insert? then [y[0]] + TransformCuts(x, y[1..], priority)
    else
      var n := Least(FirstLen(x), FirstLen(y));
      TransformOp(Head(x, n), Head(y, n), n, priority) + TransformCuts(Tail(x, n), Tail(y, n), priority)
  }

  /** What the machine makes of two changes, whatever they are. */
  function TransformAny(a: seq<Op>, b: seq<Op>, priority: bool): seq<Op> {
    Deltas.Chop(SaturatingPushAll([], TransformCuts(a, b, priority)))
  }

  /** Below the sentinel the loop pushes the list whose meaning is proved. */
  lemma {:induction false} TransformCutsExact(a: seq<Op>, b: seq<Op>, priority: bool)
    requires Sized(a) && Sized(b)
    ensures TransformCuts(a, b, priority) == TransformList(a, b, priority)
    decreases |a| + |b|
  {
    hide TransformOp, Take, Drop, Tail, Len16;
    if a == [] && b == [] {
    } else if a != [] && a[0].kind.Insert? && (priority || b == [] || !b[0].kind.Insert?) {
      TransformCutsExact(a[1..], b, priority);
    } else if b != [] && b[0].kind.Insert? {
      TransformCutsExact(a, b[1..], priority);
    } else {
      var n := Stride(a, b);
      SpansCuttable(a, b);
      TailSized(a, n);
      TailSized(b, n);
      SpansStride(a, b, n, priority);
      TransformCutsExact(Tail(a, n), Tail(b, n), priority);
    }
  }

  lemma {:induction false} SpansStride(x: seq<Op>, y: seq<Op>, n: nat, priority: bool)
    requires (x != [] || y != []) && n == Stride(x, y)
    requires (x == [] || !x[0].kind.Insert?) && (y == [] || !y[0].kind.Insert?)
    ensures forall op | op in TransformOp(Head(x, n), Head(y, n), n, priority) :: !op.kind.Insert? && op.kind.n <= n
    ensures |Tail(x, n)| + |Tail(y, n)| < |x| + |y|
  {
  }

  lemma {:induction false} TransformAnyExact(a: seq<Op>, b: seq<Op>, priority: bool)
    requires Sized(a) && Sized(b) && Span(TransformList(a, b, priority)) <= INFINITY
    ensures TransformAny(a, b, priority) == Transform(a, b, priority)
  {
    hide TransformCuts, TransformList, SaturatingPushAll, PushAll, Sized;
    TransformCutsExact(a, b, priority);
    assert Span([]) == 0;
    SaturatingPushAllExact([], TransformList(a, b, priority));
  }

  /** What holds of any lengths. */
  predicate Tame(ops: seq<Op>, y: seq<Op>) {
    && SpansWordSized(ops) && InsertLen(ops) <= InsertLen(y)
    && (NullFreeInserts(y) ==> NullFreeInserts(ops))
  }

  lemma {:induction false} TameInsert(op: Op, rest: seq<Op>, y: seq<Op>)
    requires y != [] && y[0] == op && op.kind.Insert? && Tame(rest, y[1..])
    ensures Tame([op] + rest, y)
  {
    assert ([op] + rest)[1..] == rest;
    assert NullFreeInserts(y) ==> NullFreeInserts(y[1..]);
  }

  lemma {:induction false} TameSpan(ops: seq<Op>, rest: seq<Op>, y: seq<Op>)
    requires |ops| <= 1 && (forall op | op in ops :: !op.kind.Insert? && op.kind.n <= INFINITY) && Tame(rest, y)
    ensures Tame(ops + rest, y)
  {
    if ops == [] {
      assert ops + rest == rest;
    } else {
      assert ops[0] in ops && (ops + rest)[1..] == rest;
    }
  }

  /** Nothing that is pushed outgrows the machine, no more is inserted than the second change does,
      and no explicit null is brought in. */
  lemma {:induction false} TransformCutsTame(x: seq<Op>, y: seq<Op>, priority: bool)
    requires InMemory(x) && InMemory(y)
    ensures Tame(TransformCuts(x, y, priority), y)
    decreases |x| + |y|
  {
    hide TransformOp, Take, Drop, Tail, Len16, Tame, Transformed, NullFree;
    InMemoryWordSized(x);
    InMemoryWordSized(y);
    if FirstLen(x) >= INFINITY && FirstLen(y) >= INFINITY {
      TameNothing(y);
    } else if x != [] && x[0].kind.Insert? && (priority || y == [] || !y[0].kind.Insert?) {
      TransformCutsTame(x[1..], y, priority);
      TameSpan([RetainOp(x[0].Len())], TransformCuts(x[1..], y, priority), y);
    } else if y != [] && y[0].kind.Insert? {
      TransformCutsTame(x, y[1..], priority);
      TameInsert(y[0], TransformCuts(x, y[1..], priority), y);
    } else {
      var n := Least(FirstLen(x), FirstLen(y));
      StrideOfLengths(x, y);
      SpansStride(x, y, n, priority);
      OneOp(Head(x, n), Head(y, n), n, priority);
      TailInMemory(x, n);
      TailInMemory(y, n);
      TransformCutsTame(Tail(x, n), Tail(y, n), priority);
      TailTame(TransformCuts(Tail(x, n), Tail(y, n), priority), y, n);
      TameSpan(TransformOp(Head(x, n), Head(y, n), n, priority), TransformCuts(Tail(x, n), Tail(y, n), priority), y);
    }
  }

  lemma {:induction false} OneOp(x: Op, y: Op, n: nat, priority: bool)
    ensures |TransformOp(x, y, n, priority)| <= 1
  {
  }

  lemma {:induction false} TameNothing(y: seq<Op>)
    ensures Tame([], y)
  {
  }

  lemma {:induction false} StrideOfLengths(x: seq<Op>, y: seq<Op>)
    requires WordSized(x) && WordSized(y) && (FirstLen(x) < INFINITY || FirstLen(y) < INFINITY)
    ensures Stride(x, y) == Least(FirstLen(x), FirstLen(y)) <= INFINITY
  {
  }

  lemma {:induction false} TailInMemory(ops: seq<Op>, n: nat)
    requires ops != [] ==> !ops[0].kind.Insert? && n <= ops[0].Len()
    requires SpansWordSized(ops)
    ensures SpansWordSized(Tail(ops, n)) && InsertLen(Tail(ops, n)) == InsertLen(ops)
  {
    if ops != [] && n < ops[0].Len() {
      assert Tail(ops, n)[1..] == ops[1..];
    }
  }

  lemma {:induction false} TailTame(ops: seq<Op>, y: seq<Op>, n: nat)
    requires SpansWordSized(y) && (y != [] ==> !y[0].kind.Insert? && n <= y[0].Len()) && Tame(ops, Tail(y, n))
    ensures Tame(ops, y)
  {
    hide NullFree;
    TailInMemory(y, n);
    if NullFreeInserts(y) {
      assert NullFreeInserts(Tail(y, n));
    }
  }

  lemma {:induction false} SaturatingPushAllTame(ops: seq<Op>, more: seq<Op>)
    requires SpansWordSized(ops) && SpansWordSized(more) && NoEmptyOp(ops)
    ensures var all := SaturatingPushAll(ops, more);
            && SpansWordSized(all) && NoEmptyOp(all) && InsertLen(all) == InsertLen(ops) + InsertLen(more)
            && (NullFreeInserts(ops) && NullFreeInserts(more) ==> NullFreeInserts(all))
    decreases |more|
  {
    hide SaturatingPush, NullFree, Len16;
    if more != [] {
      SaturatingPushNoEmpty(ops, more[0]);
      SaturatingPushInMemory(ops, more[0]);
      InsertLenOne(more[0]);
      if NullFreeInserts(ops) && NullFreeInserts(more) {
        SaturatingPushNullFree(ops, more[0]);
      }
      SaturatingPushAllTame(SaturatingPush(ops, more[0]), more[1..]);
    }
  }

  lemma {:induction false} SaturatingPushNullFree(ops: seq<Op>, op: Op)
    requires NullFreeInserts(ops) && (op.kind.Insert? ==> NullFree(op.attributes))
    ensures NullFreeInserts(SaturatingPush(ops, op))
  {
    hide NullFree;
  }

  lemma {:induction false} ChopTame(ops: seq<Op>)
    requires SpansWordSized(ops)
    ensures SpansWordSized(Deltas.Chop(ops)) && InsertLen(Deltas.Chop(ops)) <= InsertLen(ops)
    ensures NullFreeInserts(ops) ==> NullFreeInserts(Deltas.Chop(ops))
    ensures NoEmptyOp(ops) ==> NoEmptyOp(Deltas.Chop(ops))
  {
    hide NullFree;
    if ops != [] && IsBareRetain(ops[|ops| - 1]) {
      assert ops == Deltas.Chop(ops) + [ops[|ops| - 1]];
      InsertLenAppend(Deltas.Chop(ops), [ops[|ops| - 1]]);
    }
  }

  /** On any ops from the wire: the result has no empty op, fits in memory, inserts no more than the
      second change did and carries no explicit null that was not there. */
  lemma {:induction false} TransformAnyTame(a: seq<Op>, b: seq<Op>, priority: bool)
    requires InMemory(a) && InMemory(b)
    ensures var r := TransformAny(a, b, priority);
            && InMemory(r) && NoEmptyOp(r) && InsertLen(r) <= InsertLen(b)
            && (NullFreeInserts(b) ==> NullFreeInserts(r))
  {
    hide TransformCuts, SaturatingPushAll, Deltas.Chop, NullFree;
    var all := TransformCuts(a, b, priority);
    TransformCutsTame(a, b, priority);
    SaturatingPushAllTame([], all);
    ChopTame(SaturatingPushAll([], all));
  }

  /** Where the loop of `transform` stands: of the ops `all` that it pushes, `done` have been pushed. */
  ghost predicate TransformRunning(ia: OpIterator, ib: OpIterator, out: Delta, priority: bool, all: seq<Op>,
        done: seq<Op>)
    reads ia, ib, out
  {
    && ia != ib && ia.Valid() && ib.Valid() && WordSized(ia.Rest()) && WordSized(ib.Rest())
    && all == done + TransformCuts(ia.Rest(), ib.Rest(), priority) && out.ops == SaturatingPushAll([], done)
  }

  lemma {:induction false} TailWordSized(ops: seq<Op>, n: nat)
    requires WordSized(ops) && (ops != [] ==> !ops[0].kind.Insert? && n <= ops[0].Len())
    ensures WordSized(Tail(ops, n))
  {
  }

  /** The whole of the current op, which is an insert. */
  method NextInsert(it: OpIterator) returns (op: Op)
    requires it.Valid() && it.Rest() != [] && it.Rest()[0].kind.Insert? && it.Rest()[0].Len() <= INFINITY
    modifies it
    ensures it.Valid() && it.Rest() == old(it.Rest())[1..] && op == old(it.Rest())[0]
  {
    TakeAll(it.Rest()[0]);
    op := it.Next(INFINITY);
  }

  /** The next `n` units of a list that does not start with an insert. */
  method NextSpan(it: OpIterator, n: nat) returns (op: Op)
    requires it.Valid() && (it.Rest() == [] || (!it.Rest()[0].kind.Insert? && n <= it.Rest()[0].Len()))
    modifies it
    ensures it.Valid() && it.Rest() == Tail(old(it.Rest()), n)
    ensures op == if old(it.Rest()) == [] then RetainOp(INFINITY) else Head(old(it.Rest()), n)
  {
    op := it.Next(n);
  }

  /** The pass in which neither side inserts: take the same number of units from both iterators and
      push what is left of the second op. */
  method TransformSpans(ia: OpIterator, ib: OpIterator, out: Delta, priority: bool, ghost all: seq<Op>,
        ghost done: seq<Op>)
      returns (ghost done': seq<Op>)
    requires TransformRunning(ia, ib, out, priority, all, done) && (ia.HasNext() || ib.HasNext())
    requires ia.PeekKind() != InsertKind && ib.PeekKind() != InsertKind
    modifies ia, ib, out
    ensures TransformRunning(ia, ib, out, priority, all, done')
    ensures |ia.Rest()| + |ib.Rest()| < old(|ia.Rest()| + |ib.Rest()|)
  {
    hide WordSized, Tail, Take, Transformed, SaturatingPush, SaturatingPushAll, Len16, Aligned, RestOf, TransformOp,
      OpIterator.InPlace, OpIterator.At, OpIterator.Rest;
    ghost var x, y := ia.Rest(), ib.Rest();
    var length := Least(ia.PeekLength(), ib.PeekLength());
    StrideOfLengths(x, y);
    SpansStride(x, y, length, priority);
    TailWordSized(x, length);
    TailWordSized(y, length);
    var opA := NextSpan(ia, length);
    var opB := NextSpan(ib, length);
    ghost var rest := TransformCuts(ia.Rest(), ib.Rest(), priority);
    ghost var ops := TransformOp(Head(x, length), Head(y, length), length, priority);
    assert all == done + (ops + rest);
    SpanPushes(Head(x, length), Head(y, length), length, priority, opA, opB);
    done' := done + ops;
    if opA.kind.Delete? {
      assert ops + rest == rest && done + ops == done;
      return;
    } else if opB.kind.Delete? {
      PushedOne(all, done, opB, rest);
      out.Push(opB);
    } else {
      var op := RetainOp(length, Transformed(opA.attributes, opB.attributes, priority));
      PushedOne(all, done, op, rest);
      out.Push(op);
    }
  }

  lemma {:induction false} SpanPushes(x: Op, y: Op, n: nat, priority: bool, opA: Op, opB: Op)
    requires opA == x || (x == RetainOp(n) && opA == RetainOp(INFINITY))
    requires opB == y || (y == RetainOp(n) && opB == RetainOp(INFINITY))
    ensures TransformOp(x, y, n, priority) ==
              if opA.kind.Delete? then [] else if opB.kind.Delete? then [opB]
              else [RetainOp(n, Transformed(opA.attributes, opB.attributes, priority))]
  {
  }

  /** One pass of the loop of `transform`. */
  method TransformOnce(ia: OpIterator, ib: OpIterator, out: Delta, priority: bool, ghost all: seq<Op>,
        ghost done: seq<Op>)
      returns (ghost done': seq<Op>)
    requires TransformRunning(ia, ib, out, priority, all, done) && (ia.HasNext() || ib.HasNext())
    modifies ia, ib, out
    ensures TransformRunning(ia, ib, out, priority, all, done')
    ensures |ia.Rest()| + |ib.Rest()| < old(|ia.Rest()| + |ib.Rest()|)
  {
    hide Take, Tail, SaturatingPush, SaturatingPushAll, Len16, Aligned, RestOf, TransformOp, OpIterator.InPlace,
      OpIterator.At, OpIterator.Rest;
    ghost var x, y := ia.Rest(), ib.Rest();
    if ia.PeekKind() == InsertKind && (priority || ib.PeekKind() != InsertKind) {
      PushedOne(all, done, RetainOp(x[0].Len()), TransformCuts(x[1..], y, priority));
      var op := NextInsert(ia);
      out.Push(RetainOp(op.Len()));
      done' := done + [RetainOp(x[0].Len())];
    } else if ib.PeekKind() == InsertKind {
      PushedOne(all, done, y[0], TransformCuts(x, y[1..], priority));
      var op := NextInsert(ib);
      out.Push(op);
      done' := done + [y[0]];
    } else {
      done' := TransformSpans(ia, ib, out, priority, all, done);
    }
  }

  /** Concurrent transformation, on whatever ops arrive from the wire. Lengths that reach the
      sentinel are cut short by the machine word; below it the result is `Transform`. */
  method TransformDeltas(a: seq<Op>, b: seq<Op>, priority: bool) returns (r: seq<Op>)
    requires InMemory(a) && InMemory(b)
    ensures r == TransformAny(a, b, priority)
    ensures InMemory(r) && NoEmptyOp(r) && InsertLen(r) <= InsertLen(b)
    ensures NullFreeInserts(b) ==> NullFreeInserts(r)
    ensures Sized(a) && Sized(b) && Span(TransformList(a, b, priority)) <= INFINITY ==> r == Transform(a, b, priority)
  {
    hide TransformCuts, TransformList, Span, Sized, InsertLen, InMemory, NoEmptyOp, Transform, Deltas.Chop,
      SaturatingPushAll, NullFreeInserts, RestOf, Aligned;
    InMemoryWordSized(a);
    InMemoryWordSized(b);
    var ia := new OpIterator(a);
    var ib := new OpIterator(b);
    var out := new Delta();
    ghost var all, done: seq<Op> := TransformCuts(a, b, priority), [];
    assert [] + all == all;
    NothingPushed();
    while ia.HasNext() || ib.HasNext()
      invariant TransformRunning(ia, ib, out, priority, all, done)
      decreases |ia.Rest()| + |ib.Rest()|
    {
      done := TransformOnce(ia, ib, out, priority, all, done);
    }
    TransformCutsEnd(ia.Rest(), ib.Rest(), priority);
    assert done + [] == done;
    out.Chop();
    r := out.ops;
    TransformAnyTame(a, b, priority);
    if Sized(a) && Sized(b) && Span(TransformList(a, b, priority)) <= INFINITY {
      TransformAnyExact(a, b, priority);
    }
  }

  lemma {:induction false} TransformCutsEnd(x: seq<Op>, y: seq<Op>, priority: bool)
    requires FirstLen(x) >= INFINITY && FirstLen(y) >= INFINITY
    ensures TransformCuts(x, y, priority) == []
  {
  }
}
