/** The op iterator and the delta builder in the form the source gives them
    (crates/gal-ot/src/delta.rs:267-324, 429-501): fields that its methods update, lengths that
    saturate at the machine word. */
module Iterating {
  import opened Basics
  import opened Utf16
  import opened Deltas
  import opened Building

  /** `usize::MAX`. Asked for that much, an iterator hands out all that is left of its op. */
  const INFINITY: nat := 0xFFFF_FFFF_FFFF_FFFF

  function SaturatingAdd(a: nat, b: nat): nat {
    if a + b > INFINITY then INFINITY else a + b
  }

  /** Units of new content in `ops`. */
  function InsertLen(ops: seq<Op>): nat {
    if ops == [] then 0 else (if ops[0].kind.Insert? then ops[0].Len() else 0) + InsertLen(ops[1..])
  }

  predicate SpansWordSized(ops: seq<Op>) {
    forall i | 0 <= i < |ops| && !ops[i].kind.Insert? :: ops[i].kind.n <= INFINITY
  }

  /** What a delta in memory looks like: lengths are machine words, and its text exists. */
  predicate InMemory(ops: seq<Op>) {
    SpansWordSized(ops) && InsertLen(ops) <= INFINITY
  }

  /** Every length is one a machine word can hold. */
  predicate WordSized(ops: seq<Op>) {
    forall i | 0 <= i < |ops| :: ops[i].Len() <= INFINITY
  }

  lemma {:induction false} InsertLenAppend(x: seq<Op>, y: seq<Op>)
    ensures InsertLen(x + y) == InsertLen(x) + InsertLen(y)
  {
    if x == [] {
      assert x + y == y;
    } else {
      InsertLenAppend(x[1..], y);
      assert (x + y)[1..] == x[1..] + y;
    }
  }

  lemma {:induction false} InsertLenOne(op: Op)
    ensures InsertLen([op]) == if op.kind.Insert? then op.Len() else 0
  {
    assert [op][1..] == [];
  }

  lemma {:induction false} InMemoryWordSized(ops: seq<Op>)
    requires InMemory(ops)
    ensures WordSized(ops)
  {
    forall i | 0 <= i < |ops| && ops[i].kind.Insert?
      ensures ops[i].Len() <= InsertLen(ops)
    {
      assert ops == ops[..i] + [ops[i]] + ops[i + 1..];
      InsertLenAppend(ops[..i] + [ops[i]], ops[i + 1..]);
      InsertLenAppend(ops[..i], [ops[i]]);
      InsertLenOne(ops[i]);
    }
  }

  /** Every op is shorter than the sentinel. */
  predicate Sized(ops: seq<Op>) {
    forall i | 0 <= i < |ops| :: ops[i].Len() < INFINITY
  }

  // --- the builder ------------------------------------------------------

  /** `Merge` with the sum of two lengths held at the largest machine word. */
  function SaturatingMerge(a: Op, b: Op): Op
    requires Mergeable(a, b)
  {
    match a.kind
    case Insert(_) => Merge(a, b)
    case Retain(n) => Op(Retain(SaturatingAdd(n, b.kind.n)), a.attributes)
    case Delete(n) => Op(Delete(SaturatingAdd(n, b.kind.n)), a.attributes)
  }

  function SaturatingJoin(ops: seq<Op>, op: Op): seq<Op> {
    if ops != [] && Mergeable(ops[|ops| - 1], op)
    then ops[..|ops| - 1] + [SaturatingMerge(ops[|ops| - 1], op)]
    else ops + [op]
  }

  function SaturatingPush(ops: seq<Op>, op: Op): seq<Op> {
    if op.Len() == 0 then ops
    else if ops != [] && ops[|ops| - 1].kind.Delete? && op.kind.Insert?
    then SaturatingJoin(ops[..|ops| - 1], op) + [ops[|ops| - 1]]
    else SaturatingJoin(ops, op)
  }

  class Delta {
    var ops: seq<Op>

    constructor ()
      ensures ops == []
    {
      ops := [];
    }

    /** Add an op at the end of the list, in place, as `SaturatingPush` does on values. */
    method Push(op: Op)
      modifies this
      ensures ops == SaturatingPush(old(ops), op)
    {
      if op.Len() == 0 {
        return;
      }
      var index := |ops|;
      if index == 0 {
        ops := [op];
        return;
      }
      if ops[index - 1].kind.Delete? && op.kind.Delete? {
        var merged := Op(Delete(SaturatingAdd(ops[index - 1].kind.n, op.kind.n)), ops[index - 1].attributes);
        ops := ops[index - 1 := merged];
        return;
      }
      if ops[index - 1].kind.Delete? && op.kind.Insert? {
        index := index - 1;
        if index == 0 {
          ops := [op] + ops;
          return;
        }
        assert ops[index..] == [ops[index]];
      }
      if ops[index - 1].attributes == op.attributes {
        var prev := ops[index - 1];
        if prev.IsText() && op.IsText() {
          var merged := prev.kind.payload.s + op.kind.payload.s;
          ops := ops[index - 1 := Op(Insert(Text(merged)), prev.attributes)];
          return;
        } else if prev.kind.Retain? && op.kind.Retain? {
          ops := ops[index - 1 := Op(Retain(SaturatingAdd(prev.kind.n, op.kind.n)), prev.attributes)];
          return;
        }
      }
      ops := ops[..index] + [op] + ops[index..];
    }

    method Chop()
      modifies this
      ensures ops == Deltas.Chop(old(ops))
    {
      if |ops| > 0 && IsBareRetain(ops[|ops| - 1]) {
        ops := ops[..|ops| - 1];
      }
    }
  }

  /** Below the largest machine word nothing saturates. */
  lemma {:induction false} SaturatingPushExact(ops: seq<Op>, op: Op)
    requires Span(ops + [op]) <= INFINITY
    ensures SaturatingPush(ops, op) == Deltas.Push(ops, op)
  {
    SpanAppend(ops, [op]);
    if ops != [] {
      LastSpan(ops);
    }
  }

  lemma {:induction false} LastSpan(ops: seq<Op>)
    requires ops != []
    ensures !ops[|ops| - 1].kind.Insert? ==> ops[|ops| - 1].kind.n <= Span(ops)
  {
    assert ops == ops[..|ops| - 1] + [ops[|ops| - 1]];
    SpanAppend(ops[..|ops| - 1], [ops[|ops| - 1]]);
  }

  lemma {:induction false} SaturatingPushNoEmpty(ops: seq<Op>, op: Op)
    requires NoEmptyOp(ops)
    ensures NoEmptyOp(SaturatingPush(ops, op))
  {
    Len16Merge(ops, op);
  }

  /** A delta that pushing builds fits in memory when what is pushed does. */
  lemma {:induction false} SaturatingPushInMemory(ops: seq<Op>, op: Op)
    requires SpansWordSized(ops) && (!op.kind.Insert? ==> op.kind.n <= INFINITY)
    ensures SpansWordSized(SaturatingPush(ops, op))
    ensures InsertLen(SaturatingPush(ops, op)) == InsertLen(ops) + InsertLen([op])
  {
    SaturatingPushSpans(ops, op);
    SaturatingPushLen(ops, op);
  }

  lemma {:induction false} SaturatingPushSpans(ops: seq<Op>, op: Op)
    requires SpansWordSized(ops) && (!op.kind.Insert? ==> op.kind.n <= INFINITY)
    ensures SpansWordSized(SaturatingPush(ops, op))
  {
    hide InsertLen;
  }

  lemma {:induction false} SaturatingPushLen(ops: seq<Op>, op: Op)
    ensures InsertLen(SaturatingPush(ops, op)) == InsertLen(ops) + InsertLen([op])
  {
    hide SaturatingMerge, Mergeable, SaturatingJoin;
    InsertLenOne(op);
    if op.Len() > 0 {
      var cut := ops != [] && ops[|ops| - 1].kind.Delete? && op.kind.Insert?;
      var front := if cut then ops[..|ops| - 1] else ops;
      SaturatingJoinLen(front, op);
      if cut {
        var last := ops[|ops| - 1];
        assert ops == front + [last];
        InsertLenAppend(front, [last]);
        InsertLenAppend(SaturatingJoin(front, op), [last]);
      }
    }
  }

  lemma {:induction false} SaturatingJoinLen(ops: seq<Op>, op: Op)
    ensures InsertLen(SaturatingJoin(ops, op)) == InsertLen(ops) + InsertLen([op])
  {
    InsertLenAppend(ops, [op]);
    InsertLenOne(op);
    if ops != [] && Mergeable(ops[|ops| - 1], op) {
      var front, last := ops[..|ops| - 1], ops[|ops| - 1];
      assert ops == front + [last];
      InsertLenAppend(front, [last]);
      InsertLenOne(last);
      InsertLenAppend(front, [SaturatingMerge(last, op)]);
      InsertLenOne(SaturatingMerge(last, op));
      Len16Merge([last], op);
      assert [last][0] == last;
    }
  }

  // --- the iterator -----------------------------------------------------

  datatype Kind = InsertKind | RetainKind | DeleteKind

  function KindOf(op: Op): Kind {
    match op.kind
    case Insert(_) => InsertKind
    case Retain(_) => RetainKind
    case Delete(_) => DeleteKind
  }

  /** Where an iterator stands: the ops from the current one on, the units of it that have been
      taken, and the characters of its text that are behind. Where a cut splits a character the
      text is rounded up and the units are not, and the two drift apart. */
  datatype Reading = Reading(ops: seq<Op>, offset: nat, chars: nat)

  function StartOf(ops: seq<Op>): Reading {
    Reading(ops, 0, 0)
  }

  predicate Proper(r: Reading) {
    if r.ops == [] then r.offset == 0 && r.chars == 0
    else
      && (r.offset == 0 || r.offset < r.ops[0].Len())
      && (if r.ops[0].IsText() then r.chars <= |r.ops[0].kind.payload.s| else r.chars == 0)
  }

  /** Units left of the current op, or the sentinel when there is none. */
  function Remaining(r: Reading): nat
    requires Proper(r)
  {
    if r.ops == [] then INFINITY else r.ops[0].Len() - r.offset
  }

  predicate HasMore(r: Reading)
    requires Proper(r)
  {
    Remaining(r) < INFINITY
  }

  /** What is handed out for the next `n` units; an iterator that is used up hands out a retain. */
  function Piece(r: Reading, n: nat): Op
    requires Proper(r)
  {
    if r.ops == [] then RetainOp(n)
    else match r.ops[0].kind
      case Insert(Text(s)) => Op(Insert(Text(s[r.chars..][..CharsFor(s[r.chars..], n)])), r.ops[0].attributes)
      case Insert(Embed(_)) => r.ops[0]
      case Retain(_) => RetainOp(n, r.ops[0].attributes)
      case Delete(_) => DeleteOp(n)
  }

  /** Where the iterator stands after `n` more units. */
  function Onward(r: Reading, n: nat): (next: Reading)
    requires Proper(r) && n <= Remaining(r)
    ensures Proper(next)
    ensures r.ops != [] && n == Remaining(r) ==> next == StartOf(r.ops[1..])
    ensures r.ops != [] && n < Remaining(r) ==> next.ops == r.ops && next.offset == r.offset + n
  {
    if r.ops == [] then r
    else if r.offset + n >= r.ops[0].Len() then StartOf(r.ops[1..])
    else Reading(r.ops, r.offset + n,
                 if r.ops[0].IsText() then r.chars + CharsFor(r.ops[0].kind.payload.s[r.chars..], n) else 0)
  }

  /** No cut so far has split a character. */
  predicate Aligned(r: Reading)
    requires Proper(r)
  {
    r.ops != [] && r.ops[0].IsText() ==>
      OnBoundary(r.ops[0].kind.payload.s, r.offset) && r.chars == CharsFor(r.ops[0].kind.payload.s, r.offset)
  }

  /** The ops still to come; the first of them may be what is left of one. */
  function RestOf(r: Reading): seq<Op>
    requires Proper(r)
  {
    if r.ops == [] then [] else [Drop(r.ops[0], r.offset)] + r.ops[1..]
  }

  /** A cut after `length` units, or at the end of the first op, splits no character. */
  predicate CleanCut(rest: seq<Op>, length: nat) {
    rest != [] && rest[0].IsText() ==> OnBoundary(rest[0].kind.payload.s, Least(length, rest[0].Len()))
  }

  class OpIterator {
    const ops: seq<Op>
    var index: nat
    var offset: nat
    var byteOffset: nat

    /** Where the iterator stands. */
    ghost function At(): Reading
      reads this
    {
      if index >= |ops| then StartOf([])
      else Reading(ops[index..], offset, if ops[index].IsText() then CharIndex(ops[index].kind.payload.s, byteOffset) else 0)
    }

    /** The position is inside the current op, and the cached byte offset is where a character of
        its text starts. */
    ghost predicate InPlace()
      reads this
      ensures InPlace() ==> Proper(At())
    {
      && index <= |ops| && Proper(At())
      && (index == |ops| ==> offset == 0 && byteOffset == 0)
      && (index < |ops| ==> if ops[index].IsText() then byteOffset == Len8(ops[index].kind.payload.s[..At().chars]) else byteOffset == 0)
    }

    /** Moreover no cut has split a character: the cached byte offset is the one that recomputing
        it from the UTF-16 offset gives. */
    ghost predicate Valid()
      reads this
    {
      InPlace() && Aligned(At())
    }

    ghost function Rest(): seq<Op>
      requires InPlace()
      reads this
    {
      RestOf(At())
    }

    constructor (ops: seq<Op>)
      ensures Valid() && At() == StartOf(ops) && Rest() == ops && this.ops == ops
    {
      this.ops := ops;
      index, offset, byteOffset := 0, 0, 0;
      new;
      assert ops[0..] == ops;
      AtStart(ops);
    }

    /** Units that are left here: the sentinel once the list is used up. */
    function PeekLength(): (n: nat)
      requires InPlace()
      reads this
      ensures n == Remaining(At())
      ensures Valid() ==> n == if Rest() == [] then INFINITY else Rest()[0].Len()
    {
      if index < |ops| then
        RestLength(At());
        ops[index].Len() - offset
      else INFINITY
    }

    predicate HasNext()
      requires InPlace()
      reads this
      ensures HasNext() <==> HasMore(At())
      ensures Valid() ==> (HasNext() <==> (if Rest() == [] then INFINITY else Rest()[0].Len()) < INFINITY)
    {
      PeekLength() < INFINITY
    }

    function PeekKind(): (k: Kind)
      requires InPlace()
      reads this
      ensures k == if At().ops == [] then RetainKind else KindOf(At().ops[0])
      ensures k == if Rest() == [] then RetainKind else KindOf(Rest()[0])
    {
      if index < |ops| then KindOf(ops[index]) else RetainKind
    }

    /** Take up to `length` units of the current op. Cut on a boundary, that is what the list holds
        there, and the rest of the list is left. */
    method Next(length: nat) returns (op: Op)
      requires InPlace()
      modifies this
      ensures InPlace()
      ensures old(At()).ops == [] ==> op == RetainOp(INFINITY) && At() == old(At())
      ensures old(At()).ops != [] ==>
                var n := Least(length, Remaining(old(At())));
                op == Piece(old(At()), n) && At() == Onward(old(At()), n)
      ensures old(Valid()) && CleanCut(old(Rest()), length) ==> Valid()
      ensures old(Valid()) && old(Rest()) == [] ==> Rest() == []
      ensures old(Valid()) && CleanCut(old(Rest()), length) && old(Rest()) != [] ==>
                var n := Least(length, old(Rest())[0].Len());
                op == Take(old(Rest())[0], n) && Rest() == Tail(old(Rest()), n)
    {
      hide Take, Tail, Drop, CharsFor, OnBoundary, Len8, Len16, CharIndex, Aligned;
      if index >= |ops| {
        return RetainOp(INFINITY);
      }
      ghost var here := At();
      var current := ops[index];
      var opLen := current.Len();
      var take := Least(length, opLen - offset);
      CutAligned(here, take);
      op := NextPiece(current, take);
      offset := offset + take;
      if offset >= opLen {
        index := index + 1;
        offset := 0;
        byteOffset := 0;
        assert ops[index..] == here.ops[1..];
        if index < |ops| {
          CharIndexStart(ops[index]);
        }
      }
    }

    /** The next `take` units of the current op; the byte offset moves past the text taken. */
    method NextPiece(current: Op, take: nat) returns (op: Op)
      requires InPlace() && index < |ops| && current == ops[index]
      modifies this`byteOffset
      ensures op == Piece(old(At()), take)
      ensures if current.IsText() then
                var s, k := current.kind.payload.s, old(At()).chars;
                && k + CharsFor(s[k..], take) <= |s|
                && byteOffset == Len8(s[..k + CharsFor(s[k..], take)])
                && CharIndex(s, byteOffset) == k + CharsFor(s[k..], take)
              else byteOffset == old(byteOffset)
    {
      hide CharsFor, OnBoundary, Len8, Len16, SliceBytes, CharIndex;
      match current.kind
      case Delete(_) => {
        op := DeleteOp(take);
      }
      case Retain(_) => {
        op := RetainOp(take, current.attributes);
      }
      case Insert(Embed(v)) => {
        op := Op(Insert(Embed(v)), current.attributes);
      }
      case Insert(Text(s)) => {
        ghost var k := At().chars;
        var start := byteOffset;
        var end := AdvanceUtf16(s, start, take, k);
        byteOffset := end;
        CharIndexOfPrefix(s, k + CharsFor(s[k..], take));
        SliceBytesChars(s, k, CharsFor(s[k..], take));
        op := Op(Insert(Text(SliceBytes(s, start, end))), current.attributes);
      }
    }
  }

  lemma {:induction false} CharIndexStart(op: Op)
    ensures op.IsText() ==> CharIndex(op.kind.payload.s, 0) == 0 && Len8(op.kind.payload.s[..0]) == 0
    ensures Proper(StartOf([op]))
  {
  }

  lemma {:induction false} AtStart(ops: seq<Op>)
    ensures Proper(StartOf(ops)) && Aligned(StartOf(ops)) && RestOf(StartOf(ops)) == ops
    ensures ops != [] && ops[0].IsText() ==> CharIndex(ops[0].kind.payload.s, 0) == 0 && Len8(ops[0].kind.payload.s[..0]) == 0
  {
    if ops != [] {
      DropNothing(ops[0]);
    }
  }

  lemma {:induction false} DropNothing(op: Op)
    ensures Drop(op, 0) == op
    ensures op.IsText() ==> OnBoundary(op.kind.payload.s, 0)
  {
    if op.IsText() {
      var s := op.kind.payload.s;
      assert s[0..] == s && s[..0] == "";
    }
  }

  lemma {:induction false} RestLength(r: Reading)
    requires Proper(r) && r.ops != []
    ensures Aligned(r) ==> RestOf(r)[0].Len() == Remaining(r)
  {
    if Aligned(r) {
      DropLength(r.ops[0], r.offset);
    }
  }

  /** Cutting on a boundary, the iterator hands out what the list holds there. */
  lemma {:induction false} CutAligned(r: Reading, n: nat)
    requires Proper(r) && r.ops != [] && n <= Remaining(r)
    ensures Aligned(r) && (RestOf(r)[0].IsText() ==> OnBoundary(RestOf(r)[0].kind.payload.s, n)) ==>
              && RestOf(r)[0].Len() == Remaining(r)
              && Piece(r, n) == Take(RestOf(r)[0], n)
              && Aligned(Onward(r, n)) && RestOf(Onward(r, n)) == Tail(RestOf(r), n)
    ensures Aligned(r) ==> RestOf(r)[0].Len() == Remaining(r)
  {
    hide CharsFor, OnBoundary, Len16, Take, Drop;
    RestLength(r);
    if Aligned(r) && (RestOf(r)[0].IsText() ==> OnBoundary(RestOf(r)[0].kind.payload.s, n)) {
      DropKind(r.ops[0], r.offset);
      CutTwice(r.ops[0], r.offset, n);
      PieceTaken(r, n);
      assert RestOf(r)[1..] == r.ops[1..];
      if n == Remaining(r) {
        AtStart(r.ops[1..]);
      }
    }
  }

  lemma {:induction false} DropKind(op: Op, n: nat)
    requires n <= op.Len()
    ensures Drop(op, n).IsText() <==> op.IsText()
    ensures op.IsText() ==> Drop(op, n).kind.payload.s == op.kind.payload.s[CharsFor(op.kind.payload.s, n)..]
  {
  }

  lemma {:induction false} PieceTaken(r: Reading, n: nat)
    requires Proper(r) && r.ops != [] && n <= Remaining(r) && Aligned(r)
    requires n <= Drop(r.ops[0], r.offset).Len()
    ensures Piece(r, n) == Take(Drop(r.ops[0], r.offset), n)
  {
  }

  lemma {:induction false} DropLength(op: Op, offset: nat)
    requires offset <= op.Len()
    requires op.IsText() ==> OnBoundary(op.kind.payload.s, offset)
    requires offset == 0 || offset < op.Len()
    ensures Drop(op, offset).Len() == op.Len() - offset
  {
    if op.IsText() {
      Len16Split(op.kind.payload.s, CharsFor(op.kind.payload.s, offset));
    }
  }

  /** Two cuts in a row are one cut further on. */
  lemma {:induction false} CutTwice(op: Op, offset: nat, n: nat)
    requires offset + n <= op.Len() && (offset == 0 || offset < op.Len())
    requires op.IsText() ==> OnBoundary(op.kind.payload.s, offset)
    requires op.IsText() ==> OnBoundary(Drop(op, offset).kind.payload.s, n)
    ensures Drop(op, offset).Len() == op.Len() - offset
    ensures op.IsText() ==> OnBoundary(op.kind.payload.s, offset + n)
    ensures op.IsText() ==>
              var s := op.kind.payload.s;
              CharsFor(s, offset + n) == CharsFor(s, offset) + CharsFor(s[CharsFor(s, offset)..], n)
    ensures Drop(Drop(op, offset), n) == Drop(op, offset + n)
  {
    DropLength(op, offset);
    if op.IsText() {
      CutTextTwice(op.kind.payload.s, offset, n);
    }
  }

  lemma {:induction false} CutTextTwice(s: string, offset: nat, n: nat)
    requires OnBoundary(s, offset) && OnBoundary(s[CharsFor(s, offset)..], n)
    ensures var k, j := CharsFor(s, offset), CharsFor(s[CharsFor(s, offset)..], n);
            CharsFor(s, offset + n) == k + j && s[k..][j..] == s[k + j..] && OnBoundary(s, offset + n)
  {
    var k := CharsFor(s, offset);
    var j := CharsFor(s[k..], n);
    CharsForSum(s, offset, n);
    assert s[..k + j] == s[..k] + s[k..][..j];
    Len16Append(s[..k], s[k..][..j]);
  }
}
