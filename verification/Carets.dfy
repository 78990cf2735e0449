/** Carets (crates/gal-ot/src/delta.rs:598-626): where a position in the document goes when a
    change is applied, and that this is what `transform` does to an insert made at the caret. */
module Carets {
  import opened Basics
  import opened Utf16
  import opened Attributes
  import opened Deltas
  import opened Building
  import opened Composing
  import opened Transforming
  import opened Iterating

  /** Where the caret `at` units into what `ops` covers ends up. With `priority` it stays to the
      left of text inserted exactly there. */
  function Moved(ops: seq<Op>, at: nat, priority: bool): nat
    decreases |ops|
  {
    if ops == [] then at
    else
      var n := ops[0].Len();
      match ops[0].kind
      case Delete(_) => Moved(ops[1..], at - Least(n, at), priority)
      case Insert(_) =>
        if at > 0 || !priority then n + Moved(ops[1..], at, priority)
        else if n > 0 then 0
        else Moved(ops[1..], at, priority)
      case Retain(_) => if n <= at then n + Moved(ops[1..], at - n, priority) else at
  }

  /** Where the loop of `transform_position` stands: `offset` is where the current op starts in
      the result, and a caret that has been passed is settled. */
  ghost predicate Walking(goal: nat, rest: seq<Op>, index: nat, offset: nat, priority: bool) {
    goal == if offset <= index then offset + Moved(rest, index - offset, priority) else index
  }

  lemma {:induction false} WalkStep(goal: nat, rest: seq<Op>, index: nat, offset: nat, priority: bool)
    requires Walking(goal, rest, index, offset, priority) && rest != [] && offset <= index
    ensures var n := rest[0].Len();
            match rest[0].kind
            case Delete(_) => Walking(goal, rest[1..], index - Least(n, index - offset), offset, priority)
            case Insert(_) => Walking(goal, rest[1..], if offset < index || !priority then index + n else index, offset + n, priority)
            case Retain(_) => Walking(goal, rest[1..], index, offset + n, priority)
  {
  }

  method TransformPosition(ops: seq<Op>, start: nat, priority: bool) returns (index: nat)
    requires Sized(ops)
    ensures index == Moved(ops, start, priority)
  {
    hide Walking, Moved, Aligned, RestOf, Len16, OpIterator.InPlace, OpIterator.At, OpIterator.Rest, Proper, HasMore;
    index := start;
    var offset: nat := 0;
    var iter := new OpIterator(ops);
    WalkStart(ops, start, priority);
    while iter.HasNext() && offset <= index
      invariant iter.Valid() && Sized(iter.Rest())
      invariant Walking(Moved(ops, start, priority), iter.Rest(), index, offset, priority)
      decreases |iter.Rest()|
    {
      WalkStep(Moved(ops, start, priority), iter.Rest(), index, offset, priority);
      var length, kind := PassOver(iter);
      if kind == DeleteKind {
        index := index - Least(length, index - offset);
      } else {
        if kind == InsertKind && (offset < index || !priority) {
          index := index + length;
        }
        offset := offset + length;
      }
    }
    WalkEnd(Moved(ops, start, priority), iter.Rest(), index, offset, priority);
  }

  /** Look at the current op and go past it. */
  method PassOver(iter: OpIterator) returns (length: nat, kind: Kind)
    requires iter.Valid() && iter.Rest() != [] && Sized(iter.Rest())
    modifies iter
    ensures iter.Valid() && iter.Rest() == old(iter.Rest())[1..] && Sized(iter.Rest())
    ensures length == old(iter.Rest())[0].Len() && kind == KindOf(old(iter.Rest())[0])
  {
    hide Aligned, RestOf, Len16;
    TakesWhole(iter.Rest()[0]);
    length := iter.PeekLength();
    kind := iter.PeekKind();
    var op := iter.Next(INFINITY);
  }

  lemma {:induction false} WalkStart(ops: seq<Op>, start: nat, priority: bool)
    ensures Walking(Moved(ops, start, priority), ops, start, 0, priority)
  {
  }

  lemma {:induction false} WalkEnd(goal: nat, rest: seq<Op>, index: nat, offset: nat, priority: bool)
    requires Walking(goal, rest, index, offset, priority) && (rest == [] || offset > index)
    ensures index == goal
  {
  }

  lemma {:induction false} TakesWhole(op: Op)
    ensures op.IsText() ==> OnBoundary(op.kind.payload.s, op.Len())
  {
    if op.IsText() {
      CharsForAll(op.kind.payload.s, op.Len());
      assert op.kind.payload.s[..|op.kind.payload.s|] == op.kind.payload.s;
    }
  }

  // --- a caret is an insert ---------------------------------------------

  function Bare(n: nat): seq<Op> {
    if n == 0 then [] else [RetainOp(n)]
  }

  /** An insert at unit `at`, as `push` builds it. */
  function InsertAt(at: nat, ins: Op): seq<Op> {
    Bare(at) + [ins]
  }

  /** A list after which a bare retain stands on its own. */
  predicate Ended(ops: seq<Op>) {
    ops == [] || !IsBareRetain(ops[|ops| - 1])
  }

  lemma {:induction false} PushBare(ops: seq<Op>, t: nat, n: nat)
    requires Ended(ops)
    ensures Push(ops + Bare(t), RetainOp(n)) == ops + Bare(t + n)
  {
    if n == 0 {
      assert Push(ops + Bare(t), RetainOp(n)) == ops + Bare(t);
    } else if t == 0 {
      assert ops + Bare(0) == ops;
    } else {
      var all := ops + Bare(t);
      assert all[|all| - 1] == RetainOp(t) && all[..|all| - 1] == ops;
    }
  }

  lemma {:induction false} PushAllFirst(ops: seq<Op>, op: Op, more: seq<Op>)
    ensures PushAll(ops, [op] + more) == PushAll(Push(ops, op), more)
  {
    assert ([op] + more)[1..] == more;
  }

  /** Once the insert is out, what is left of the other change only adds bare retains. */
  lemma {:induction false} TrailingRetains(ops: seq<Op>, t: nat, a: seq<Op>, priority: bool) returns (k: nat)
    requires Ended(ops)
    ensures PushAll(ops + Bare(t), TransformList(a, [], priority)) == ops + Bare(k)
    decreases |a|
  {
    hide Push, Bare;
    if a == [] {
      k := t;
    } else {
      var n := a[0].Len();
      var rest := TransformList(a[1..], [], priority);
      assert Tail(a, n) == a[1..] && Tail([], n) == [];
      if a[0].kind.Delete? {
        assert TransformList(a, [], priority) == [] + rest && [] + rest == rest;
        k := TrailingRetains(ops, t, a[1..], priority);
      } else {
        FormatWithNothing(a[0].attributes);
        assert TransformList(a, [], priority) == [RetainOp(n)] + rest;
        PushAllFirst(ops + Bare(t), RetainOp(n), rest);
        PushBare(ops, t, n);
        k := TrailingRetains(ops, t + n, a[1..], priority);
      }
    }
  }

  /** The caret's turn: its insert is pushed after `t` units, then the trailing retains. */
  lemma {:induction false} InsertNow(t: nat, a: seq<Op>, ins: Op, priority: bool) returns (k: nat)
    requires ins.kind.Insert? && ins.Len() > 0
    requires a == [] || !a[0].kind.Insert? || !priority
    ensures PushAll(Bare(t), TransformList(a, [ins], priority)) == InsertAt(t, ins) + Bare(k)
  {
    var rest := TransformList(a, [], priority);
    assert [ins][1..] == [];
    assert TransformList(a, [ins], priority) == [ins] + rest;
    PushAllFirst(Bare(t), ins, rest);
    assert Push(Bare(t), ins) == InsertAt(t, ins);
    assert InsertAt(t, ins) + Bare(0) == InsertAt(t, ins);
    k := TrailingRetains(InsertAt(t, ins), 0, a, priority);
  }

  lemma {:induction false} InsertAtTail(at: nat, ins: Op, n: nat)
    requires n <= at && at > 0
    ensures InsertAt(at, ins) != [] && InsertAt(at, ins)[0] == RetainOp(at)
    ensures Tail(InsertAt(at, ins), n) == InsertAt(at - n, ins)
  {
  }

  /** Where `transform` puts an insert made at the caret. It is `Moved` but for one thing: once the
      insert is out, nothing that follows in `a` can push it on any more. */
  function Landed(a: seq<Op>, at: nat, priority: bool): nat
    decreases |a|
  {
    if a == [] then at
    else if a[0].kind.Insert? then
      if priority || at > 0 then a[0].Len() + Landed(a[1..], at, priority) else 0
    else
      var m := a[0].kind.n;
      if at == 0 then 0
      else if m <= at then Kept(a, m) + Landed(a[1..], at - m, priority)
      else Kept(a, at)
  }

  /** The list `transform` pushes for an insert at a caret, from any point of the other change on. */
  lemma {:induction false} CaretList(t: nat, a: seq<Op>, at: nat, ins: Op, priority: bool) returns (k: nat)
    requires ins.kind.Insert? && ins.Len() > 0
    ensures PushAll(Bare(t), TransformList(a, InsertAt(at, ins), priority)) == InsertAt(t + Landed(a, at, priority), ins) + Bare(k)
    decreases |a|
  {
    hide PushAll, TransformList, Push, Drop, Len16, CharsFor;
    if a != [] && a[0].kind.Insert? && (priority || at > 0) {
      CaretPushed(t, a, at, ins, priority);
      k := CaretList(t + a[0].Len(), a[1..], at, ins, priority);
    } else if at == 0 {
      InsertAtStart(ins);
      k := InsertNow(t, a, ins, priority);
    } else if a == [] {
      InsertAtTail(at, ins, at);
      InsertAtStart(ins);
      CaretStride(t, a, at, at, ins, priority);
      k := InsertNow(t + at, a, ins, priority);
    } else {
      k := CaretSpan(t, a, at, ins, priority);
    }
  }

  /** Text inserted before the caret pushes it on. */
  lemma {:induction false} CaretPushed(t: nat, a: seq<Op>, at: nat, ins: Op, priority: bool)
    requires a != [] && a[0].kind.Insert? && (priority || at > 0)
    ensures PushAll(Bare(t), TransformList(a, InsertAt(at, ins), priority))
         == PushAll(Bare(t + a[0].Len()), TransformList(a[1..], InsertAt(at, ins), priority))
  {
    hide PushAll, Push;
    var n := a[0].Len();
    var rest := TransformList(a[1..], InsertAt(at, ins), priority);
    assert TransformList(a, InsertAt(at, ins), priority) == [RetainOp(n)] + rest;
    PushAllFirst(Bare(t), RetainOp(n), rest);
    PushBare([], t, n);
    assert [] + Bare(t) == Bare(t) && [] + Bare(t + n) == Bare(t + n);
  }

  /** Units of the result that the next `n` units before the caret leave. */
  function Kept(a: seq<Op>, n: nat): nat {
    if a != [] && a[0].kind.Delete? then 0 else n
  }

  /** One stride in which the caret's retain meets `a`: what is pushed is a bare retain or nothing. */
  lemma {:induction false} CaretStride(t: nat, a: seq<Op>, at: nat, n: nat, ins: Op, priority: bool)
    requires at > 0 && (a == [] || !a[0].kind.Insert?) && n == Stride(a, InsertAt(at, ins))
    ensures PushAll(Bare(t), TransformList(a, InsertAt(at, ins), priority))
         == PushAll(Bare(t + Kept(a, n)), TransformList(Tail(a, n), Tail(InsertAt(at, ins), n), priority))
  {
    hide PushAll, Push, Transformed, Len16, CharsFor;
    var b := InsertAt(at, ins);
    var rest := TransformList(Tail(a, n), Tail(b, n), priority);
    assert b[0] == RetainOp(at);
    if a != [] && a[0].kind.Delete? {
      assert TransformList(a, b, priority) == [] + rest && [] + rest == rest;
    } else {
      FormatWithNothing(Head(a, n).attributes);
      assert TransformList(a, b, priority) == [RetainOp(n)] + rest;
      PushAllFirst(Bare(t), RetainOp(n), rest);
      PushBare([], t, n);
      assert [] + Bare(t) == Bare(t) && [] + Bare(t + n) == Bare(t + n);
    }
  }

  lemma {:induction false} CaretSpan(t: nat, a: seq<Op>, at: nat, ins: Op, priority: bool) returns (k: nat)
    requires ins.kind.Insert? && ins.Len() > 0
    requires at > 0 && a != [] && !a[0].kind.Insert?
    ensures PushAll(Bare(t), TransformList(a, InsertAt(at, ins), priority)) == InsertAt(t + Landed(a, at, priority), ins) + Bare(k)
    decreases |a|, 0
  {
    hide PushAll, TransformList, InsertAt, Bare, Drop, Len16;
    var m := a[0].kind.n;
    var n := Least(m, at);
    InsertAtTail(at, ins, n);
    CaretStride(t, a, at, n, ins, priority);
    TailAt(a, n);
    if m <= at {
      k := CaretList(t + Kept(a, n), a[1..], at - m, ins, priority);
    } else {
      InsertAtStart(ins);
      k := InsertNow(t + Kept(a, n), Tail(a, n), ins, priority);
    }
  }

  lemma {:induction false} TailAt(a: seq<Op>, n: nat)
    requires a != [] && !a[0].kind.Insert? && n <= a[0].kind.n
    ensures n == a[0].kind.n ==> Tail(a, n) == a[1..]
    ensures n < a[0].kind.n ==> Tail(a, n) != [] && !Tail(a, n)[0].kind.Insert?
  {
  }

  lemma {:induction false} InsertAtStart(ins: Op)
    ensures InsertAt(0, ins) == [ins]
  {
  }

  /** Whatever the other change, an insert made at a caret is still an insert, and lands there. */
  lemma {:induction false} InsertLands(a: seq<Op>, at: nat, ins: Op, priority: bool)
    requires ins.kind.Insert? && ins.Len() > 0
    ensures Transform(a, InsertAt(at, ins), priority) == InsertAt(Landed(a, at, priority), ins)
  {
    hide PushAll, TransformList;
    var k := CaretList(0, a, at, ins, priority);
    var r := InsertAt(Landed(a, at, priority), ins);
    assert Bare(0) == [];
    assert (r + Bare(k))[..|r|] == r;
    assert r[|r| - 1] == ins;
  }

  /** Some text is inserted before the next unit that `a` keeps. */
  predicate InsertAhead(a: seq<Op>) {
    a != [] &&
    match a[0].kind
    case Insert(_) => a[0].Len() > 0 || InsertAhead(a[1..])
    case Retain(n) => n == 0 && InsertAhead(a[1..])
    case Delete(_) => InsertAhead(a[1..])
  }

  /** No text is inserted after a deletion, or after an empty retain, with nothing kept in between. */
  predicate CaretSafe(a: seq<Op>) {
    forall i | 0 <= i < |a| && (a[i].kind.Delete? || (a[i].kind.Retain? && a[i].kind.n == 0)) :: !InsertAhead(a[i + 1..])
  }

  lemma {:induction false} CaretSafeStep(a: seq<Op>)
    requires a != []
    ensures CaretSafe(a) <==>
              && CaretSafe(a[1..])
              && (a[0].kind.Delete? || (a[0].kind.Retain? && a[0].kind.n == 0) ==> !InsertAhead(a[1..]))
  {
    hide InsertAhead;
    forall i | 0 <= i < |a| - 1
      ensures a[1..][i] == a[i + 1] && a[1..][i + 1..] == a[i + 2..]
    {
    }
    if CaretSafe(a) {
      forall i | 0 <= i < |a[1..]| && (a[1..][i].kind.Delete? || (a[1..][i].kind.Retain? && a[1..][i].kind.n == 0))
        ensures !InsertAhead(a[1..][i + 1..])
      {
        assert !InsertAhead(a[i + 1 + 1..]);
      }
    }
    if CaretSafe(a[1..]) && (a[0].kind.Delete? || (a[0].kind.Retain? && a[0].kind.n == 0) ==> !InsertAhead(a[1..])) {
      forall i | 0 <= i < |a| && (a[i].kind.Delete? || (a[i].kind.Retain? && a[i].kind.n == 0))
        ensures !InsertAhead(a[i + 1..])
      {
        if i > 0 {
          assert !InsertAhead(a[1..][i - 1 + 1..]);
        }
      }
    }
  }

  /** A caret at the start that inserts push on moves exactly when there is one ahead of it. */
  lemma {:induction false} PushedOnIff(a: seq<Op>)
    ensures Moved(a, 0, false) > 0 <==> InsertAhead(a)
    ensures Moved(a, 0, true) == 0
  {
    if a != [] {
      PushedOnIff(a[1..]);
    }
  }

  /** The caret goes where its insert goes. */
  predicate SamePlace(a: seq<Op>, at: nat, priority: bool) {
    Landed(a, at, priority) == Moved(a, at, !priority)
  }

  /** When the insert gives way at ties, always. */
  lemma {:induction false} SamePlaceGivingWay(a: seq<Op>, at: nat)
    ensures SamePlace(a, at, false)
    decreases |a|
  {
    PushedOnIff(a);
    if a != [] {
      PushedOnIff(a[1..]);
      SamePlaceGivingWay(a[1..], if a[0].kind.Insert? then at else at - Least(a[0].kind.n, at));
    }
  }

  lemma {:induction false} SafeSamePlace(a: seq<Op>, at: nat)
    requires CaretSafe(a)
    ensures SamePlace(a, at, true)
    decreases |a|
  {
    hide CaretSafe, InsertAhead;
    if a != [] {
      CaretSafeStep(a);
      PushedOnIff(a[1..]);
      SafeSamePlace(a[1..], if a[0].kind.Insert? then at else at - Least(a[0].kind.n, at));
    }
  }

  /** A caret for which the two disagree, when there is one. */
  lemma {:induction false} UnsafeCaret(a: seq<Op>) returns (at: nat)
    requires !CaretSafe(a)
    ensures !SamePlace(a, at, true)
    decreases |a|
  {
    hide CaretSafe, InsertAhead;
    at := 0;
    SafeNothing();
    if a != [] {
      CaretSafeStep(a);
      PushedOnIff(a[1..]);
      if (a[0].kind.Delete? || (a[0].kind.Retain? && a[0].kind.n == 0)) && InsertAhead(a[1..]) {
        LandedAtStart(a[1..]);
      } else {
        at := UnsafeCaret(a[1..]);
        if !a[0].kind.Insert? {
          UnsafeBehind(a, at);
          at := a[0].kind.n + at;
        }
      }
    }
  }

  lemma {:induction false} SafeNothing()
    ensures CaretSafe([])
  {
  }

  /** A disagreement further on is one for a caret behind the span that comes first. */
  lemma {:induction false} UnsafeBehind(a: seq<Op>, at: nat)
    requires a != [] && !a[0].kind.Insert? && !SamePlace(a[1..], at, true)
    requires a[0].kind.Delete? || a[0].kind.n == 0 ==> !InsertAhead(a[1..])
    ensures !SamePlace(a, a[0].kind.n + at, true)
  {
    hide InsertAhead;
    PushedOnIff(a[1..]);
    LandedAtStart(a[1..]);
  }

  lemma {:induction false} LandedAtStart(a: seq<Op>)
    ensures Landed(a, 0, true) <= Moved(a, 0, false)
  {
    if a != [] {
      LandedAtStart(a[1..]);
    }
  }

  /** The caret law: for all carets, inserts and priorities. */
  ghost predicate CaretLaw(a: seq<Op>) {
    forall at: nat, ins: Op, priority: bool | ins.kind.Insert? && ins.Len() > 0 ::
      Transform(a, InsertAt(at, ins), priority) == InsertAt(Moved(a, at, !priority), ins)
  }

  /** Mapping a caret is transforming an insert made there, for every caret and whichever side wins
      ties, exactly when the change inserts nothing after a deletion or an empty retain. */
  lemma {:induction false} CaretIsInsertIff(a: seq<Op>)
    ensures CaretLaw(a) <==> CaretSafe(a)
  {
    hide Transform, Moved, Landed, CaretSafe, InsertAt;
    if CaretSafe(a) {
      forall at: nat, ins: Op, priority: bool | ins.kind.Insert? && ins.Len() > 0
        ensures Transform(a, InsertAt(at, ins), priority) == InsertAt(Moved(a, at, !priority), ins)
      {
        InsertLands(a, at, ins, priority);
        if priority {
          SafeSamePlace(a, at);
        } else {
          SamePlaceGivingWay(a, at);
        }
      }
    } else {
      var at := UnsafeCaret(a);
      var ins := Op(Insert(Embed(Null)), map[]);
      InsertLands(a, at, ins, true);
      DifferentPlace(Landed(a, at, true), Moved(a, at, !true), ins);
      assert Transform(a, InsertAt(at, ins), true) != InsertAt(Moved(a, at, !true), ins);
    }
  }

  lemma {:induction false} DifferentPlace(x: nat, y: nat, ins: Op)
    requires x != y && ins.kind.Insert?
    ensures InsertAt(x, ins) != InsertAt(y, ins)
  {
    assert InsertAt(x, ins)[0] == if x == 0 then ins else RetainOp(x);
    assert InsertAt(y, ins)[0] == if y == 0 then ins else RetainOp(y);
  }

  lemma {:induction false} CanonicalIsSafe(a: seq<Op>)
    requires Canonical(a)
    ensures CaretSafe(a)
    decreases |a|
  {
    hide InsertAhead, CaretSafe;
    if a == [] {
      SafeNothing();
    } else {
      CanonicalIsSafe(a[1..]);
      CaretSafeStep(a);
      if a[0].kind.Delete? {
        NothingAhead(a);
      }
      assert a[0].Len() > 0;
    }
  }

  lemma {:induction false} NothingAhead(a: seq<Op>)
    requires Canonical(a) && a != [] && a[0].kind.Delete?
    ensures !InsertAhead(a[1..])
  {
    if a[1..] != [] {
      assert a[1..][0] == a[1] && !Mergeable(a[0], a[1]);
      assert a[1].Len() > 0;
    }
  }

  /** For a list that `push` built, the law holds. */
  lemma {:induction false} CaretIsInsert(a: seq<Op>, at: nat, ins: Op, priority: bool)
    requires Canonical(a) && ins.kind.Insert? && ins.Len() > 0
    ensures Transform(a, InsertAt(at, ins), priority) == InsertAt(Moved(a, at, !priority), ins)
  {
    hide Transform, Moved, Canonical, CaretSafe, InsertAt;
    CanonicalIsSafe(a);
    CaretIsInsertIff(a);
  }

  /** Carets keep their order. */
  lemma {:induction false} Monotone(ops: seq<Op>, i: nat, j: nat, priority: bool)
    requires i <= j
    ensures Moved(ops, i, priority) <= Moved(ops, j, priority)
    decreases |ops|
  {
    if ops != [] {
      var n := ops[0].Len();
      match ops[0].kind
      case Delete(_) => Monotone(ops[1..], i - Least(n, i), j - Least(n, j), priority);
      case Insert(_) => Monotone(ops[1..], i, j, priority);
      case Retain(_) =>
        if n <= i {
          Monotone(ops[1..], i - n, j - n, priority);
        }
    }
  }

  /** Does unit `i` of the document survive the change? */
  predicate Survives(ops: seq<Op>, i: nat)
    decreases |ops|
  {
    ops == [] ||
    match ops[0].kind
    case Insert(_) => Survives(ops[1..], i)
    case Retain(n) => i < n || Survives(ops[1..], i - n)
    case Delete(n) => n <= i && Survives(ops[1..], i - n)
  }

  /** A caret that gives way to inserts stays in front of the same unit of the document, if
      that unit survives. */
  lemma {:induction false} FollowsUnit(ops: seq<Op>, d: seq<Cell>, i: nat)
    requires Fits(ops, d) && i < |d| && Survives(ops, i)
    ensures Moved(ops, i, false) < |Effect(d, ops)| && Effect(d, ops)[Moved(ops, i, false)].sym == d[i].sym
    decreases |ops|
  {
    hide Effect, Styled, Formatted, HeadOk, Format, Syms, Fits, Moved, Survives;
    EffectNothing(d);
    UnitStep(ops, i);
    if ops != [] {
      FitsTail(ops, d);
      EffectStep(d, ops);
      match ops[0].kind
      case Insert(p) =>
        FollowsUnit(ops[1..], d, i);
        SymsLen(ops[0]);
        AppendAt(Styled(Syms(p), ops[0].attributes), Effect(d, ops[1..]), Moved(ops[1..], i, false));
      case Retain(n) =>
        if n <= i {
          FollowsUnit(ops[1..], d[n..], i - n);
          AppendAt(Formatted(d[..n], ops[0].attributes), Effect(d[n..], ops[1..]), Moved(ops[1..], i - n, false));
        } else {
          assert Effect(d, ops)[i] == Formatted(d[..n], ops[0].attributes)[i];
        }
      case Delete(n) => FollowsUnit(ops[1..], d[n..], i - n);
    }
  }

  lemma {:induction false} UnitStep(ops: seq<Op>, i: nat)
    requires Survives(ops, i)
    ensures ops == [] ==> Moved(ops, i, false) == i
    ensures ops != [] ==>
              match ops[0].kind
              case Insert(_) => Survives(ops[1..], i) && Moved(ops, i, false) == ops[0].Len() + Moved(ops[1..], i, false)
              case Retain(n) =>
                if n <= i then Survives(ops[1..], i - n) && Moved(ops, i, false) == n + Moved(ops[1..], i - n, false)
                else Moved(ops, i, false) == i
              case Delete(n) => n <= i && Survives(ops[1..], i - n) && Moved(ops, i, false) == Moved(ops[1..], i - n, false)
  {
  }

  lemma {:induction false} AppendAt<T>(x: seq<T>, y: seq<T>, k: nat)
    requires k < |y|
    ensures |x| + k < |x + y| && (x + y)[|x| + k] == y[k]
  {
  }

  lemma {:induction false} SymsLen(op: Op)
    requires op.kind.Insert?
    ensures |Syms(op.kind.payload)| == op.Len()
  {
  }

  /** The two ways to break the law, in their smallest form: text inserted after a deletion, and
      after an empty retain. Both arrive from the wire and are passed on as they are. */
  lemma {:induction false} CaretNeedsSafe(x: Op)
    requires x.kind.Insert? && x.Len() > 0
    ensures !CaretLaw([DeleteOp(1), x]) && !CaretLaw([RetainOp(0), x])
  {
    hide CaretLaw, CaretSafe;
    var a, b := [DeleteOp(1), x], [RetainOp(0), x];
    assert a[1..] == [x] && b[1..] == [x] && InsertAhead([x]);
    CaretSafeStep(a);
    CaretSafeStep(b);
    CaretIsInsertIff(a);
    CaretIsInsertIff(b);
  }
}
