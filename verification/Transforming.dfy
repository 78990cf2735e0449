/** `transform` on op lists (crates/gal-ot/src/delta.rs:555-596), and the convergence of two
    concurrent changes. */
module Transforming {
  import opened Attributes
  import opened Deltas
  import opened Building
  import opened Algebra
  import opened Composing

  /** What is left of `y`, which spans the same `n` units as the concurrent `x`. */
  function TransformOp(x: Op, y: Op, n: nat, priority: bool): seq<Op> {
    if x.kind.Delete? then []
    else if y.kind.Delete? then [y]
    else [RetainOp(n, Transformed(x.attributes, y.attributes, priority))]
  }

  /** The ops `transform` pushes, in order. */
  function TransformList(a: seq<Op>, b: seq<Op>, priority: bool): seq<Op>
    decreases |a| + |b|
  {
    if a == [] && b == [] then []
    else if a != [] && a[0].kind.Insert? && (priority || b == [] || !b[0].kind.Insert?)
    then [RetainOp(a[0].Len())] + TransformList(a[1..], b, priority)
    else if b != [] && b[0].kind.Insert? then [b[0]] + TransformList(a, b[1..], priority)
    else
      var n := Stride(a, b);
      TransformOp(Head(a, n), Head(b, n), n, priority) + TransformList(Tail(a, n), Tail(b, n), priority)
  }

  /** `b` rewritten to apply after the concurrent `a`. */
  function Transform(a: seq<Op>, b: seq<Op>, priority: bool): seq<Op> {
    Built(TransformList(a, b, priority))
  }

  // --- runs of equal atoms ----------------------------------------------

  lemma {:induction false} RunShift(cells: seq<Cell>, a: seq<Atom>, b: seq<Atom>, priority: bool)
    requires priority || b == [] || !b[0].Ins?
    ensures TransformAtoms(Inserting(cells) + a, b, priority)
         == Rep(Ret(map[]), |cells|) + TransformAtoms(a, b, priority)
    decreases |cells|
  {
    hide Rep, Inserting;
    var rest := TransformAtoms(a, b, priority);
    InsertingHead(cells, a);
    RepHead(Ret(map[]), |cells|, rest);
    if cells != [] {
      RunShift(cells[1..], a, b, priority);
      AppendAssociative([Ret(map[])], Rep(Ret(map[]), |cells| - 1), rest);
    }
  }

  lemma {:induction false} RunSurvive(a: seq<Atom>, cells: seq<Cell>, b: seq<Atom>, priority: bool)
    requires !priority || a == [] || !a[0].Ins?
    ensures TransformAtoms(a, Inserting(cells) + b, priority) == Inserting(cells) + TransformAtoms(a, b, priority)
    decreases |cells|
  {
    hide Inserting;
    var rest := TransformAtoms(a, b, priority);
    InsertingHead(cells, b);
    InsertingHead(cells, rest);
    if cells != [] {
      RunSurvive(a, cells[1..], b, priority);
      AppendAssociative([Ins(cells[0])], Inserting(cells[1..]), rest);
    }
  }

  /** Two spans of `n` units side by side. */
  lemma {:induction false} RunPair(x: Atom, y: Atom, n: nat, a: seq<Atom>, b: seq<Atom>, priority: bool)
    requires !x.Ins? && !y.Ins?
    ensures TransformAtoms(Rep(x, n) + a, Rep(y, n) + b, priority)
         == (if x.Del? then [] else Rep(TransformPair(x, y, priority)[0], n)) + TransformAtoms(a, b, priority)
    decreases n
  {
    hide Rep, Transformed;
    var rest := TransformAtoms(a, b, priority);
    RepHead(x, n, a);
    RepHead(y, n, b);
    assert [] + rest == rest;
    if x.Ret? {
      var z := TransformPair(x, y, priority)[0];
      RepHead(z, n, rest);
      if n > 0 {
        RunPair(x, y, n - 1, a, b, priority);
        AppendAssociative([z], Rep(z, n - 1), rest);
      }
    } else if n > 0 {
      RunPair(x, y, n - 1, a, b, priority);
    }
  }

  /** The first list goes on alone. */
  lemma {:induction false} RunAlone(x: Atom, n: nat, a: seq<Atom>, priority: bool)
    requires !x.Ins?
    ensures TransformAtoms(Rep(x, n) + a, [], priority)
         == (if x.Del? then [] else Rep(Ret(map[]), n)) + TransformAtoms(a, [], priority)
    decreases n
  {
    hide Rep, Transformed;
    var rest, z := TransformAtoms(a, [], priority), Ret(map[]);
    RepHead(x, n, a);
    RepHead(z, n, rest);
    assert [] + rest == rest;
    if n > 0 {
      RunAlone(x, n - 1, a, priority);
      if x.Ret? {
        FormatWithNothing(x.attributes);
        AppendAssociative([z], Rep(z, n - 1), rest);
      }
    }
  }

  // --- the pushed list, unit by unit ------------------------------------

  lemma {:induction false} FlatHead(ops: seq<Op>)
    requires NoEmptyOp(ops) && ops != []
    ensures Flat(ops) != [] && (Flat(ops)[0].Ins? <==> ops[0].kind.Insert?)
  {
    assert Flat(ops)[0] == Atoms(ops[0])[0];
  }

  /** A stride through two ops that are not inserts cuts both. */
  lemma {:induction false} SpansCuttable(a: seq<Op>, b: seq<Op>)
    requires a != [] || b != []
    requires a == [] || !a[0].kind.Insert?
    requires b == [] || !b[0].kind.Insert?
    ensures Cuttable(a, Stride(a, b)) && Cuttable(b, Stride(a, b))
  {
  }

  lemma {:induction false} TransformListMeans(a: seq<Op>, b: seq<Op>, priority: bool)
    requires NoEmptyOp(a) && NoEmptyOp(b)
    ensures Flat(TransformList(a, b, priority)) == TransformAtoms(Flat(a), Flat(b), priority)
    decreases |a| + |b|
  {
    if a != [] {
      FlatHead(a);
    }
    if b != [] {
      FlatHead(b);
    }
    if a == [] && b == [] {
    } else if a != [] && a[0].kind.Insert? && (priority || b == [] || !b[0].kind.Insert?) {
      TransformListMeans(a[1..], b, priority);
      RunShift(Styled(Syms(a[0].kind.payload), a[0].attributes), Flat(a[1..]), Flat(b), priority);
      FlatPrepend(RetainOp(a[0].Len()), TransformList(a[1..], b, priority));
    } else if b != [] && b[0].kind.Insert? {
      TransformListMeans(a, b[1..], priority);
      RunSurvive(Flat(a), Styled(Syms(b[0].kind.payload), b[0].attributes), Flat(b[1..]), priority);
      FlatPrepend(b[0], TransformList(a, b[1..], priority));
    } else {
      var n := Stride(a, b);
      SpansCuttable(a, b);
      TailNoEmpty(a, n);
      TailNoEmpty(b, n);
      TransformListMeans(Tail(a, n), Tail(b, n), priority);
      TransformStep(a, b, priority);
    }
  }

  lemma {:induction false} FlatPrepend(op: Op, rest: seq<Op>)
    ensures Flat([op] + rest) == Atoms(op) + Flat(rest)
  {
    assert ([op] + rest)[1..] == rest;
  }

  lemma {:induction false} TransformStep(a: seq<Op>, b: seq<Op>, priority: bool)
    requires a != [] || b != []
    requires a == [] || !a[0].kind.Insert?
    requires b == [] || !b[0].kind.Insert?
    requires Cuttable(a, Stride(a, b)) && Cuttable(b, Stride(a, b))
    requires var n := Stride(a, b);
             Flat(TransformList(Tail(a, n), Tail(b, n), priority)) == TransformAtoms(Flat(Tail(a, n)), Flat(Tail(b, n)), priority)
    ensures Flat(TransformList(a, b, priority)) == TransformAtoms(Flat(a), Flat(b), priority)
  {
    var n := Stride(a, b);
    var x, y := Head(a, n), Head(b, n);
    var ta, tb := Flat(Tail(a, n)), Flat(Tail(b, n));
    var rest := TransformList(Tail(a, n), Tail(b, n), priority);
    var out := TransformOp(x, y, n, priority);
    if a != [] {
      CutFlat(a, n);
    }
    if b != [] {
      CutFlat(b, n);
    }
    FlatAppend(out, rest);
    if out != [] {
      FlatOne(out[0]);
    }
    var u := if x.kind.Delete? then Del else Ret(x.attributes);
    var v := if y.kind.Delete? then Del else Ret(y.attributes);
    if a == [] {
      FormatWithNothing(y.attributes);
      assert tb == TransformAtoms([], tb, priority);
    } else if b == [] {
      RunAlone(u, n, ta, priority);
      FormatWithNothing(x.attributes);
    } else {
      RunPair(u, v, n, ta, tb, priority);
    }
  }

  // --- fitting ----------------------------------------------------------

  /** Two changes written against the same document. */
  predicate Concurrent(d: seq<Cell>, a: seq<Op>, b: seq<Op>) {
    Fits(a, d) && Fits(b, d)
  }

  /** The transformed change fits the document the other one made. */
  lemma {:induction false} TransformListFits(d: seq<Cell>, a: seq<Op>, b: seq<Op>, priority: bool)
    requires Concurrent(d, a, b)
    ensures Fits(TransformList(a, b, priority), Effect(d, a))
    decreases |a| + |b|
  {
    hide Effect, HeadOk, TransformOp, Take, Drop;
    var e := Effect(d, a);
    EffectHeadOk(d, a);
    if a == [] && b == [] {
    } else if a != [] && a[0].kind.Insert? && (priority || b == [] || !b[0].kind.Insert?) {
      TransformListFits(d, a[1..], b, priority);
      EffectStep(d, a);
      var rest := TransformList(a[1..], b, priority);
      assert e[a[0].Len()..] == Effect(d, a[1..]);
      assert ([RetainOp(a[0].Len())] + rest)[1..] == rest;
    } else if b != [] && b[0].kind.Insert? {
      TransformListFits(d, a, b[1..], priority);
      var rest := TransformList(a, b[1..], priority);
      assert ([b[0]] + rest)[1..] == rest;
    } else {
      var n := Stride(a, b);
      StrideConcurrent(d, a, b);
      TransformListFits(d[n..], Tail(a, n), Tail(b, n), priority);
      StrideEffect(d, a, n);
      HeadSpan(a, n);
      HeadSpan(b, n);
      TransformOpFits(Head(a, n), Head(b, n), n, priority, TransformList(Tail(a, n), Tail(b, n), priority), e);
    }
  }

  lemma {:induction false} HeadSpan(ops: seq<Op>, n: nat)
    requires ops == [] || (!ops[0].kind.Insert? && n <= ops[0].Len())
    ensures !Head(ops, n).kind.Insert? && Head(ops, n).Len() == n
    ensures Head(ops, n).kind.Delete? <==> ops != [] && ops[0].kind.Delete?
  {
  }

  /** The place where a stride ends is a boundary of one of the two changes. */
  lemma {:induction false} StrideConcurrent(d: seq<Cell>, a: seq<Op>, b: seq<Op>)
    requires Concurrent(d, a, b)
    requires a != [] || b != []
    requires a == [] || !a[0].kind.Insert?
    requires b == [] || !b[0].kind.Insert?
    ensures Stride(a, b) <= |d| && Concurrent(d[Stride(a, b)..], Tail(a, Stride(a, b)), Tail(b, Stride(a, b)))
  {
    var n := Stride(a, b);
    if a != [] && n == a[0].Len() {
      assert Fits(a[1..], d[n..]);
    } else {
      assert Fits(b[1..], d[n..]);
    }
    if a != [] {
      CutFits(a, n, d);
    }
    if b != [] {
      CutFits(b, n, d);
    }
  }

  /** What the first `n` units of `a` leave of the document. */
  lemma {:induction false} StrideEffect(d: seq<Cell>, a: seq<Op>, n: nat)
    requires n <= |d|
    requires a == [] || (!a[0].kind.Insert? && n <= a[0].Len())
    ensures if a != [] && a[0].kind.Delete? then Effect(d, a) == Effect(d[n..], Tail(a, n))
            else n <= |Effect(d, a)| && Effect(d, a)[n..] == Effect(d[n..], Tail(a, n))
  {
    hide Effect, Tail, Take;
    HeadEffect(d, a, n);
    HeadSpan(a, n);
  }

  lemma {:induction false} TransformOpFits(x: Op, y: Op, n: nat, priority: bool, rest: seq<Op>, e: seq<Cell>)
    requires !x.kind.Insert? && !y.kind.Insert? && y.Len() == n
    requires HeadOk(e)
    requires if x.kind.Delete? then Fits(rest, e) else n <= |e| && Fits(rest, e[n..])
    ensures Fits(TransformOp(x, y, n, priority) + rest, e)
  {
    var out := TransformOp(x, y, n, priority);
    if out == [] {
      assert out + rest == rest;
    } else {
      assert (out + rest)[1..] == rest;
    }
  }

  /** Transforming a change makes it valid for what `a` made of the document, and it does there
      what the unit-by-unit transformation does. */
  lemma {:induction false} TransformMeans(d: seq<Cell>, a: seq<Op>, b: seq<Op>, priority: bool)
    requires Concurrent(d, a, b)
    ensures Fits(Transform(a, b, priority), Effect(d, a))
    ensures Canonical(Transform(a, b, priority))
    ensures NoEmptyOp(a) && NoEmptyOp(b) ==>
              Effect(Effect(d, a), Transform(a, b, priority)) == Apply(Effect(d, a), TransformAtoms(Flat(a), Flat(b), priority))
  {
    hide Effect, Fits, TransformAtoms;
    TransformListFits(d, a, b, priority);
    BuiltKeeps(TransformList(a, b, priority), Effect(d, a));
    BuiltCanonical(TransformList(a, b, priority));
    if NoEmptyOp(a) && NoEmptyOp(b) {
      TransformListMeans(a, b, priority);
      EffectFlat(Effect(d, a), TransformList(a, b, priority));
    }
  }

  lemma {:induction false} EffectFlat(d: seq<Cell>, ops: seq<Op>)
    ensures Effect(d, ops) == Apply(d, Flat(ops))
  {
  }

  // --- the two orders meet ----------------------------------------------

  /** `a` then `b` transformed over it, as far as the lists that `transform` pushes go. */
  function After(d: seq<Cell>, a: seq<Op>, b: seq<Op>, priority: bool): seq<Cell> {
    Effect(Effect(d, a), TransformList(a, b, priority))
  }

  lemma {:induction false} EffectInsert(d: seq<Cell>, op: Op, rest: seq<Op>)
    requires op.kind.Insert?
    ensures Effect(d, [op] + rest) == Styled(Syms(op.kind.payload), op.attributes) + Effect(d, rest)
  {
    assert ([op] + rest)[1..] == rest;
    EffectStep(d, [op] + rest);
  }

  lemma {:induction false} EffectSpan(c: seq<Cell>, d: seq<Cell>, op: Op, rest: seq<Op>)
    requires !op.kind.Insert? && op.kind.n == |c|
    ensures Effect(c + d, [op] + rest) == Left(c, op) + Effect(d, rest)
  {
    hide Apply;
    assert ([op] + rest)[1..] == rest;
    assert (c + d)[..|c|] == c && (c + d)[|c|..] == d;
    EffectStep(c + d, [op] + rest);
    assert [] + Effect(d, rest) == Effect(d, rest);
  }

  /** The insert that wins the tie comes out first on both sides. */
  lemma {:induction false} AfterInsert(d: seq<Cell>, a: seq<Op>, b: seq<Op>, priority: bool)
    requires a != [] && a[0].kind.Insert? && (priority || b == [] || !b[0].kind.Insert?)
    ensures var cells := Styled(Syms(a[0].kind.payload), a[0].attributes);
            && After(d, a, b, priority) == cells + After(d, a[1..], b, priority)
            && After(d, b, a, !priority) == cells + After(d, b, a[1..], !priority)
  {
    hide Effect, Styled, TextSyms, Formatted;
    var cells := Styled(Syms(a[0].kind.payload), a[0].attributes);
    assert a == [a[0]] + a[1..];
    EffectInsert(d, a[0], a[1..]);
    EffectSpan(cells, Effect(d, a[1..]), RetainOp(a[0].Len()), TransformList(a[1..], b, priority));
    FormattedBare(cells);
    EffectInsert(Effect(d, b), a[0], TransformList(b, a[1..], !priority));
  }

  /** What `x`, and then `y` transformed over it, leave of the units both span. */
  function BothLeft(d: seq<Cell>, x: Op, y: Op, priority: bool): seq<Cell> {
    if x.kind.Delete? || y.kind.Delete? then []
    else Formatted(Formatted(d, x.attributes), Transformed(x.attributes, y.attributes, priority))
  }

  /** One side of a stride: `x` acts on the next units, then what is left of `y`. */
  lemma {:induction false} AfterStride(d: seq<Cell>, a: seq<Op>, b: seq<Op>, n: nat, priority: bool)
    requires a != [] || b != []
    requires a == [] || !a[0].kind.Insert?
    requires b == [] || !b[0].kind.Insert?
    requires n == Stride(a, b) && n <= |d| && (a == [] || n <= a[0].Len()) && (b == [] || n <= b[0].Len())
    ensures After(d, a, b, priority)
         == BothLeft(d[..n], Head(a, n), Head(b, n), priority) + After(d[n..], Tail(a, n), Tail(b, n), priority)
  {
    hide Effect, Formatted, Tail, Take, Transformed;
    var x, y := Head(a, n), Head(b, n);
    HeadSpan(a, n);
    HeadSpan(b, n);
    HeadEffect(d, a, n);
    var rest := TransformList(Tail(a, n), Tail(b, n), priority);
    var later := Effect(d[n..], Tail(a, n));
    var out := TransformOp(x, y, n, priority);
    assert TransformList(a, b, priority) == out + rest;
    if x.kind.Delete? {
      assert [] + later == later && out + rest == rest;
      assert [] + Effect(later, rest) == Effect(later, rest);
    } else {
      EffectSpan(Formatted(d[..n], x.attributes), later, out[0], rest);
      assert out == [out[0]];
    }
  }

  lemma {:induction false} FormattedTogether(d: seq<Cell>, a: Attrs, b: Attrs)
    ensures Formatted(Formatted(d, a), Transformed(a, b, true)) == Formatted(Formatted(d, b), a)
    ensures Formatted(Formatted(d, b), Transformed(b, a, false)) == Formatted(Formatted(d, b), a)
  {
    hide Format, Transformed;
    forall i | 0 <= i < |d|
      ensures Formatted(Formatted(d, a), Transformed(a, b, true))[i] == Formatted(Formatted(d, b), a)[i]
      ensures Formatted(Formatted(d, b), Transformed(b, a, false))[i] == Formatted(Formatted(d, b), a)[i]
    {
      PriorityActsLast(d[i].attributes, a, b);
    }
  }

  /** What two changes make of `d` together, `a` having priority, with nothing transformed: of two
      inserts at one place `a`'s comes first, a unit that either deletes is gone, and a unit that both
      keep is formatted by `b` and then, on top of that, by `a`. */
  function Together(d: seq<Cell>, a: seq<Op>, b: seq<Op>): seq<Cell>
    requires Concurrent(d, a, b)
    decreases |a| + |b|
  {
    if a == [] && b == [] then d
    else if a != [] && a[0].kind.Insert? then
      Styled(Syms(a[0].kind.payload), a[0].attributes) + Together(d, a[1..], b)
    else if b != [] && b[0].kind.Insert? then
      Styled(Syms(b[0].kind.payload), b[0].attributes) + Together(d, a, b[1..])
    else
      var n := Stride(a, b);
      StrideConcurrent(d, a, b);
      (if Head(a, n).kind.Delete? || Head(b, n).kind.Delete? then []
       else Formatted(Formatted(d[..n], Head(b, n).attributes), Head(a, n).attributes))
      + Together(d[n..], Tail(a, n), Tail(b, n))
  }

  lemma {:induction false} ListsConverge(d: seq<Cell>, a: seq<Op>, b: seq<Op>)
    requires Concurrent(d, a, b)
    ensures After(d, a, b, true) == Together(d, a, b) && After(d, b, a, false) == Together(d, a, b)
    decreases |a| + |b|
  {
    hide Effect, After, Formatted, Take, Drop, Head, HeadOk, Transformed;
    if a == [] && b == [] {
      AfterNothing(d);
    } else if a != [] && a[0].kind.Insert? {
      ListsConverge(d, a[1..], b);
      AfterInsert(d, a, b, true);
    } else if b != [] && b[0].kind.Insert? {
      ListsConverge(d, a, b[1..]);
      AfterInsert(d, b, a, false);
    } else {
      var n := Stride(a, b);
      SpansCuttable(a, b);
      StrideConcurrent(d, a, b);
      ListsConverge(d[n..], Tail(a, n), Tail(b, n));
      AfterStride(d, a, b, n, true);
      AfterStride(d, b, a, n, false);
      FormattedTogether(d[..n], Head(a, n).attributes, Head(b, n).attributes);
    }
  }

  lemma {:induction false} AfterNothing(d: seq<Cell>)
    ensures After(d, [], [], true) == After(d, [], [], false) == d
  {
    EffectNothing(d);
  }

  /** Both orders give what the two changes make of the document together. */
  lemma {:induction false} PriorityWins(d: seq<Cell>, a: seq<Op>, b: seq<Op>)
    requires Concurrent(d, a, b)
    ensures Effect(Effect(d, a), Transform(a, b, true)) == Together(d, a, b)
    ensures Effect(Effect(d, b), Transform(b, a, false)) == Together(d, a, b)
  {
    hide Effect, Fits, Built, TransformList, Together;
    TransformListFits(d, a, b, true);
    TransformListFits(d, b, a, false);
    BuiltKeeps(TransformList(a, b, true), Effect(d, a));
    BuiltKeeps(TransformList(b, a, false), Effect(d, b));
    ListsConverge(d, a, b);
  }

  /** The transformation property on content, for every document and every two valid changes. */
  lemma {:induction false} Converge(d: seq<Cell>, a: seq<Op>, b: seq<Op>)
    requires Concurrent(d, a, b)
    ensures Fits(Transform(a, b, true), Effect(d, a)) && Fits(Transform(b, a, false), Effect(d, b))
    ensures Effect(Effect(d, a), Transform(a, b, true)) == Effect(Effect(d, b), Transform(b, a, false))
  {
    hide Effect, Fits, Built, TransformList;
    TransformListFits(d, a, b, true);
    TransformListFits(d, b, a, false);
    BuiltKeeps(TransformList(a, b, true), Effect(d, a));
    BuiltKeeps(TransformList(b, a, false), Effect(d, b));
    PriorityWins(d, a, b);
  }
}
