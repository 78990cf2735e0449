/** `compose` on op lists (crates/gal-ot/src/delta.rs:503-553), and what it means. */
module Composing {
  import opened Utf16
  import opened Attributes
  import opened Deltas
  import opened Building
  import opened Algebra

  /** How far both lists can go together; an exhausted list never limits the other. */
  function Stride(a: seq<Op>, b: seq<Op>): nat
    requires a != [] || b != []
  {
    if a == [] then b[0].Len()
    else if b == [] then a[0].Len()
    else if a[0].Len() <= b[0].Len() then a[0].Len() else b[0].Len()
  }

  /** The op `b` makes of an op of `a` that spans the same `n` units, if any is left. */
  function ComposeOp(x: Op, y: Op, n: nat): seq<Op>
  {
    if y.kind.Retain? then
      [Op(if x.kind.Insert? then x.kind else Retain(n), Composed(x.attributes, y.attributes, x.kind.Retain?))]
    else if y.kind.Delete? && x.kind.Retain? then [y]
    else []
  }

  /** The ops `compose` pushes, in order. */
  function ComposeList(a: seq<Op>, b: seq<Op>): seq<Op>
    decreases |a| + |b|
  {
    if a == [] && b == [] then []
    else if b != [] && b[0].kind.Insert? then [b[0]] + ComposeList(a, b[1..])
    else if a != [] && a[0].kind.Delete? then [Take(a[0], a[0].Len())] + ComposeList(a[1..], b)
    else
      var n := Stride(a, b);
      ComposeOp(Head(a, n), Head(b, n), n) + ComposeList(Tail(a, n), Tail(b, n))
  }

  /** One change with the effect of `a` and then `b`; also the document `a` with `b` applied. */
  function Compose(a: seq<Op>, b: seq<Op>): seq<Op> {
    Built(ComposeList(a, b))
  }

  // --- runs of equal atoms ----------------------------------------------

  lemma {:induction false} RunInsertB(a: seq<Atom>, cells: seq<Cell>, b: seq<Atom>)
    ensures ComposeAtoms(a, Inserting(cells) + b) == Inserting(cells) + ComposeAtoms(a, b)
    decreases |cells|
  {
    hide Inserting;
    InsertingHead(cells, b);
    InsertingHead(cells, ComposeAtoms(a, b));
    if cells != [] {
      RunInsertB(a, cells[1..], b);
      AppendAssociative([Ins(cells[0])], Inserting(cells[1..]), ComposeAtoms(a, b));
    }
  }

  lemma {:induction false} RunDeleteA(n: nat, a: seq<Atom>, b: seq<Atom>)
    requires b == [] || !b[0].Ins?
    ensures ComposeAtoms(Rep(Del, n) + a, b) == Rep(Del, n) + ComposeAtoms(a, b)
    decreases n
  {
    hide Rep;
    RepHead(Del, n, a);
    RepHead(Del, n, ComposeAtoms(a, b));
    if n > 0 {
      RunDeleteA(n - 1, a, b);
      AppendAssociative([Del], Rep(Del, n - 1), ComposeAtoms(a, b));
    }
  }

  lemma {:induction false} RunInsertRetain(cells: seq<Cell>, a: seq<Atom>, m: Attrs, b: seq<Atom>)
    ensures ComposeAtoms(Inserting(cells) + a, Rep(Ret(m), |cells|) + b)
         == Inserting(Formatted(cells, m)) + ComposeAtoms(a, b)
    decreases |cells|
  {
    hide Rep, Inserting, Formatted, Composed;
    InsertingHead(cells, a);
    RepHead(Ret(m), |cells|, b);
    InsertingHead(Formatted(cells, m), ComposeAtoms(a, b));
    if cells != [] {
      RunInsertRetain(cells[1..], a, m, b);
      FormattedHead(cells, m);
      var first := Cell(cells[0].sym, Format(cells[0].attributes, m));
      assert Formatted(cells, m)[0] == first && Formatted(cells, m)[1..] == Formatted(cells[1..], m);
      AppendAssociative([Ins(first)], Inserting(Formatted(cells[1..], m)), ComposeAtoms(a, b));
    }
  }

  lemma {:induction false} RunInsertDelete(cells: seq<Cell>, a: seq<Atom>, b: seq<Atom>)
    ensures ComposeAtoms(Inserting(cells) + a, Rep(Del, |cells|) + b) == ComposeAtoms(a, b)
    decreases |cells|
  {
    hide Rep, Inserting;
    InsertingHead(cells, a);
    RepHead(Del, |cells|, b);
    if cells != [] {
      RunInsertDelete(cells[1..], a, b);
      assert [] + ComposeAtoms(a, b) == ComposeAtoms(a, b);
    }
  }

  lemma {:induction false} RunRetainRetain(m: Attrs, k: Attrs, n: nat, a: seq<Atom>, b: seq<Atom>)
    ensures ComposeAtoms(Rep(Ret(m), n) + a, Rep(Ret(k), n) + b)
         == Rep(Ret(Composed(m, k, true)), n) + ComposeAtoms(a, b)
    decreases n
  {
    hide Rep, Composed;
    var r := Ret(Composed(m, k, true));
    RepHead(Ret(m), n, a);
    RepHead(Ret(k), n, b);
    RepHead(r, n, ComposeAtoms(a, b));
    if n > 0 {
      RunRetainRetain(m, k, n - 1, a, b);
      AppendAssociative([r], Rep(r, n - 1), ComposeAtoms(a, b));
    }
  }

  lemma {:induction false} RunRetainDelete(m: Attrs, n: nat, a: seq<Atom>, b: seq<Atom>)
    ensures ComposeAtoms(Rep(Ret(m), n) + a, Rep(Del, n) + b) == Rep(Del, n) + ComposeAtoms(a, b)
    decreases n
  {
    hide Rep;
    RepHead(Ret(m), n, a);
    RepHead(Del, n, b);
    RepHead(Del, n, ComposeAtoms(a, b));
    if n > 0 {
      RunRetainDelete(m, n - 1, a, b);
      AppendAssociative([Del], Rep(Del, n - 1), ComposeAtoms(a, b));
    }
  }

  // --- cutting lists ----------------------------------------------------

  /** The next `n` units of `ops` can be cut off without splitting a character. */
  predicate Cuttable(ops: seq<Op>, n: nat) {
    ops != [] ==>
      && n <= ops[0].Len()
      && (ops[0].IsText() ==> OnBoundary(ops[0].kind.payload.s, n))
      && (ops[0].kind.Insert? && ops[0].kind.payload.Embed? ==> n == 1)
  }

  lemma {:induction false} CutFlat(ops: seq<Op>, n: nat)
    requires ops != [] && Cuttable(ops, n)
    ensures Head(ops, n).Len() == n
    ensures Flat(ops) == Atoms(Head(ops, n)) + Flat(Tail(ops, n))
  {
    hide Inserting, Styled, Rep, TextSyms, OnBoundary, CharsFor, Len16;
    CutAtoms(ops[0], n);
    var h := Atoms(ops[0]);
    assert h == h[..n] + h[n..];
    if n == ops[0].Len() {
      assert h[..n] == h;
    } else {
      var t := Tail(ops, n);
      assert t[0] == Drop(ops[0], n) && t[1..] == ops[1..];
      assert Flat(t) == h[n..] + Flat(ops[1..]);
      AppendAssociative(h[..n], h[n..], Flat(ops[1..]));
    }
  }

  /** What a retain or delete leaves of the units it spans. */
  function Left(d: seq<Cell>, op: Op): seq<Cell> {
    if op.kind.Delete? then [] else Formatted(d, op.attributes)
  }

  /** The effect of a list that starts with a retain or delete, or is exhausted, read off the
      first `n` units of it. */
  lemma {:induction false} HeadEffect(d: seq<Cell>, ops: seq<Op>, n: nat)
    requires n <= |d|
    requires ops == [] || (!ops[0].kind.Insert? && n <= ops[0].Len())
    ensures Effect(d, ops) == Left(d[..n], Head(ops, n)) + Effect(d[n..], Tail(ops, n))
  {
    hide Apply, Formatted, Inserting;
    if ops == [] {
      EffectNothing(d);
      EffectNothing(d[n..]);
      FormattedBare(d[..n]);
      assert d == d[..n] + d[n..];
    } else {
      CutFlat(ops, n);
      if ops[0].kind.Delete? {
        ApplyDeleting(d, n, Flat(Tail(ops, n)));
        assert [] + Effect(d[n..], Tail(ops, n)) == Effect(d[n..], Tail(ops, n));
      } else {
        ApplyRetaining(d, ops[0].attributes, n, Flat(Tail(ops, n)));
      }
    }
  }

  /** What is left of a fitting list after a cut inside its first retain or delete fits the
      rest of the document. */
  lemma {:induction false} CutFits(ops: seq<Op>, n: nat, d: seq<Cell>)
    requires ops != [] && !ops[0].kind.Insert? && n <= ops[0].Len()
    requires Fits(ops, d)
    requires n < ops[0].Len() ==> HeadOk(d[n..])
    ensures n <= |d| && Fits(Tail(ops, n), d[n..])
  {
    if n < ops[0].Len() {
      var t := Tail(ops, n);
      assert t[1..] == ops[1..];
      assert d[n..][t[0].kind.n..] == d[ops[0].kind.n..];
    }
  }

  lemma {:induction false} CutInsertFits(ops: seq<Op>, n: nat, d: seq<Cell>)
    requires ops != [] && ops[0].kind.Insert? && n <= ops[0].Len()
    requires Fits(ops, d)
    ensures Fits(Tail(ops, n), d)
  {
    if n < ops[0].Len() {
      assert Tail(ops, n)[1..] == ops[1..];
    }
  }

  lemma {:induction false} TailNoEmpty(ops: seq<Op>, n: nat)
    requires ops == [] || Cuttable(ops, n)
    requires NoEmptyOp(ops)
    ensures NoEmptyOp(Tail(ops, n))
  {
    if ops != [] && n < ops[0].Len() {
      CutAtoms(ops[0], n);
    }
  }

  // --- composing is applying twice --------------------------------------

  /** A list that is exhausted lets the other one through. */
  lemma {:induction false} ComposeAfterNothing(ops: seq<Op>)
    ensures Flat(ComposeList([], ops)) == Flat(ops)
  {
    if ops != [] {
      ComposeAfterNothing(ops[1..]);
      var op := ops[0];
      FormatWithNothing(op.attributes);
      var rest := ComposeList([], ops[1..]);
      var first := ComposeList([], ops)[0];
      assert ComposeList([], ops) == [first] + rest;
      assert ([first] + rest)[1..] == rest;
      assert Atoms(first) == Atoms(op);
    }
  }

  lemma {:induction false} ComposeWithNothing(ops: seq<Op>)
    ensures Flat(ComposeList(ops, [])) == Flat(ops)
  {
    if ops != [] {
      ComposeWithNothing(ops[1..]);
      var op := ops[0];
      FormatWithNothing(op.attributes);
      if op.IsText() {
        var s := op.kind.payload.s;
        CharsForAll(s, op.Len());
        assert s[..|s|] == s;
      }
      var rest := ComposeList(ops[1..], []);
      var first := ComposeList(ops, [])[0];
      assert ComposeList(ops, []) == [first] + rest;
      assert ([first] + rest)[1..] == rest;
      assert Atoms(first) == Atoms(op);
    }
  }

  /** `a` fits `d` and `b` fits what `a` makes of it. */
  predicate InSequence(d: seq<Cell>, a: seq<Op>, b: seq<Op>) {
    Fits(a, d) && Fits(b, Effect(d, a))
  }

  /** An empty retain or delete stands before an embed: the one cut that does not cut. */
  predicate EmptyAtEmbed(a: seq<Op>, b: seq<Op>) {
    a != [] && b != [] && a[0].kind.Insert? && a[0].kind.payload.Embed? && b[0].Len() == 0
  }

  /** The stride never splits a character, so both lists can be cut there. */
  lemma {:induction false} StrideCuttable(d: seq<Cell>, a: seq<Op>, b: seq<Op>)
    requires InSequence(d, a, b) && !EmptyAtEmbed(a, b)
    requires a != [] && b != [] && !b[0].kind.Insert? && !a[0].kind.Delete?
    ensures Cuttable(a, Stride(a, b)) && Cuttable(b, Stride(a, b))
    ensures Stride(a, b) < |Effect(d, a)| ==> HeadOk(Effect(d, a)[Stride(a, b)..])
  {
    var n := Stride(a, b);
    var e := Effect(d, a);
    EffectStep(d, a);
    if n == b[0].Len() {
      assert Fits(b[1..], e[n..]);
      if a[0].IsText() {
        var s := a[0].kind.payload.s;
        assert forall i | 0 <= i < Len16(s) :: e[i] == Styled(TextSyms(s), a[0].attributes)[i];
        if n < Len16(s) {
          assert e[n..][0] == e[n];
        }
        UnitBoundary(s, n);
      }
    } else {
      if a[0].IsText() {
        UnitBoundary(a[0].kind.payload.s, n);
      }
      StrideEndsA(d, a, n);
    }
  }

  /** Where an op of `a` ends, no character of the result is split. */
  lemma {:induction false} StrideEndsA(d: seq<Cell>, a: seq<Op>, n: nat)
    requires Fits(a, d) && a != [] && !a[0].kind.Delete? && n == a[0].Len()
    ensures n <= |Effect(d, a)| && HeadOk(Effect(d, a)[n..])
  {
    EffectStep(d, a);
    if a[0].kind.Insert? {
      EffectHeadOk(d, a[1..]);
      assert Effect(d, a)[n..] == Effect(d, a[1..]);
    } else {
      EffectHeadOk(d[n..], a[1..]);
      assert Effect(d, a)[n..] == Effect(d[n..], a[1..]);
    }
  }

  /** A fitting change never leaves half a character at the front. */
  lemma {:induction false} EffectHeadOk(d: seq<Cell>, ops: seq<Op>)
    requires Fits(ops, d)
    ensures HeadOk(Effect(d, ops))
    decreases |ops|
  {
    if ops != [] {
      EffectStep(d, ops);
      match ops[0].kind
      case Insert(p) =>
        EffectHeadOk(d, ops[1..]);
        if Syms(p) != [] {
          assert Effect(d, ops)[0] == Styled(Syms(p), ops[0].attributes)[0];
        } else {
          assert Effect(d, ops) == Effect(d, ops[1..]);
        }
      case Retain(n) =>
        EffectHeadOk(d[n..], ops[1..]);
        if n == 0 {
          assert Effect(d, ops) == Effect(d[n..], ops[1..]);
        } else {
          assert Effect(d, ops)[0] == Formatted(d[..n], ops[0].attributes)[0];
        }
      case Delete(n) => EffectHeadOk(d[n..], ops[1..]);
    }
  }

  /** Cutting both lists at the stride leaves two lists that are again in sequence. */
  lemma {:induction false} StrideInSequence(d: seq<Cell>, a: seq<Op>, b: seq<Op>)
    requires InSequence(d, a, b) && !EmptyAtEmbed(a, b)
    requires a != [] && b != [] && !b[0].kind.Insert? && !a[0].kind.Delete?
    ensures Cuttable(a, Stride(a, b)) && Cuttable(b, Stride(a, b))
    ensures var n := Stride(a, b);
            if a[0].kind.Insert? then InSequence(d, Tail(a, n), Tail(b, n))
            else n <= |d| && HeadOk(d[n..]) && InSequence(d[n..], Tail(a, n), Tail(b, n))
  {
    StrideCuttable(d, a, b);
    var n := Stride(a, b);
    var e := Effect(d, a);
    CutFlat(a, n);
    if a[0].kind.Insert? {
      CutInsertFits(a, n, d);
      var cells := Styled(Syms(Head(a, n).kind.payload), a[0].attributes);
      ApplyInserting(d, cells, Flat(Tail(a, n)));
      assert e[n..] == Effect(d, Tail(a, n));
    } else {
      ApplyRetaining(d, a[0].attributes, n, Flat(Tail(a, n)));
      assert e == Formatted(d[..n], a[0].attributes) + Effect(d[n..], Tail(a, n));
      assert e[n..] == Effect(d[n..], Tail(a, n));
      if n < a[0].Len() {
        EffectStep(d, a);
        assert e[n..][0] == e[n] == Formatted(d[..a[0].kind.n], a[0].attributes)[n];
        assert d[n..][0] == d[n];
      }
      CutFits(a, n, d);
    }
    CutFits(b, n, e);
  }

  /** An empty op before an embed is used up, and the embed stays where it is. */
  lemma {:induction false} EmptyStride(d: seq<Cell>, a: seq<Op>, b: seq<Op>)
    requires InSequence(d, a, b) && EmptyAtEmbed(a, b) && !b[0].kind.Insert?
    ensures Stride(a, b) == 0 && Tail(a, 0) == a && Tail(b, 0) == b[1..]
    ensures Head(a, 0) == a[0] && Head(b, 0).Len() == 0 && !Head(b, 0).kind.Insert?
    ensures InSequence(d, a, b[1..])
  {
    assert Effect(d, a)[0..] == Effect(d, a);
    assert a == [a[0]] + a[1..];
  }

  /** Whatever `compose` pushes fits the document the first change was written for. */
  lemma {:induction false} ComposeListFits(d: seq<Cell>, a: seq<Op>, b: seq<Op>)
    requires InSequence(d, a, b)
    ensures Fits(ComposeList(a, b), d)
    decreases |a| + |b|
  {
    hide Effect, HeadOk, ComposeOp, Take, Drop;
    if a == [] || b == [] {
      EffectNothing(d);
      ComposeNothingFits(if a == [] then b else a, d);
    } else if b[0].kind.Insert? {
      InsertStepInSequence(d, a, b);
      ComposeListFits(d, a, b[1..]);
      assert ([b[0]] + ComposeList(a, b[1..]))[1..] == ComposeList(a, b[1..]);
    } else if a[0].kind.Delete? {
      DeleteStepFits(d, a, b);
      ComposeListFits(d[a[0].kind.n..], a[1..], b);
      FitsDelete(a[0], ComposeList(a[1..], b), d);
    } else if EmptyAtEmbed(a, b) {
      EmptyStride(d, a, b);
      ComposeListFits(d, a, b[1..]);
      ComposeOpFits(a[0], Head(b, 0), 0, ComposeList(a, b[1..]), d);
    } else {
      var n := Stride(a, b);
      StrideInSequence(d, a, b);
      ComposeListFits(if a[0].kind.Insert? then d else d[n..], Tail(a, n), Tail(b, n));
      HeadKinds(a, n);
      HeadKinds(b, n);
      ComposeOpFits(Head(a, n), Head(b, n), n, ComposeList(Tail(a, n), Tail(b, n)), d);
    }
  }

  lemma {:induction false} HeadKinds(ops: seq<Op>, n: nat)
    requires ops != [] && Cuttable(ops, n)
    ensures Head(ops, n).Len() == n
    ensures Head(ops, n).kind.Insert? == ops[0].kind.Insert?
    ensures Head(ops, n).kind.Retain? == ops[0].kind.Retain?
    ensures Head(ops, n).kind.Delete? == ops[0].kind.Delete?
  {
    CutFlat(ops, n);
  }

  lemma {:induction false} DeleteStepFits(d: seq<Cell>, a: seq<Op>, b: seq<Op>)
    requires InSequence(d, a, b) && a != [] && a[0].kind.Delete?
    ensures a[0].kind.n <= |d| && InSequence(d[a[0].kind.n..], a[1..], b)
    ensures Effect(d, a) == Effect(d[a[0].kind.n..], a[1..])
  {
    EffectStep(d, a);
  }

  lemma {:induction false} FitsDelete(op: Op, rest: seq<Op>, d: seq<Cell>)
    requires op.kind.Delete? && op.kind.n <= |d| && HeadOk(d) && Fits(rest, d[op.kind.n..])
    ensures Fits([Take(op, op.Len())] + rest, d)
  {
    assert ([Take(op, op.Len())] + rest)[1..] == rest;
  }

  /** Unit by unit, the list `compose` pushes is the composition of the two changes. */
  lemma {:induction false} ComposeListMeans(d: seq<Cell>, a: seq<Op>, b: seq<Op>)
    requires InSequence(d, a, b) && NoEmptyOp(b)
    ensures Flat(ComposeList(a, b)) == ComposeAtoms(Flat(a), Flat(b))
    decreases |a| + |b|
  {
    hide Effect, HeadOk, ComposeOp, ComposeAtoms, Fits;
    if a == [] || b == [] {
      ComposeEndMeans(a, b);
    } else if b[0].kind.Insert? {
      InsertStepInSequence(d, a, b);
      ComposeListMeans(d, a, b[1..]);
      RunInsertB(Flat(a), Styled(Syms(b[0].kind.payload), b[0].attributes), Flat(b[1..]));
      assert ([b[0]] + ComposeList(a, b[1..]))[1..] == ComposeList(a, b[1..]);
    } else if a[0].kind.Delete? {
      var n := a[0].kind.n;
      DeleteStepFits(d, a, b);
      ComposeListMeans(d[n..], a[1..], b);
      assert b[0].Len() > 0 && Flat(b)[0] == Atoms(b[0])[0];
      RunDeleteA(n, Flat(a[1..]), Flat(b));
      assert ([DeleteOp(n)] + ComposeList(a[1..], b))[1..] == ComposeList(a[1..], b);
    } else {
      var n := Stride(a, b);
      StrideInSequence(d, a, b);
      TailNoEmpty(b, n);
      ComposeListMeans(if a[0].kind.Insert? then d else d[n..], Tail(a, n), Tail(b, n));
      ComposeStep(a, b);
    }
  }

  lemma {:induction false} InsertStepInSequence(d: seq<Cell>, a: seq<Op>, b: seq<Op>)
    requires InSequence(d, a, b) && b != [] && b[0].kind.Insert?
    ensures InSequence(d, a, b[1..])
  {
  }

  /** One stride: the atoms of the op it pushes are the composition of the atoms it consumed. */
  lemma {:induction false} ComposeStep(a: seq<Op>, b: seq<Op>)
    requires a != [] && b != [] && !b[0].kind.Insert? && !a[0].kind.Delete?
    requires Cuttable(a, Stride(a, b)) && Cuttable(b, Stride(a, b))
    requires var n := Stride(a, b);
             Flat(ComposeList(Tail(a, n), Tail(b, n))) == ComposeAtoms(Flat(Tail(a, n)), Flat(Tail(b, n)))
    ensures Flat(ComposeList(a, b)) == ComposeAtoms(Flat(a), Flat(b))
  {
    var n := Stride(a, b);
    var x, y := Head(a, n), Head(b, n);
    var rest := ComposeList(Tail(a, n), Tail(b, n));
    CutFlat(a, n);
    CutFlat(b, n);
    ComposeOpMeans(x, y, n, Flat(Tail(a, n)), Flat(Tail(b, n)));
    FlatAppend(ComposeOp(x, y, n), rest);
  }

  lemma {:induction false} ComposeOpFits(x: Op, y: Op, n: nat, rest: seq<Op>, d: seq<Cell>)
    requires !x.kind.Delete? && !y.kind.Insert? && y.Len() == n && HeadOk(d)
    requires x.kind.Retain? ==> n <= |d|
    requires Fits(rest, if x.kind.Insert? then d else d[n..])
    ensures Fits(ComposeOp(x, y, n) + rest, d)
  {
    var out := ComposeOp(x, y, n);
    if out == [] {
      assert out + rest == rest;
    } else {
      assert (out + rest)[1..] == rest;
    }
  }

  lemma {:induction false} ComposeOpMeans(x: Op, y: Op, n: nat, a: seq<Atom>, b: seq<Atom>)
    requires !x.kind.Delete? && !y.kind.Insert? && x.Len() == n && y.Len() == n
    ensures ComposeAtoms(Atoms(x) + a, Atoms(y) + b) == Flat(ComposeOp(x, y, n)) + ComposeAtoms(a, b)
  {
    var out := ComposeOp(x, y, n);
    if out == [] {
      RunInsertDelete(Styled(Syms(x.kind.payload), x.attributes), a, b);
      assert [] + ComposeAtoms(a, b) == ComposeAtoms(a, b);
    } else {
      FlatOne(out[0]);
      if x.kind.Insert? {
        var cells := Styled(Syms(x.kind.payload), x.attributes);
        RunInsertRetain(cells, a, y.attributes, b);
        assert Formatted(cells, y.attributes) == Styled(Syms(x.kind.payload), out[0].attributes);
      } else if y.kind.Retain? {
        RunRetainRetain(x.attributes, y.attributes, n, a, b);
      } else {
        RunRetainDelete(x.attributes, n, a, b);
      }
    }
  }

  /** One of the lists is used up: the other one passes through unchanged. */
  lemma {:induction false} ComposeEndMeans(a: seq<Op>, b: seq<Op>)
    requires a == [] || b == []
    ensures Flat(ComposeList(a, b)) == ComposeAtoms(Flat(a), Flat(b))
  {
    var ops := if a == [] then b else a;
    ComposeAfterNothing(ops);
    ComposeWithNothing(ops);
    ComposeNothingAtoms(Flat(ops));
  }

  lemma {:induction false} ComposeNothingAtoms(atoms: seq<Atom>)
    ensures ComposeAtoms([], atoms) == atoms && ComposeAtoms(atoms, []) == atoms
  {
    if atoms != [] {
      ComposeNothingAtoms(atoms[1..]);
    }
  }

  lemma {:induction false} ComposeNothingFits(ops: seq<Op>, d: seq<Cell>)
    requires Fits(ops, d)
    ensures Fits(ComposeList([], ops), d) && Fits(ComposeList(ops, []), d)
    decreases |ops|
  {
    if ops != [] {
      var x, y := ComposeList([], ops), ComposeList(ops, []);
      ComposeNothingFits(ops[1..], if ops[0].kind.Insert? then d else d[ops[0].kind.n..]);
      assert x[1..] == ComposeList([], ops[1..]);
      assert y[1..] == ComposeList(ops[1..], []);
    }
  }

  /** A fitting list needs no more of the document than there is. */
  lemma {:induction false} FitsNeed(ops: seq<Op>, d: seq<Cell>)
    requires Fits(ops, d)
    ensures Need(Flat(ops)) == Span(ops) <= |d|
    decreases |ops|
  {
    if ops != [] {
      FitsNeed(ops[1..], if ops[0].kind.Insert? then d else d[ops[0].kind.n..]);
      NeedAppend(Atoms(ops[0]), Flat(ops[1..]));
      NeedRun(Atoms(ops[0]));
    }
  }

  lemma {:induction false} NeedAppend(x: seq<Atom>, y: seq<Atom>)
    ensures Need(x + y) == Need(x) + Need(y)
  {
    if x == [] {
      assert x + y == y;
    } else {
      NeedAppend(x[1..], y);
      assert (x + y)[1..] == x[1..] + y;
    }
  }

  lemma {:induction false} NeedRun(x: seq<Atom>)
    ensures (forall i | 0 <= i < |x| :: x[i].Ins?) ==> Need(x) == 0
    ensures (forall i | 0 <= i < |x| :: !x[i].Ins?) ==> Need(x) == |x|
  {
    if x != [] {
      NeedRun(x[1..]);
    }
  }

  /** Composition preserves meaning. On any document `a` fits, the composed change fits too
      and does what `a` and then `b` do. With nothing for `d` this is how a change is applied
      to a document. */
  lemma {:induction false} ComposeMeans(d: seq<Cell>, a: seq<Op>, b: seq<Op>)
    requires InSequence(d, a, b)
    ensures Fits(Compose(a, b), d) && Canonical(Compose(a, b))
    ensures NoEmptyOp(b) ==> Effect(d, Compose(a, b)) == Effect(Effect(d, a), b)
  {
    ComposeListFits(d, a, b);
    BuiltKeeps(ComposeList(a, b), d);
    BuiltCanonical(ComposeList(a, b));
    if NoEmptyOp(b) {
      ComposeListMeans(d, a, b);
      FitsNeed(a, d);
      ComposeAtomsEffect(d, Flat(a), Flat(b));
    }
  }
}
