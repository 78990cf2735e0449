/** Pushing ops one by one changes how a change is written, never what it does: the merging,
    the reordering and the final chop all keep its effect on every document it fits. */
module Building {
  import opened Attributes
  import opened Deltas

  /** How much of a document `ops` walks over. */
  function Span(ops: seq<Op>): nat {
    if ops == [] then 0 else (if ops[0].kind.Insert? then 0 else ops[0].kind.n) + Span(ops[1..])
  }

  lemma {:induction false} FitsAppend(x: seq<Op>, y: seq<Op>, d: seq<Cell>)
    ensures Fits(x, d) ==> Span(x) <= |d|
    ensures Fits(x + y, d) <==> Fits(x, d) && Fits(y, d[Span(x)..])
    decreases |x|
  {
    if x == [] {
      assert x + y == y;
      assert d[0..] == d;
    } else {
      assert (x + y)[1..] == x[1..] + y;
      if x[0].kind.Insert? {
        FitsAppend(x[1..], y, d);
      } else if x[0].kind.n <= |d| {
        FitsAppend(x[1..], y, d[x[0].kind.n..]);
        if Span(x) <= |d| {
          assert d[x[0].kind.n..][Span(x[1..])..] == d[Span(x)..];
        }
      }
    }
  }

  lemma {:induction false} EffectNothing(d: seq<Cell>)
    ensures Effect(d, []) == d
  {
  }

  lemma {:induction false} EffectAppend(x: seq<Op>, y: seq<Op>, d: seq<Cell>)
    requires Span(x) <= |d|
    ensures Effect(d, x + y) == Effect(d[..Span(x)], x) + Effect(d[Span(x)..], y)
    decreases |x|
  {
    hide Effect, Styled, Formatted;
    if x == [] {
      assert x + y == y;
      assert d[0..] == d;
      EffectNothing(d[..0]);
    } else {
      assert (x + y)[1..] == x[1..] + y;
      EffectStep(d, x + y);
      EffectStep(d[..Span(x)], x);
      if x[0].kind.Insert? {
        EffectAppend(x[1..], y, d);
        AppendAssociative(Styled(Syms(x[0].kind.payload), x[0].attributes), Effect(d[..Span(x)], x[1..]), Effect(d[Span(x)..], y));
      } else {
        var n := x[0].kind.n;
        EffectAppend(x[1..], y, d[n..]);
        assert d[n..][Span(x[1..])..] == d[Span(x)..];
        assert d[n..][..Span(x[1..])] == d[..Span(x)][n..];
        assert d[..Span(x)][..n] == d[..n];
        if x[0].kind.Retain? {
          AppendAssociative(Formatted(d[..n], x[0].attributes), Effect(d[..Span(x)][n..], x[1..]), Effect(d[Span(x)..], y));
        }
      }
    }
  }

  lemma {:induction false} SpanAppend(x: seq<Op>, y: seq<Op>)
    ensures Span(x + y) == Span(x) + Span(y)
  {
    if x == [] {
      assert x + y == y;
    } else {
      SpanAppend(x[1..], y);
      assert (x + y)[1..] == x[1..] + y;
    }
  }

  lemma {:induction false} InsertingAppend(x: seq<Sym>, y: seq<Sym>, attributes: Attrs)
    ensures Inserting(Styled(x + y, attributes)) == Inserting(Styled(x, attributes)) + Inserting(Styled(y, attributes))
  {
  }

  lemma {:induction false} RepAppend<T>(x: T, m: nat, n: nat)
    ensures Rep(x, m + n) == Rep(x, m) + Rep(x, n)
  {
  }

  lemma {:induction false} MergeAtoms(a: Op, b: Op)
    requires Mergeable(a, b)
    ensures Atoms(Merge(a, b)) == Atoms(a) + Atoms(b)
  {
    hide Inserting, Styled, Rep, TextSyms;
    match a.kind
    case Insert(p) =>
      TextSymsAppend(p.s, b.kind.payload.s);
      InsertingAppend(TextSyms(p.s), TextSyms(b.kind.payload.s), a.attributes);
    case Retain(n) => RepAppend(Ret(a.attributes), n, b.kind.n);
    case Delete(n) => RepAppend(Atom.Del, n, b.kind.n);
  }

  lemma {:induction false} FlatOne(op: Op)
    ensures Flat([op]) == Atoms(op)
  {
    assert Flat([op]) == Atoms(op) + Flat([]);
  }

  lemma {:induction false} FlatLast(init: seq<Op>, op: Op)
    ensures Flat(init + [op]) == Flat(init) + Atoms(op)
  {
    FlatAppend(init, [op]);
    FlatOne(op);
  }

  lemma {:induction false} JoinFlat(ops: seq<Op>, op: Op)
    ensures Flat(Join(ops, op)) == Flat(ops + [op])
  {
    hide Atoms, Flat;
    if ops != [] && Mergeable(ops[|ops| - 1], op) {
      var init, last := ops[..|ops| - 1], ops[|ops| - 1];
      assert ops == init + [last];
      FlatLast(ops, op);
      FlatLast(init, last);
      FlatLast(init, Merge(last, op));
      MergeAtoms(last, op);
      AppendAssociative(Flat(init), Atoms(last), Atoms(op));
    }
  }

  lemma {:induction false} MergeFits(last: Op, op: Op, d: seq<Cell>)
    requires Mergeable(last, op) && Fits([last, op], d)
    ensures Fits([Merge(last, op)], d)
    ensures Span([Merge(last, op)]) == Span([last]) + Span([op])
  {
    assert [last, op][1..] == [op] && [op][1..] == [];
    var m := [Merge(last, op)];
    assert m[1..] == [];
    if !op.kind.Insert? {
      assert d[last.kind.n..][op.kind.n..] == d[last.kind.n + op.kind.n..];
    }
  }

  lemma {:induction false} JoinFits(ops: seq<Op>, op: Op, d: seq<Cell>)
    requires Fits(ops + [op], d)
    ensures Fits(Join(ops, op), d)
    ensures Span(Join(ops, op)) == Span(ops + [op])
  {
    SpanAppend(ops, [op]);
    if ops != [] && Mergeable(ops[|ops| - 1], op) {
      var init, last := ops[..|ops| - 1], ops[|ops| - 1];
      assert ops == init + [last];
      assert ops + [op] == init + [last, op];
      FitsAppend(init, [last, op], d);
      FitsAppend(init, [Merge(last, op)], d);
      SpanAppend(init, [last]);
      SpanAppend(init, [Merge(last, op)]);
      MergeFits(last, op, d[Span(init)..]);
    }
  }

  /** An insert and a delete at the same place may be written in either order. */
  lemma {:induction false} InsertBeforeDelete(init: seq<Op>, del: Op, op: Op, d: seq<Cell>)
    requires del.kind.Delete? && op.kind.Insert?
    requires Fits(init + [del, op], d)
    ensures Fits(init + [op, del], d)
    ensures Effect(d, init + [op, del]) == Effect(d, init + [del, op])
  {
    FitsAppend(init, [del, op], d);
    FitsAppend(init, [op, del], d);
    EffectAppend(init, [del, op], d);
    EffectAppend(init, [op, del], d);
    var e := d[Span(init)..];
    assert [del, op][1..] == [op] && [op, del][1..] == [del] && [op][1..] == [] && [del][1..] == [];
    EffectStep(e, [del, op]);
    EffectStep(e, [op, del]);
    EffectStep(e[del.kind.n..], [op]);
    EffectStep(e, [del]);
  }

  lemma {:induction false} PushKeeps(ops: seq<Op>, op: Op, d: seq<Cell>)
    requires Fits(ops + [op], d)
    ensures Fits(Push(ops, op), d)
    ensures Effect(d, Push(ops, op)) == Effect(d, ops + [op])
  {
    if op.Len() == 0 {
      FitsAppend(ops, [op], d);
      FlatAppend(ops, [op]);
      FlatOne(op);
      assert Flat(ops) + [] == Flat(ops);
    } else if ops != [] && ops[|ops| - 1].kind.Delete? && op.kind.Insert? {
      var init, del := ops[..|ops| - 1], ops[|ops| - 1];
      assert ops + [op] == init + [del, op];
      InsertBeforeDelete(init, del, op, d);
      assert init + [op, del] == (init + [op]) + [del];
      FitsAppend(init + [op], [del], d);
      JoinFits(init, op, d);
      JoinFlat(init, op);
      FitsAppend(Join(init, op), [del], d);
      FlatAppend(Join(init, op), [del]);
      FlatAppend(init + [op], [del]);
    } else {
      JoinFits(ops, op, d);
      JoinFlat(ops, op);
    }
  }

  lemma {:induction false} PushAllKeeps(ops: seq<Op>, more: seq<Op>, d: seq<Cell>)
    requires Fits(ops + more, d)
    ensures Fits(PushAll(ops, more), d)
    ensures Effect(d, PushAll(ops, more)) == Effect(d, ops + more)
    decreases |more|
  {
    if more == [] {
      assert ops + more == ops;
    } else {
      var one := ops + [more[0]];
      assert ops + more == one + more[1..];
      FitsAppend(one, more[1..], d);
      PushKeeps(ops, more[0], d);
      PushSpan(ops, more[0]);
      FitsAppend(Push(ops, more[0]), more[1..], d);
      EffectAppend(one, more[1..], d);
      EffectAppend(Push(ops, more[0]), more[1..], d);
      FitsPrefix(one, d);
      PushKeeps(ops, more[0], d[..Span(one)]);
      PushAllKeeps(Push(ops, more[0]), more[1..], d);
    }
  }

  lemma {:induction false} SpanLast(init: seq<Op>, op: Op)
    ensures Span(init + [op]) == Span(init) + if op.kind.Insert? then 0 else op.kind.n
  {
    SpanAppend(init, [op]);
    assert [op][1..] == [];
  }

  lemma {:induction false} JoinSpan(ops: seq<Op>, op: Op)
    ensures Span(Join(ops, op)) == Span(ops + [op])
  {
    hide Span;
    SpanLast(ops, op);
    if ops != [] && Mergeable(ops[|ops| - 1], op) {
      var init, last := ops[..|ops| - 1], ops[|ops| - 1];
      assert ops == init + [last];
      SpanLast(init, last);
      SpanLast(init, Merge(last, op));
    }
  }

  lemma {:induction false} PushSpan(ops: seq<Op>, op: Op)
    ensures Span(Push(ops, op)) == Span(ops + [op])
  {
    hide Span, Join;
    SpanLast(ops, op);
    JoinSpan(ops, op);
    if ops != [] {
      var init, last := ops[..|ops| - 1], ops[|ops| - 1];
      assert ops == init + [last];
      SpanLast(init, last);
      SpanLast(init, op);
      JoinSpan(init, op);
      SpanLast(Join(init, op), last);
    }
  }

  lemma {:induction false} FitsTail(ops: seq<Op>, d: seq<Cell>)
    requires Fits(ops, d) && ops != []
    ensures ops[0].kind.Insert? ==> Fits(ops[1..], d)
    ensures !ops[0].kind.Insert? ==> ops[0].kind.n <= |d| && Fits(ops[1..], d[ops[0].kind.n..])
  {
  }

  /** A list that fits a document fits the part of it that the list walks over. */
  lemma {:induction false} FitsPrefix(ops: seq<Op>, d: seq<Cell>)
    requires Fits(ops, d)
    ensures Span(ops) <= |d| && Fits(ops, d[..Span(ops)])
    decreases |ops|
  {
    FitsAppend(ops, [], d);
    if ops != [] {
      if ops[0].kind.Insert? {
        FitsPrefix(ops[1..], d);
      } else {
        var n := ops[0].kind.n;
        FitsPrefix(ops[1..], d[n..]);
        FitsAppend(ops[1..], [], d[n..]);
        assert d[n..][..Span(ops[1..])] == d[..Span(ops)][n..];
      }
    }
  }

  lemma {:induction false} FormattedBare(d: seq<Cell>)
    ensures Formatted(d, map[]) == d
  {
    forall i | 0 <= i < |d| ensures Formatted(d, map[])[i] == d[i] {
      FormatWithNothing(d[i].attributes);
    }
  }

  lemma {:induction false} BareRetainKeeps(op: Op, d: seq<Cell>)
    requires IsBareRetain(op) && Fits([op], d)
    ensures Effect(d, [op]) == d
  {
    EffectStep(d, [op]);
    assert [op][1..] == [];
    FormattedBare(d[..op.kind.n]);
    assert d == d[..op.kind.n] + d[op.kind.n..];
  }

  lemma {:induction false} ChopKeeps(ops: seq<Op>, d: seq<Cell>)
    requires Fits(ops, d)
    ensures Fits(Chop(ops), d)
    ensures Effect(d, Chop(ops)) == Effect(d, ops)
  {
    if ops != [] && IsBareRetain(ops[|ops| - 1]) {
      var init, last := ops[..|ops| - 1], ops[|ops| - 1];
      assert ops == init + [last];
      FitsAppend(init, [last], d);
      EffectAppend(init, [last], d);
      assert init + [] == init;
      EffectAppend(init, [], d);
      BareRetainKeeps(last, d[Span(init)..]);
    }
  }

  /** The list that pushing builds fits whatever the pushed ops fit and does the same to it. */
  lemma {:induction false} BuiltKeeps(ops: seq<Op>, d: seq<Cell>)
    requires Fits(ops, d)
    ensures Fits(Built(ops), d)
    ensures Effect(d, Built(ops)) == Effect(d, ops)
  {
    assert [] + ops == ops;
    PushAllKeeps([], ops, d);
    ChopKeeps(PushAll([], ops), d);
  }
}
