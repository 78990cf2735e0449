/** Deltas as values (crates/gal-ot/src/delta.rs): op lists, the canonical form that `push`
    keeps, and what an op list does to a document.

    A document is described at its finest grain as a sequence of `Cell`s, one per UTF-16 code
    unit, and a change as a sequence of `Atom`s, one per unit it adds, keeps or removes. */
module Deltas {
  import opened Utf16
  import opened Attributes

  // --- op lists ---------------------------------------------------------

  /** The payload of an insert. An embed is opaque and always takes one unit. */
  datatype Payload = Text(s: string) | Embed(value: Value)

  datatype OpKind = Insert(payload: Payload) | Retain(n: nat) | Delete(n: nat)

  datatype Op = Op(kind: OpKind, attributes: Attrs) {
    function Len(): nat {
      match kind
      case Insert(Text(s)) => Len16(s)
      case Insert(Embed(_)) => 1
      case Retain(n) => n
      case Delete(n) => n
    }

    predicate IsText() {
      kind.Insert? && kind.payload.Text?
    }
  }

  function RetainOp(n: nat, attributes: Attrs := map[]): Op {
    Op(Retain(n), attributes)
  }

  function DeleteOp(n: nat): Op {
    Op(Delete(n), map[])
  }

  /** The first `n` units of `op`. A text is cut at the next character boundary, an embed is
      never cut, and a delete loses whatever attributes it came with. */
  function Take(op: Op, n: nat): Op
    requires n <= op.Len()
  {
    match op.kind
    case Insert(Text(s)) => Op(Insert(Text(s[..CharsFor(s, n)])), op.attributes)
    case Insert(Embed(_)) => op
    case Retain(_) => Op(Retain(n), op.attributes)
    case Delete(_) => DeleteOp(n)
  }

  /** What is left of `op` after its first `n` units. */
  function Drop(op: Op, n: nat): Op
    requires n <= op.Len()
  {
    match op.kind
    case Insert(Text(s)) => Op(Insert(Text(s[CharsFor(s, n)..])), op.attributes)
    case Insert(Embed(_)) => op
    case Retain(m) => Op(Retain(m - n), op.attributes)
    case Delete(m) => Op(Delete(m - n), op.attributes)
  }

  /** The op list after `n` units of its first op have been taken. */
  function Tail(ops: seq<Op>, n: nat): seq<Op>
    requires ops == [] || n <= ops[0].Len()
  {
    if ops == [] then []
    else if n == ops[0].Len() then ops[1..]
    else [Drop(ops[0], n)] + ops[1..]
  }

  /** What an iterator yields for `n` units: an exhausted one behaves like untouched document. */
  function Head(ops: seq<Op>, n: nat): Op
    requires ops == [] || n <= ops[0].Len()
  {
    if ops == [] then RetainOp(n) else Take(ops[0], n)
  }

  predicate NoEmptyOp(ops: seq<Op>) {
    forall i | 0 <= i < |ops| :: ops[i].Len() > 0
  }

  predicate IsDocument(ops: seq<Op>) {
    forall i | 0 <= i < |ops| :: ops[i].kind.Insert?
  }

  // --- building ---------------------------------------------------------

  predicate Mergeable(a: Op, b: Op) {
    || (a.kind.Delete? && b.kind.Delete?)
    || (a.attributes == b.attributes && ((a.IsText() && b.IsText()) || (a.kind.Retain? && b.kind.Retain?)))
  }

  /** One op for two mergeable ones; the attributes are those of the first. */
  function Merge(a: Op, b: Op): Op
    requires Mergeable(a, b)
  {
    match a.kind
    case Insert(p) => Op(Insert(Text(p.s + b.kind.payload.s)), a.attributes)
    case Retain(n) => Op(Retain(n + b.kind.n), a.attributes)
    case Delete(n) => Op(Delete(n + b.kind.n), a.attributes)
  }

  function Join(ops: seq<Op>, op: Op): seq<Op> {
    if ops != [] && Mergeable(ops[|ops| - 1], op)
    then ops[..|ops| - 1] + [Merge(ops[|ops| - 1], op)]
    else ops + [op]
  }

  /** Append one op, dropping an empty one, merging it where possible and putting an insert
      in front of a delete that ends the list. */
  function Push(ops: seq<Op>, op: Op): seq<Op> {
    if op.Len() == 0 then ops
    else if ops != [] && ops[|ops| - 1].kind.Delete? && op.kind.Insert?
    then Join(ops[..|ops| - 1], op) + [ops[|ops| - 1]]
    else Join(ops, op)
  }

  function PushAll(ops: seq<Op>, more: seq<Op>): seq<Op>
    decreases |more|
  {
    if more == [] then ops else PushAll(Push(ops, more[0]), more[1..])
  }

  predicate IsBareRetain(op: Op) {
    op.kind.Retain? && op.attributes == map[]
  }

  function Chop(ops: seq<Op>): seq<Op> {
    if ops != [] && IsBareRetain(ops[|ops| - 1]) then ops[..|ops| - 1] else ops
  }

  /** The list built by pushing `ops` one by one and chopping the result. */
  function Built(ops: seq<Op>): seq<Op> {
    Chop(PushAll([], ops))
  }

  /** No empty op, no two neighbours that could be one, no insert straight after a delete. */
  predicate Canonical(ops: seq<Op>) {
    && NoEmptyOp(ops)
    && forall i | 0 <= i < |ops| - 1 ::
         !Mergeable(ops[i], ops[i + 1]) && !(ops[i].kind.Delete? && ops[i + 1].kind.Insert?)
  }

  /** A delete carries no attributes, as the iterators hand it out. */
  predicate PlainDelete(op: Op) {
    op.kind.Delete? ==> op.attributes == map[]
  }

  predicate PlainDeletes(ops: seq<Op>) {
    forall i | 0 <= i < |ops| :: PlainDelete(ops[i])
  }

  lemma {:induction false} JoinCanonical(ops: seq<Op>, op: Op)
    requires Canonical(ops) && op.Len() > 0
    requires ops != [] && ops[|ops| - 1].kind.Delete? ==> !op.kind.Insert?
    ensures Canonical(Join(ops, op))
    ensures KindMatches(Join(ops, op)[|Join(ops, op)| - 1], op)
  {
    Len16Merge(ops, op);
  }

  predicate KindMatches(a: Op, b: Op) {
    (a.kind.Insert? <==> b.kind.Insert?) && (a.kind.Delete? <==> b.kind.Delete?)
  }

  lemma {:induction false} PushCanonical(ops: seq<Op>, op: Op)
    requires Canonical(ops)
    ensures Canonical(Push(ops, op))
  {
    hide Join;
    if op.Len() > 0 {
      if ops != [] && ops[|ops| - 1].kind.Delete? && op.kind.Insert? {
        JoinCanonical(ops[..|ops| - 1], op);
      } else {
        JoinCanonical(ops, op);
      }
    }
  }

  lemma {:induction false} Len16Merge(ops: seq<Op>, op: Op)
    ensures forall i | 0 <= i < |ops| :: Mergeable(ops[i], op) ==> Merge(ops[i], op).Len() == ops[i].Len() + op.Len()
  {
    forall i | 0 <= i < |ops| && Mergeable(ops[i], op)
      ensures Merge(ops[i], op).Len() == ops[i].Len() + op.Len()
    {
      if op.IsText() {
        Len16Append(ops[i].kind.payload.s, op.kind.payload.s);
      }
    }
  }

  lemma {:induction false} PushAllCanonical(ops: seq<Op>, more: seq<Op>)
    requires Canonical(ops)
    ensures Canonical(PushAll(ops, more))
    decreases |more|
  {
    if more != [] {
      PushCanonical(ops, more[0]);
      PushAllCanonical(Push(ops, more[0]), more[1..]);
    }
  }

  /** Whatever is pushed, the list that results is canonical. */
  lemma {:induction false} BuiltCanonical(ops: seq<Op>)
    ensures Canonical(Built(ops))
  {
    PushAllCanonical([], ops);
  }

  // --- cells and atoms --------------------------------------------------

  datatype Half = Whole | High | Low

  /** One code unit of content: a one-unit character, a half of a two-unit one, or an embed. */
  datatype Sym = Char(c: char, half: Half) | Object(value: Value)

  datatype Cell = Cell(sym: Sym, attributes: Attrs)

  datatype Atom = Ins(cell: Cell) | Ret(attributes: Attrs) | Del

  function CharSyms(c: char): (r: seq<Sym>)
    ensures |r| == Width16(c)
  {
    if Width16(c) == 1 then [Char(c, Whole)] else [Char(c, High), Char(c, Low)]
  }

  function TextSyms(s: string): (r: seq<Sym>)
    ensures |r| == Len16(s)
  {
    if s == "" then [] else CharSyms(s[0]) + TextSyms(s[1..])
  }

  function Syms(p: Payload): (r: seq<Sym>)
  {
    match p
    case Text(s) => TextSyms(s)
    case Embed(v) => [Object(v)]
  }

  function Rep<T>(x: T, n: nat): (r: seq<T>)
    ensures |r| == n
    ensures forall i | 0 <= i < n :: r[i] == x
  {
    seq(n, _ => x)
  }

  function Styled(syms: seq<Sym>, attributes: Attrs): (r: seq<Cell>)
    ensures |r| == |syms|
    ensures forall i | 0 <= i < |syms| :: r[i] == Cell(syms[i], attributes)
  {
    seq(|syms|, i requires 0 <= i < |syms| => Cell(syms[i], attributes))
  }

  function Inserting(cells: seq<Cell>): (r: seq<Atom>)
    ensures |r| == |cells|
    ensures forall i | 0 <= i < |cells| :: r[i] == Ins(cells[i])
  {
    seq(|cells|, i requires 0 <= i < |cells| => Ins(cells[i]))
  }

  function Atoms(op: Op): (r: seq<Atom>)
    ensures |r| == op.Len()
  {
    match op.kind
    case Insert(p) => Inserting(Styled(Syms(p), op.attributes))
    case Retain(n) => Rep(Ret(op.attributes), n)
    case Delete(n) => Rep(Del, n)
  }

  function Flat(ops: seq<Op>): seq<Atom> {
    if ops == [] then [] else Atoms(ops[0]) + Flat(ops[1..])
  }

  lemma {:induction false} AppendAssociative<T>(a: seq<T>, b: seq<T>, c: seq<T>)
    ensures (a + b) + c == a + (b + c)
  {
  }

  lemma {:induction false} FlatAppend(x: seq<Op>, y: seq<Op>)
    ensures Flat(x + y) == Flat(x) + Flat(y)
  {
    if x == [] {
      assert x + y == y;
    } else {
      FlatAppend(x[1..], y);
      assert (x + y)[1..] == x[1..] + y;
      AppendAssociative(Atoms(x[0]), Flat(x[1..]), Flat(y));
    }
  }

  lemma {:induction false} TextSymsAppend(s: string, t: string)
    ensures TextSyms(s + t) == TextSyms(s) + TextSyms(t)
  {
    hide CharSyms;
    if s == "" {
      assert s + t == t;
    } else {
      TextSymsAppend(s[1..], t);
      assert (s + t)[1..] == s[1..] + t;
      AppendAssociative(CharSyms(s[0]), TextSyms(s[1..]), TextSyms(t));
    }
  }

  /** A unit that is not the second half of a pair is where a character starts. */
  lemma {:induction false} UnitBoundary(s: string, n: nat)
    requires n <= Len16(s)
    requires n < Len16(s) ==> !IsLow(TextSyms(s)[n])
    ensures OnBoundary(s, n)
  {
    if n == 0 || s == "" {
    } else {
      var w := Width16(s[0]);
      assert n >= w;
      UnitBoundary(s[1..], n - w);
      assert s[..CharsFor(s, n)][1..] == s[1..][..CharsFor(s[1..], n - w)];
    }
  }

  predicate IsLow(sym: Sym) {
    sym.Char? && sym.half == Low
  }

  lemma {:induction false} CutTextSyms(s: string, n: nat)
    requires n <= Len16(s) && OnBoundary(s, n)
    ensures TextSyms(s[..CharsFor(s, n)]) == TextSyms(s)[..n]
    ensures TextSyms(s[CharsFor(s, n)..]) == TextSyms(s)[n..]
  {
    var k := CharsFor(s, n);
    TextSymsAppend(s[..k], s[k..]);
    assert s[..k] + s[k..] == s;
    Len16Split(s, k);
  }

  lemma {:induction false} CutInserting(syms: seq<Sym>, attributes: Attrs, n: nat)
    requires n <= |syms|
    ensures Inserting(Styled(syms, attributes))[..n] == Inserting(Styled(syms[..n], attributes))
    ensures Inserting(Styled(syms, attributes))[n..] == Inserting(Styled(syms[n..], attributes))
  {
  }

  lemma {:induction false} CutRep<T>(x: T, m: nat, n: nat)
    requires n <= m
    ensures Rep(x, m)[..n] == Rep(x, n) && Rep(x, m)[n..] == Rep(x, m - n)
  {
  }

  /** Cutting an op on a boundary cuts its atoms in two. */
  lemma {:induction false} CutAtoms(op: Op, n: nat)
    requires n <= op.Len()
    requires op.IsText() ==> OnBoundary(op.kind.payload.s, n)
    requires op.kind.Insert? && op.kind.payload.Embed? ==> n == 1
    ensures Atoms(Take(op, n)) == Atoms(op)[..n]
    ensures n < op.Len() || op.IsText() ==> Atoms(Drop(op, n)) == Atoms(op)[n..]
    ensures Take(op, n).Len() == n
    ensures n < op.Len() ==> Drop(op, n).Len() == op.Len() - n
  {
    hide Inserting, Styled, Rep, OnBoundary, CharsFor, TextSyms;
    match op.kind
    case Insert(Text(s)) =>
      CutTextSyms(s, n);
      CutInserting(TextSyms(s), op.attributes, n);
      Len16Cut(s, n);
    case Insert(Embed(_)) =>
    case Retain(m) => CutRep(Ret(op.attributes), m, n);
    case Delete(m) => CutRep(Atom.Del, m, n);
  }

  lemma {:induction false} Len16Cut(s: string, n: nat)
    requires n <= Len16(s) && OnBoundary(s, n)
    ensures Len16(s[..CharsFor(s, n)]) == n && Len16(s[CharsFor(s, n)..]) == Len16(s) - n
  {
    Len16Split(s, CharsFor(s, n));
  }

  // --- what a change does to a document ---------------------------------

  function Apply(d: seq<Cell>, atoms: seq<Atom>): seq<Cell>
    decreases |atoms|
  {
    if atoms == [] then d
    else match atoms[0]
      case Ins(cell) => [cell] + Apply(d, atoms[1..])
      case Ret(m) => if d == [] then Apply(d, atoms[1..])
                     else [Cell(d[0].sym, Format(d[0].attributes, m))] + Apply(d[1..], atoms[1..])
      case Del => if d == [] then Apply(d, atoms[1..]) else Apply(d[1..], atoms[1..])
  }

  /** The document `d` after the change `ops`. */
  function Effect(d: seq<Cell>, ops: seq<Op>): seq<Cell> {
    Apply(d, Flat(ops))
  }

  /** The content of a document delta: its effect on nothing. */
  function Content(ops: seq<Op>): seq<Cell> {
    Effect([], ops)
  }

  /** No character is cut just before `d`. */
  predicate HeadOk(d: seq<Cell>) {
    d == [] || !IsLow(d[0].sym)
  }

  /** Every retain and delete of `ops` ends inside `d`, on a character boundary. */
  predicate Fits(ops: seq<Op>, d: seq<Cell>)
    decreases |ops|
  {
    && HeadOk(d)
    && (ops != [] ==>
          if ops[0].kind.Insert? then Fits(ops[1..], d)
          else ops[0].kind.n <= |d| && Fits(ops[1..], d[ops[0].kind.n..]))
  }

  function Formatted(d: seq<Cell>, m: Attrs): (r: seq<Cell>)
    ensures |r| == |d|
    ensures forall i | 0 <= i < |d| :: r[i] == Cell(d[i].sym, Format(d[i].attributes, m))
  {
    seq(|d|, i requires 0 <= i < |d| => Cell(d[i].sym, Format(d[i].attributes, m)))
  }

  // The first element of a run, and what follows it.

  lemma {:induction false} RepHead<T>(x: T, n: nat, rest: seq<T>)
    ensures n == 0 ==> Rep(x, n) + rest == rest
    ensures n > 0 ==> (Rep(x, n) + rest)[0] == x && (Rep(x, n) + rest)[1..] == Rep(x, n - 1) + rest
    ensures n > 0 ==> Rep(x, n) == [x] + Rep(x, n - 1)
  {
  }

  lemma {:induction false} InsertingHead(cells: seq<Cell>, rest: seq<Atom>)
    ensures cells == [] ==> Inserting(cells) + rest == rest
    ensures cells != [] ==>
              && (Inserting(cells) + rest)[0] == Ins(cells[0])
              && (Inserting(cells) + rest)[1..] == Inserting(cells[1..]) + rest
              && Inserting(cells) == [Ins(cells[0])] + Inserting(cells[1..])
  {
  }

  lemma {:induction false} FormattedHead(d: seq<Cell>, m: Attrs)
    requires d != []
    ensures Formatted(d, m) == [Cell(d[0].sym, Format(d[0].attributes, m))] + Formatted(d[1..], m)
  {
  }

  lemma {:induction false} SliceHead<T>(d: seq<T>, n: nat)
    requires 0 < n <= |d|
    ensures d[..n][1..] == d[1..][..n - 1] && d[1..][n - 1..] == d[n..]
  {
  }

  lemma {:induction false} ApplyInserting(d: seq<Cell>, cells: seq<Cell>, rest: seq<Atom>)
    ensures Apply(d, Inserting(cells) + rest) == cells + Apply(d, rest)
    decreases |cells|
  {
    hide Inserting;
    InsertingHead(cells, rest);
    if cells == [] {
      assert cells + Apply(d, rest) == Apply(d, rest);
    } else {
      ApplyInserting(d, cells[1..], rest);
      assert cells == [cells[0]] + cells[1..];
      AppendAssociative([cells[0]], cells[1..], Apply(d, rest));
    }
  }

  lemma {:induction false} ApplyRetaining(d: seq<Cell>, m: Attrs, n: nat, rest: seq<Atom>)
    requires n <= |d|
    ensures Apply(d, Rep(Ret(m), n) + rest) == Formatted(d[..n], m) + Apply(d[n..], rest)
    decreases n
  {
    hide Rep, Formatted, Format;
    RepHead(Ret(m), n, rest);
    if n == 0 {
      assert d[0..] == d && Formatted(d[..0], m) == [];
      assert [] + Apply(d, rest) == Apply(d, rest);
    } else {
      ApplyRetaining(d[1..], m, n - 1, rest);
      SliceHead(d, n);
      FormattedHead(d[..n], m);
      AppendAssociative([Cell(d[0].sym, Format(d[0].attributes, m))], Formatted(d[1..][..n - 1], m), Apply(d[n..], rest));
    }
  }

  lemma {:induction false} ApplyDeleting(d: seq<Cell>, n: nat, rest: seq<Atom>)
    requires n <= |d|
    ensures Apply(d, Rep(Del, n) + rest) == Apply(d[n..], rest)
    decreases n
  {
    hide Rep;
    RepHead(Del, n, rest);
    if n == 0 {
      assert d[0..] == d;
    } else {
      ApplyDeleting(d[1..], n - 1, rest);
      SliceHead(d, n);
    }
  }

  /** The effect of a list, read off its first op. */
  lemma {:induction false} EffectStep(d: seq<Cell>, ops: seq<Op>)
    requires ops != []
    requires !ops[0].kind.Insert? ==> ops[0].kind.n <= |d|
    ensures match ops[0].kind
            case Insert(p) => Effect(d, ops) == Styled(Syms(p), ops[0].attributes) + Effect(d, ops[1..])
            case Retain(n) => Effect(d, ops) == Formatted(d[..n], ops[0].attributes) + Effect(d[n..], ops[1..])
            case Delete(n) => Effect(d, ops) == Effect(d[n..], ops[1..])
  {
    match ops[0].kind
    case Insert(p) => ApplyInserting(d, Styled(Syms(p), ops[0].attributes), Flat(ops[1..]));
    case Retain(n) => ApplyRetaining(d, ops[0].attributes, n, Flat(ops[1..]));
    case Delete(n) => ApplyDeleting(d, n, Flat(ops[1..]));
  }
}
