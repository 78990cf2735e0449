/** `slice` and `invert` on op lists (crates/gal-ot/src/delta.rs:411-426, 628-661), and exactly
    when undoing a change restores the document. */
module Inverting {
  import opened Basics
  import opened Utf16
  import opened Attributes
  import opened Deltas
  import opened Building
  import opened Composing
  import opened Documents

  /** What is left of `ops` after its first `n` units. */
  function SkipUnits(ops: seq<Op>, n: nat): seq<Op>
    decreases |ops|, n
  {
    if ops == [] || n == 0 then ops
    else var k := Least(n, ops[0].Len()); SkipUnits(Tail(ops, k), n - k)
  }

  /** The pieces that make up the first `n` units of `ops`. */
  function TakeUnits(ops: seq<Op>, n: nat): seq<Op>
    decreases |ops|, n
  {
    if ops == [] || n == 0 then []
    else var k := Least(n, ops[0].Len()); [Take(ops[0], k)] + TakeUnits(Tail(ops, k), n - k)
  }

  /** The document between units `start` and `start + n`. */
  function Slice(ops: seq<Op>, start: nat, n: nat): seq<Op> {
    PushAll([], TakeUnits(SkipUnits(ops, start), n))
  }

  /** The ops that undo `op` on the run `base`: one for each piece of the run. */
  function InvertRun(op: Op, base: seq<Op>): (r: seq<Op>)
    ensures |r| == |base|
  {
    seq(|base|, i requires 0 <= i < |base| =>
      if op.kind.Delete? then base[i] else RetainOp(base[i].Len(), Inverted(op.attributes, base[i].attributes)))
  }

  /** The ops `invert` pushes, in order, for a change that starts at unit `at` of `base`. */
  function InvertList(change: seq<Op>, base: seq<Op>, at: nat): seq<Op>
    decreases |change|
  {
    if change == [] then []
    else match change[0].kind
      case Insert(_) => [DeleteOp(change[0].Len())] + InvertList(change[1..], base, at)
      case Retain(n) =>
        (if change[0].attributes == map[] then [RetainOp(n)] else InvertRun(change[0], Slice(base, at, n)))
        + InvertList(change[1..], base, at + n)
      case Delete(n) => InvertRun(change[0], Slice(base, at, n)) + InvertList(change[1..], base, at + n)
  }

  function Invert(change: seq<Op>, base: seq<Op>): seq<Op> {
    Built(InvertList(change, base, 0))
  }

  // --- slicing ----------------------------------------------------------

  /** Where the content may be cut, the text of the first run may be. */
  lemma {:induction false} DocumentBoundary(doc: seq<Op>, n: nat)
    requires IsDocument(doc) && doc != [] && doc[0].IsText() && n <= doc[0].Len()
    requires n == doc[0].Len() || (n <= |Content(doc)| && HeadOk(Content(doc)[n..]))
    ensures OnBoundary(doc[0].kind.payload.s, n)
  {
    hide Content, OnBoundary, TextSyms;
    ContentStep(doc);
    var s := doc[0].kind.payload.s;
    if n < Len16(s) {
      assert Content(doc)[n..][0] == Content(doc)[n] == Styled(TextSyms(s), doc[0].attributes)[n];
    }
    UnitBoundary(s, n);
  }

  lemma {:induction false} TailContent(doc: seq<Op>, n: nat)
    requires IsDocument(doc) && doc != [] && n <= doc[0].Len() && Cuttable(doc, n)
    ensures IsDocument(Tail(doc, n)) && n <= |Content(doc)|
    ensures Content(Tail(doc, n)) == Content(doc)[n..]
    ensures Styled(Syms(Take(doc[0], n).kind.payload), doc[0].attributes) == Content(doc)[..n]
  {
    hide Apply, OnBoundary, TextSyms, CharsFor, Styled, Inserting;
    CutFlat(doc, n);
    ApplyInserting([], Styled(Syms(Take(doc[0], n).kind.payload), doc[0].attributes), Flat(Tail(doc, n)));
  }

  lemma {:induction false} CutDocument(doc: seq<Op>, n: nat)
    requires IsDocument(doc) && doc != [] && n <= doc[0].Len()
    requires n == doc[0].Len() || (0 < n <= |Content(doc)| && HeadOk(Content(doc)[n..]))
    ensures Cuttable(doc, n)
    ensures IsDocument(Tail(doc, n)) && n <= |Content(doc)|
    ensures Content(Tail(doc, n)) == Content(doc)[n..]
    ensures Styled(Syms(Take(doc[0], n).kind.payload), doc[0].attributes) == Content(doc)[..n]
  {
    hide Content, OnBoundary, TextSyms, CharsFor, Styled;
    if doc[0].IsText() {
      DocumentBoundary(doc, n);
    }
    TailContent(doc, n);
  }

  /** Position `k` is past the end of `d`, or splits no character of it. */
  predicate CutOk(d: seq<Cell>, k: nat) {
    k < |d| ==> HeadOk(d[k..])
  }

  lemma {:induction false} TakeContent(doc: seq<Op>, n: nat)
    requires IsDocument(doc) && CutOk(Content(doc), n)
    ensures IsDocument(TakeUnits(doc, n)) && Content(TakeUnits(doc, n)) == Content(doc)[..Least(n, |Content(doc)|)]
    decreases |doc|, n
  {
    hide Content, HeadOk, Styled, Drop;
    ContentNothing();
    if doc == [] || n == 0 {
      assert TakeUnits(doc, n) == [];
    } else {
      var k := FirstCut(doc, n);
      TakeContent(Tail(doc, k), n - k);
      TakeStep(doc, n, k);
    }
  }

  /** The cut that takes the first of `n` units off a document. */
  lemma {:induction false} FirstCut(doc: seq<Op>, n: nat) returns (k: nat)
    requires IsDocument(doc) && doc != [] && 0 < n && CutOk(Content(doc), n)
    ensures k == Least(n, doc[0].Len()) && Cuttable(doc, k) && IsDocument(Tail(doc, k))
    ensures k <= |Content(doc)| && Content(Tail(doc, k)) == Content(doc)[k..] && CutOk(Content(Tail(doc, k)), n - k)
    ensures Content(Tail(doc, k))[Least(n - k, |Content(Tail(doc, k))|)..] == Content(doc)[Least(n, |Content(doc)|)..]
    ensures Styled(Syms(Take(doc[0], k).kind.payload), doc[0].attributes) + Content(Tail(doc, k))[..Least(n - k, |Content(Tail(doc, k))|)]
         == Content(doc)[..Least(n, |Content(doc)|)]
  {
    hide Content, HeadOk, Styled, Take, Drop;
    k := Least(n, doc[0].Len());
    FirstRunWithin(doc);
    CutDocument(doc, k);
    CutPrefix(Content(doc), k, n);
  }

  lemma {:induction false} FirstRunWithin(doc: seq<Op>)
    requires IsDocument(doc) && doc != []
    ensures doc[0].Len() <= |Content(doc)|
  {
    hide Content;
    ContentStep(doc);
  }

  lemma {:induction false} CutPrefix(d: seq<Cell>, k: nat, n: nat)
    requires k <= n && k <= |d|
    ensures n <= |d| ==> d[k..][n - k..] == d[n..] && d[..k] + d[k..][..n - k] == d[..n]
    ensures n >= |d| ==> d[k..][|d| - k..] == d[|d|..] && d[..k] + d[k..][..|d| - k] == d
    ensures CutOk(d, n) ==> CutOk(d[k..], n - k)
  {
  }

  lemma {:induction false} TakeStep(doc: seq<Op>, n: nat, k: nat)
    requires IsDocument(doc) && doc != [] && n > 0 && k == Least(n, doc[0].Len())
    requires IsDocument(TakeUnits(Tail(doc, k), n - k))
    ensures IsDocument(TakeUnits(doc, n))
    ensures Content(TakeUnits(doc, n))
         == Styled(Syms(Take(doc[0], k).kind.payload), doc[0].attributes) + Content(TakeUnits(Tail(doc, k), n - k))
  {
    hide Styled, Syms, Content;
    var rest := TakeUnits(Tail(doc, k), n - k);
    var p := [Take(doc[0], k)] + rest;
    assert p[1..] == rest;
    ContentStep(p);
  }

  lemma {:induction false} SkipContent(doc: seq<Op>, n: nat)
    requires IsDocument(doc) && CutOk(Content(doc), n)
    ensures IsDocument(SkipUnits(doc, n)) && Content(SkipUnits(doc, n)) == Content(doc)[Least(n, |Content(doc)|)..]
    decreases |doc|, n
  {
    hide Content, HeadOk, Styled, Take, Drop;
    ContentNothing();
    if doc == [] || n == 0 {
      assert Content(doc)[0..] == Content(doc);
    } else {
      var k := FirstCut(doc, n);
      SkipContent(Tail(doc, k), n - k);
      assert SkipUnits(doc, n) == SkipUnits(Tail(doc, k), n - k);
    }
  }

  /** Pushing the runs of a document gives a canonical document with the same content. */
  lemma {:induction false} PushedContent(runs: seq<Op>)
    requires IsDocument(runs)
    ensures IsDocument(PushAll([], runs)) && Canonical(PushAll([], runs))
    ensures Content(PushAll([], runs)) == Content(runs)
  {
    DocumentFits(runs);
    assert [] + runs == runs;
    PushAllKeeps([], runs, []);
    PushAllCanonical([], runs);
    FitsNothing(PushAll([], runs));
  }

  /** A slice is a canonical document that holds exactly the units between its bounds; a bound past
      the end is as good as the end. */
  lemma {:induction false} SliceContent(doc: seq<Op>, start: nat, n: nat)
    requires IsDocument(doc) && CutOk(Content(doc), start) && CutOk(Content(doc), start + n)
    ensures IsDocument(Slice(doc, start, n)) && Canonical(Slice(doc, start, n))
    ensures Content(Slice(doc, start, n)) == Content(doc)[Least(start, |Content(doc)|)..Least(start + n, |Content(doc)|)]
  {
    hide Content, HeadOk, IsDocument, Canonical, PushAll, TakeUnits, SkipUnits;
    SkipContent(doc, start);
    SliceOfRest(Content(doc), start, n);
    TakeContent(SkipUnits(doc, start), n);
    PushedContent(TakeUnits(SkipUnits(doc, start), n));
  }

  lemma {:induction false} SliceOfRest(d: seq<Cell>, start: nat, n: nat)
    requires CutOk(d, start + n)
    ensures var rest := d[Least(start, |d|)..];
            CutOk(rest, n) && rest[..Least(n, |rest|)] == d[Least(start, |d|)..Least(start + n, |d|)]
  {
    if start + n < |d| {
      assert d[start..][n..] == d[start + n..];
    }
  }

  // --- undoing ----------------------------------------------------------

  /** A run formatted with `m` and then with what undoes `m`. */
  function Refreshed(d: seq<Cell>, m: Attrs): (r: seq<Cell>)
    ensures |r| == |d|
    ensures forall i | 0 <= i < |d| ::
              r[i] == Cell(d[i].sym, Format(Format(d[i].attributes, m), Inverted(m, d[i].attributes)))
  {
    seq(|d|, i requires 0 <= i < |d| => Cell(d[i].sym, Format(Format(d[i].attributes, m), Inverted(m, d[i].attributes))))
  }

  /** What applying `change` and then its inverse makes of `d`. */
  function Undone(d: seq<Cell>, change: seq<Op>): seq<Cell>
    requires Fits(change, d)
    decreases |change|
  {
    if change == [] then d
    else match change[0].kind
      case Insert(_) => Undone(d, change[1..])
      case Retain(n) => Refreshed(d[..n], change[0].attributes) + Undone(d[n..], change[1..])
      case Delete(n) => d[..n] + Undone(d[n..], change[1..])
  }

  /** Undoing a run that `op` formatted, piece by piece. */
  lemma {:induction false} InvertRetained(op: Op, base: seq<Op>, rest: seq<Op>, e: seq<Cell>)
    requires op.kind.Retain? && IsDocument(base)
    requires Fits(rest, e)
    ensures Fits(InvertRun(op, base) + rest, Formatted(Content(base), op.attributes) + e)
    ensures Effect(Formatted(Content(base), op.attributes) + e, InvertRun(op, base) + rest)
         == Refreshed(Content(base), op.attributes) + Effect(e, rest)
    decreases |base|
  {
    if base == [] {
      InvertNothing(op, rest, e);
    } else {
      InvertRetained(op, base[1..], rest, e);
      InvertPiece(op, base, rest, e, Effect(e, rest));
    }
  }

  lemma {:induction false} InvertNothing(op: Op, rest: seq<Op>, e: seq<Cell>)
    ensures InvertRun(op, []) + rest == rest
    ensures Formatted([], op.attributes) + e == e
    ensures Refreshed([], op.attributes) + Effect(e, rest) == Effect(e, rest)
  {
  }

  lemma {:induction false} InvertPiece(op: Op, base: seq<Op>, rest: seq<Op>, e: seq<Cell>, end: seq<Cell>)
    requires op.kind.Retain? && IsDocument(base) && base != [] && HeadOk(e)
    requires Fits(InvertRun(op, base[1..]) + rest, Formatted(Content(base[1..]), op.attributes) + e)
    requires Effect(Formatted(Content(base[1..]), op.attributes) + e, InvertRun(op, base[1..]) + rest)
          == Refreshed(Content(base[1..]), op.attributes) + end
    ensures Fits(InvertRun(op, base) + rest, Formatted(Content(base), op.attributes) + e)
    ensures Effect(Formatted(Content(base), op.attributes) + e, InvertRun(op, base) + rest)
         == Refreshed(Content(base), op.attributes) + end
  {
    hide Content, HeadOk, Fits, Effect, Refreshed, Formatted;
    var ops := InvertRun(op, base) + rest;
    assert ops[0] == RetainOp(base[0].Len(), Inverted(op.attributes, base[0].attributes));
    assert ops[1..] == InvertRun(op, base[1..]) + rest;
    ContentStep(base);
    ContentHeadOk(base);
    var c := Styled(Syms(base[0].kind.payload), base[0].attributes);
    UndoPiece(c, Content(base[1..]), base[0].attributes, op.attributes, e, ops, end);
  }

  /** One piece of a formatted run: `c` carries `base` throughout. */
  lemma {:induction false} UndoPiece(c: seq<Cell>, tail: seq<Cell>, base: Attrs, m: Attrs, e: seq<Cell>,
        ops: seq<Op>, end: seq<Cell>)
    requires forall i | 0 <= i < |c| :: c[i].attributes == base
    requires HeadOk(c + tail) && HeadOk(e)
    requires ops != [] && ops[0] == RetainOp(|c|, Inverted(m, base))
    requires Fits(ops[1..], Formatted(tail, m) + e)
    requires Effect(Formatted(tail, m) + e, ops[1..]) == Refreshed(tail, m) + end
    ensures Fits(ops, Formatted(c + tail, m) + e)
    ensures Effect(Formatted(c + tail, m) + e, ops) == Refreshed(c + tail, m) + end
  {
    var d := Formatted(c + tail, m) + e;
    FormattedSplit(c, tail, m, e);
    assert d[0..] == d;
    EffectStep(d, ops);
    RefreshedPiece(c, tail, base, m);
    AppendAssociative(Refreshed(c, m), Refreshed(tail, m), end);
  }

  lemma {:induction false} FormattedSplit(c: seq<Cell>, tail: seq<Cell>, m: Attrs, e: seq<Cell>)
    requires HeadOk(c + tail) && HeadOk(e)
    ensures (Formatted(c + tail, m) + e)[..|c|] == Formatted(c, m)
    ensures (Formatted(c + tail, m) + e)[|c|..] == Formatted(tail, m) + e
    ensures HeadOk(Formatted(c + tail, m) + e)
  {
    if c + tail != [] {
      assert (Formatted(c + tail, m) + e)[0] == Formatted(c + tail, m)[0];
    }
  }

  lemma {:induction false} RefreshedPiece(c: seq<Cell>, tail: seq<Cell>, base: Attrs, m: Attrs)
    requires forall i | 0 <= i < |c| :: c[i].attributes == base
    ensures Formatted(Formatted(c, m), Inverted(m, base)) == Refreshed(c, m)
    ensures Refreshed(c + tail, m) == Refreshed(c, m) + Refreshed(tail, m)
  {
  }

  /** Undoing a deletion re-inserts the deleted pieces. */
  lemma {:induction false} InvertDeleted(op: Op, base: seq<Op>, rest: seq<Op>, e: seq<Cell>)
    requires op.kind.Delete? && IsDocument(base)
    requires Fits(rest, e)
    ensures Fits(InvertRun(op, base) + rest, e)
    ensures Effect(e, InvertRun(op, base) + rest) == Content(base) + Effect(e, rest)
  {
    assert InvertRun(op, base) == base;
    FlatAppend(base, rest);
    InsertsFirst(base, rest, e);
  }

  lemma {:induction false} InsertsFirst(doc: seq<Op>, rest: seq<Op>, e: seq<Cell>)
    requires IsDocument(doc) && Fits(rest, e)
    ensures Fits(doc + rest, e)
    ensures Effect(e, doc + rest) == Content(doc) + Effect(e, rest)
    decreases |doc|
  {
    if doc == [] {
      assert doc + rest == rest;
      assert Content(doc) + Effect(e, rest) == Effect(e, rest);
    } else {
      assert (doc + rest)[1..] == doc[1..] + rest;
      InsertsFirst(doc[1..], rest, e);
      EffectStep(e, doc + rest);
      ContentStep(doc);
      AppendAssociative(Styled(Syms(doc[0].kind.payload), doc[0].attributes), Content(doc[1..]), Effect(e, rest));
    }
  }

  /** `ops` fits what `change` makes of `d`, and undoes it unit by unit. */
  predicate Undoes(ops: seq<Op>, change: seq<Op>, d: seq<Cell>)
    requires Fits(change, d)
  {
    Fits(ops, Effect(d, change)) && Effect(Effect(d, change), ops) == Undone(d, change)
  }

  lemma {:induction false} InvertListMeans(change: seq<Op>, base: seq<Op>, at: nat)
    requires IsDocument(base) && at <= |Content(base)| && Fits(change, Content(base)[at..])
    ensures Undoes(InvertList(change, base, at), change, Content(base)[at..])
    decreases |change|, 1
  {
    if change == [] {
      assert InvertList(change, base, at) == [];
    } else if change[0].kind.Insert? {
      InvertListMeans(change[1..], base, at);
      UndoesInsert(change, InvertList(change[1..], base, at), Content(base)[at..]);
    } else {
      InvertSpanMeans(change, base, at, change[0].kind.n, Content(base)[at..]);
    }
  }

  lemma {:induction false} InvertSpanMeans(change: seq<Op>, base: seq<Op>, at: nat, n: nat, d: seq<Cell>)
    requires IsDocument(base) && at <= |Content(base)| && d == Content(base)[at..] && Fits(change, d)
    requires change != [] && !change[0].kind.Insert? && n == change[0].kind.n
    ensures Undoes(InvertList(change, base, at), change, d)
    decreases |change|, 0
  {
    hide Content, HeadOk, Undoes, Slice, InvertRun;
    SliceAt(base, at, n, d);
    InvertListMeans(change[1..], base, at + n);
    var rest := InvertList(change[1..], base, at + n);
    if change[0].kind.Retain? {
      UndoesRetain(change, Slice(base, at, n), rest, d);
    } else {
      UndoesDelete(change, Slice(base, at, n), rest, d);
    }
  }

  lemma {:induction false} SliceAt(base: seq<Op>, at: nat, n: nat, d: seq<Cell>)
    requires IsDocument(base) && at <= |Content(base)| && d == Content(base)[at..]
    requires n <= |d| && HeadOk(d) && HeadOk(d[n..])
    ensures IsDocument(Slice(base, at, n)) && Content(Slice(base, at, n)) == d[..n]
    ensures Content(base)[at + n..] == d[n..]
  {
    assert Content(base)[at + n..] == d[n..];
    SliceContent(base, at, n);
    assert Content(base)[at..at + n] == d[..n];
  }

  lemma {:induction false} UndoesInsert(change: seq<Op>, rest: seq<Op>, d: seq<Cell>)
    requires change != [] && change[0].kind.Insert? && Fits(change, d) && Undoes(rest, change[1..], d)
    ensures Undoes([DeleteOp(change[0].Len())] + rest, change, d)
  {
    var e := Effect(d, change);
    var ops := [DeleteOp(change[0].Len())] + rest;
    EffectStep(d, change);
    EffectHeadOk(d, change);
    assert ops[1..] == rest;
    assert e[change[0].Len()..] == Effect(d, change[1..]);
    EffectStep(e, ops);
  }

  lemma {:induction false} UndoesDelete(change: seq<Op>, slice: seq<Op>, rest: seq<Op>, d: seq<Cell>)
    requires change != [] && change[0].kind.Delete? && Fits(change, d)
    requires IsDocument(slice) && Content(slice) == d[..change[0].kind.n]
    requires Undoes(rest, change[1..], d[change[0].kind.n..])
    ensures Undoes(InvertRun(change[0], slice) + rest, change, d)
  {
    EffectStep(d, change);
    InvertDeleted(change[0], slice, rest, Effect(d, change));
  }

  lemma {:induction false} UndoesRetain(change: seq<Op>, slice: seq<Op>, rest: seq<Op>, d: seq<Cell>)
    requires change != [] && change[0].kind.Retain? && Fits(change, d)
    requires IsDocument(slice) && Content(slice) == d[..change[0].kind.n]
    requires Undoes(rest, change[1..], d[change[0].kind.n..])
    ensures var ops := if change[0].attributes == map[] then [RetainOp(change[0].kind.n)] else InvertRun(change[0], slice);
            Undoes(ops + rest, change, d)
  {
    var n := change[0].kind.n;
    var e := Effect(d[n..], change[1..]);
    EffectStep(d, change);
    if change[0].attributes == map[] {
      FormattedBare(d[..n]);
      RefreshedBare(d[..n]);
      EffectHeadOk(d, change);
      UndoesBareRetain([RetainOp(n)] + rest, rest, d[..n], e, n);
    } else {
      InvertRetained(change[0], slice, rest, e);
    }
  }

  lemma {:induction false} UndoesBareRetain(ops: seq<Op>, rest: seq<Op>, c: seq<Cell>, e: seq<Cell>, n: nat)
    requires ops == [RetainOp(n)] + rest && |c| == n
    requires HeadOk(c + e) && Fits(rest, e)
    ensures Fits(ops, c + e) && Effect(c + e, ops) == c + Effect(e, rest)
  {
    assert ops[1..] == rest;
    assert (c + e)[..n] == c && (c + e)[n..] == e;
    EffectStep(c + e, ops);
    FormattedBare(c);
  }

  lemma {:induction false} RefreshedBare(d: seq<Cell>)
    ensures Refreshed(d, map[]) == d
  {
    forall i | 0 <= i < |d| ensures Refreshed(d, map[])[i] == d[i] {
      FormatWithNothing(d[i].attributes);
      assert Inverted(map[], d[i].attributes) == map[];
    }
  }

  /** No unit that `change` formats stores an explicit null under one of the keys it sets. */
  predicate NoNullFormatted(d: seq<Cell>, change: seq<Op>)
    requires Fits(change, d)
    decreases |change|
  {
    change != [] ==>
      match change[0].kind
      case Insert(_) => NoNullFormatted(d, change[1..])
      case Retain(n) =>
        && (forall i | 0 <= i < n :: NoNullUnder(change[0].attributes, d[i].attributes))
        && NoNullFormatted(d[n..], change[1..])
      case Delete(n) => NoNullFormatted(d[n..], change[1..])
  }

  lemma {:induction false} UndoneIff(d: seq<Cell>, change: seq<Op>)
    requires Fits(change, d)
    ensures |Undone(d, change)| == |d|
    ensures Undone(d, change) == d <==> NoNullFormatted(d, change)
    decreases |change|
  {
    if change != [] {
      if change[0].kind.Insert? {
        UndoneIff(d, change[1..]);
      } else {
        var n, m := change[0].kind.n, change[0].attributes;
        UndoneIff(d[n..], change[1..]);
        assert d == d[..n] + d[n..];
        if change[0].kind.Retain? {
          var r := Refreshed(d[..n], m);
          RefreshedIff(d[..n], m);
          if Undone(d, change) == d {
            assert r == Undone(d, change)[..n] == d[..n];
            assert Undone(d[n..], change[1..]) == Undone(d, change)[n..];
          }
        } else if Undone(d, change) == d {
          assert Undone(d[n..], change[1..]) == Undone(d, change)[n..];
        }
      }
    }
  }

  lemma {:induction false} RefreshedIff(d: seq<Cell>, m: Attrs)
    ensures Refreshed(d, m) == d <==> forall i | 0 <= i < |d| :: NoNullUnder(m, d[i].attributes)
  {
    forall i | 0 <= i < |d|
      ensures Refreshed(d, m)[i] == d[i] <==> NoNullUnder(m, d[i].attributes)
    {
      InvertExactIff(d[i].attributes, m);
    }
  }

  /** Inverting a change: the inverse applies after it, and brings the content back exactly
      when the change formatted no explicit null. */
  lemma {:induction false} InvertMeans(change: seq<Op>, base: seq<Op>)
    requires IsDocument(base) && Fits(change, Content(base))
    ensures Fits(Invert(change, base), Effect(Content(base), change))
    ensures Canonical(Invert(change, base))
    ensures Effect(Effect(Content(base), change), Invert(change, base)) == Content(base)
            <==> NoNullFormatted(Content(base), change)
  {
    assert Content(base)[0..] == Content(base);
    InvertListMeans(change, base, 0);
    BuiltKeeps(InvertList(change, base, 0), Effect(Content(base), change));
    BuiltCanonical(InvertList(change, base, 0));
    UndoneIff(Content(base), change);
  }

  /** Undo gives back the very op list exactly when that list was canonical and the change
      formatted no explicit null. */
  lemma {:induction false} UndoExactIff(base: seq<Op>, change: seq<Op>)
    requires IsDocument(base) && Fits(change, Content(base)) && AppliesExactly(base, change)
    ensures Compose(Compose(base, change), Invert(change, base)) == base
            <==> Canonical(base) && NoNullFormatted(Content(base), change)
  {
    hide Compose, Invert, Content, Effect, NoNullFormatted;
    InvertMeans(change, base);
    AppliedDocument(base, change);
    AppliedDocument(Compose(base, change), Invert(change, base));
    if Canonical(base) && NoNullFormatted(Content(base), change) {
      CanonicalUnique(Compose(Compose(base, change), Invert(change, base)), base);
    }
  }

  // --- documents that hold no explicit null -----------------------------

  predicate NullFreeCells(d: seq<Cell>) {
    forall i | 0 <= i < |d| :: NullFree(d[i].attributes)
  }

  predicate NullFreeInserts(ops: seq<Op>) {
    forall i | 0 <= i < |ops| && ops[i].kind.Insert? :: NullFree(ops[i].attributes)
  }

  lemma {:induction false} NullFreeFormats(d: seq<Cell>, change: seq<Op>)
    requires Fits(change, d) && NullFreeCells(d)
    ensures NoNullFormatted(d, change)
    decreases |change|
  {
    if change != [] {
      NullFreeFormats(if change[0].kind.Insert? then d else d[change[0].kind.n..], change[1..]);
      if change[0].kind.Retain? {
        forall i | 0 <= i < change[0].kind.n ensures NoNullUnder(change[0].attributes, d[i].attributes) {
          FormatKeepsNullFree(d[i].attributes, change[0].attributes);
        }
      }
    }
  }

  /** Changes whose inserts are null-free keep a null-free document null-free. */
  lemma {:induction false} NullFreeKept(d: seq<Cell>, change: seq<Op>)
    requires Fits(change, d) && NullFreeCells(d) && NullFreeInserts(change)
    ensures NullFreeCells(Effect(d, change))
    decreases |change|
  {
    hide Effect, Styled, Formatted, Format, HeadOk;
    EffectNothing(d);
    if change != [] {
      EffectStep(d, change);
      NullFreeKept(if change[0].kind.Insert? then d else d[change[0].kind.n..], change[1..]);
      if change[0].kind.Retain? {
        var n, m := change[0].kind.n, change[0].attributes;
        forall i | 0 <= i < n ensures NullFree(Formatted(d[..n], m)[i].attributes) {
          FormatKeepsNullFree(d[i].attributes, m);
        }
      }
    }
  }

  /** The law as the tests state it: on a canonical document without explicit nulls, every
      valid change followed by its inverse is the identity on op lists. */
  lemma {:induction false} UndoExact(base: seq<Op>, change: seq<Op>)
    requires IsDocument(base) && Canonical(base) && NullFreeCells(Content(base))
    requires Fits(change, Content(base)) && NoEmptyOp(change)
    ensures Compose(Compose(base, change), Invert(change, base)) == base
  {
    NullFreeFormats(Content(base), change);
    AppliedDocument(base, change);
    UndoExactIff(base, change);
  }

  /** An explicit null is not brought back: an insert may carry one, and un-formatting that
      text and undoing it loses the null. */
  lemma {:induction false} UndoLosesNull()
    ensures var base := [Op(Insert(Text("a")), map["bold" := Null])];
            var change := [RetainOp(1, map["bold" := Null])];
            && IsDocument(base) && Canonical(base) && Fits(change, Content(base)) && NoEmptyOp(change)
            && Compose(Compose(base, change), Invert(change, base)) != base
  {
    hide Compose, Invert, Styled;
    var base := [Op(Insert(Text("a")), map["bold" := Null])];
    var change := [RetainOp(1, map["bold" := Null])];
    assert Len16("a") == 1 by {
      assert "a"[1..] == "";
    }
    ContentStep(base);
    assert base[1..] == [];
    assert Content(base)[0] == Styled(Syms(Text("a")), map["bold" := Null])[0];
    assert change[1..] == [];
    assert |Content(base)| == 1;
    assert TextSyms("a")[0] == CharSyms('a')[0];
    assert Fits(change[1..], Content(base)[1..]);
    assert !NoNullUnder(change[0].attributes, Content(base)[0].attributes) by {
      assert "bold" in change[0].attributes && "bold" in Content(base)[0].attributes;
    }
    AppliedDocument(base, change);
    UndoExactIff(base, change);
  }
}
