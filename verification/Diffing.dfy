/** `diff_text` (crates/gal-ot/src/delta.rs:713-770): the change from one text to another, found by
    a common prefix and a common suffix that never split a character. */
module Diffing {
  import opened Basics
  import opened Utf16
  import opened Deltas
  import opened Building
  import opened Composing
  import opened Documents
  import opened Iterating

  /** A text as a document. */
  function TextDoc(s: string): seq<Op> {
    if s == "" then [] else [TextOp(s)]
  }

  function TextOp(s: string): Op {
    Op(Insert(Text(s)), map[])
  }

  function TextCells(s: string): seq<Cell> {
    Styled(TextSyms(s), map[])
  }

  /** Keep `kept` units, drop `removed` units, and put `inserted` there. */
  function Replacing(kept: nat, removed: nat, inserted: string): seq<Op> {
    Built([RetainOp(kept), DeleteOp(removed), TextOp(inserted)])
  }

  // --- texts and their cells --------------------------------------------

  lemma {:induction false} TextCellsAppend(s: string, t: string)
    ensures TextCells(s + t) == TextCells(s) + TextCells(t)
  {
    hide TextSyms;
    TextSymsAppend(s, t);
  }

  lemma {:induction false} TextHeadOk(s: string)
    ensures HeadOk(TextCells(s))
  {
    if s != "" {
      assert TextSyms(s)[0] == CharSyms(s[0])[0];
    }
  }

  lemma {:induction false} TextDocContent(s: string)
    ensures IsDocument(TextDoc(s)) && Canonical(TextDoc(s)) && Content(TextDoc(s)) == TextCells(s)
  {
    ContentNothing();
    if s != "" {
      Len16AtLeast(s);
      ContentStep(TextDoc(s));
      assert TextDoc(s)[1..] == [];
      assert TextCells(s) + [] == TextCells(s);
    }
  }

  /** Replacing the middle of a text. */
  lemma {:induction false} ReplacingMeans(a: string, y: string, b: string, x: string)
    ensures var r := Replacing(Len16(a), Len16(y), x);
            && Canonical(r) && Fits(r, TextCells(a + y + b))
            && Effect(TextCells(a + y + b), r) == TextCells(a + x + b)
  {
    hide Effect, TextCells, Built, HeadOk;
    var d := TextCells(a + y + b);
    var ops := [RetainOp(Len16(a)), DeleteOp(Len16(y)), TextOp(x)];
    TextCellsAppend(a + y, b);
    TextCellsAppend(a, y);
    TextCellsAppend(a + x, b);
    TextCellsAppend(a, x);
    TextCellsLen(a);
    TextCellsLen(y);
    TextHeadOk(a + y + b);
    TextHeadOk(y + b);
    TextHeadOk(b);
    TextCellsAppend(y, b);
    ReplacingSteps(TextCells(a), TextCells(y), TextCells(b), x);
    assert d == TextCells(a) + TextCells(y) + TextCells(b);
    BuiltKeeps(ops, d);
    BuiltCanonical(ops);
  }

  lemma {:induction false} TextCellsLen(s: string)
    ensures |TextCells(s)| == Len16(s)
  {
  }

  lemma {:induction false} ReplacingSteps(a: seq<Cell>, y: seq<Cell>, b: seq<Cell>, x: string)
    requires HeadOk(a + y + b) && HeadOk(y + b) && HeadOk(b)
    ensures var ops := [RetainOp(|a|), DeleteOp(|y|), TextOp(x)];
            Fits(ops, a + y + b) && Effect(a + y + b, ops) == a + TextCells(x) + b
  {
    hide Effect, HeadOk, Styled, TextSyms;
    var ops := [RetainOp(|a|), DeleteOp(|y|), TextOp(x)];
    var d := a + y + b;
    assert ops[1..] == [DeleteOp(|y|), TextOp(x)] && ops[1..][1..] == [TextOp(x)] && [TextOp(x)][1..] == [];
    assert d[..|a|] == a && d[|a|..] == y + b && (y + b)[|y|..] == b;
    assert Fits([TextOp(x)], b);
    assert Fits(ops[1..], y + b);
    EffectStep(d, ops);
    EffectStep(y + b, ops[1..]);
    EffectStep(b, [TextOp(x)]);
    EffectNothing(b);
    FormattedBare(a);
    AppendAssociative(a, TextCells(x), b);
  }

  /** Applying the replacement to the one text gives the other, as documents. */
  lemma {:induction false} ReplacingRoundTrip(a: string, y: string, b: string, x: string)
    ensures var r := Replacing(Len16(a), Len16(y), x);
            Fits(r, Content(TextDoc(a + y + b))) && Compose(TextDoc(a + y + b), r) == TextDoc(a + x + b)
  {
    hide Effect, TextCells, Compose, Content, TextDoc, Replacing, Fits;
    var r := Replacing(Len16(a), Len16(y), x);
    ReplacingMeans(a, y, b, x);
    TextDocContent(a + y + b);
    TextDocContent(a + x + b);
    ApplyChange(TextDoc(a + y + b), r);
    CanonicalUnique(Compose(TextDoc(a + y + b), r), TextDoc(a + x + b));
  }

  // --- the scan ---------------------------------------------------------

  /** The first `p` characters agree and the last `q` do, without overlapping in either text. */
  predicate Common(before: string, after: string, p: nat, q: nat) {
    && p + q <= |before| && p + q <= |after|
    && before[..p] == after[..p] && before[|before| - q..] == after[|after| - q..]
  }

  /** Nothing more in common right behind the prefix. */
  predicate Differs(before: string, after: string, p: nat) {
    p >= |before| || p >= |after| || before[p] != after[p]
  }

  /** The first `p` characters and the last `q` agree, and what is between them differs at both ends,
      or one of the two texts has nothing there. */
  predicate Tight(before: string, after: string, p: nat, q: nat) {
    && Common(before, after, p, q)
    && (p + q < |before| && p + q < |after| ==>
          before[p] != after[p] && before[|before| - 1 - q] != after[|after| - 1 - q])
  }

  method CommonPrefix(before: string, after: string) returns (prefix: nat, ghost p: nat)
    ensures Common(before, after, p, 0) && prefix == Len16(before[..p]) && Differs(before, after, p)
  {
    prefix := 0;
    var i: nat := 0;
    while i < |before| && i < |after| && before[i] == after[i]
      invariant i <= |before| && i <= |after| && before[..i] == after[..i] && prefix == Len16(before[..i])
    {
      Len16Append(before[..i], [before[i]]);
      assert before[..i + 1] == before[..i] + [before[i]];
      prefix := prefix + Width16(before[i]);
      i := i + 1;
    }
    p := i;
  }

  method CommonSuffix(before: string, after: string, maxSuffix: nat) returns (suffix: nat, ghost q: nat)
    ensures q <= |before| && q <= |after| && before[|before| - q..] == after[|after| - q..]
    ensures suffix == Len16(before[|before| - q..]) <= maxSuffix
    ensures q == |before| || q == |after| || before[|before| - 1 - q] != after[|after| - 1 - q]
         || suffix + Width16(before[|before| - 1 - q]) > maxSuffix
  {
    suffix := 0;
    var i: nat := 0;
    while suffix < maxSuffix
      invariant i <= |before| && i <= |after| && before[|before| - i..] == after[|after| - i..]
      invariant suffix == Len16(before[|before| - i..]) <= maxSuffix
      decreases |before| - i
    {
      if i == |before| || i == |after| || before[|before| - 1 - i] != after[|after| - 1 - i] {
        break;
      }
      var c := before[|before| - 1 - i];
      if suffix + Width16(c) > maxSuffix {
        break;
      }
      assert before[|before| - 1 - i..] == [c] + before[|before| - i..];
      assert after[|after| - 1 - i..] == [c] + after[|after| - i..];
      suffix := suffix + Width16(c);
      i := i + 1;
    }
    q := i;
  }

  lemma {:induction false} NoOverlapLen(s: string, p: nat, q: nat)
    requires p + q <= |s|
    ensures Len16(s[..p]) + Len16(s[p..|s| - q]) + Len16(s[|s| - q..]) == Len16(s)
  {
    hide Len16;
    Len16Split(s, p);
    Len16Split(s[p..], |s| - q - p);
    assert s[p..][..|s| - q - p] == s[p..|s| - q] && s[p..][|s| - q - p..] == s[|s| - q..];
  }

  /** A prefix and a suffix that together are no longer than the text do not overlap. */
  lemma {:induction false} NoOverlap(s: string, p: nat, q: nat)
    requires p <= |s| && q <= |s| && Len16(s[..p]) + Len16(s[|s| - q..]) <= Len16(s)
    ensures p + q <= |s|
    ensures Len16(s[p..|s| - q]) == Len16(s) - Len16(s[..p]) - Len16(s[|s| - q..])
  {
    hide Len16;
    if p + q > |s| {
      var k := |s| - q;
      Len16Split(s, k);
      assert s[..p] == s[..k] + s[k..p];
      Len16Append(s[..k], s[k..p]);
      Len16AtLeast(s[k..p]);
    } else {
      NoOverlapLen(s, p, q);
    }
  }

  /** The last character of what is between fits behind the prefix. */
  lemma {:induction false} LastFits(s: string, p: nat, q: nat)
    requires p + q < |s|
    ensures Len16(s[..p]) + Len16(s[|s| - q..]) + Width16(s[|s| - 1 - q]) <= Len16(s)
  {
    hide Len16;
    NoOverlapLen(s, p, q);
    var middle := s[p..|s| - q];
    Len16Split(middle, |middle| - 1);
    assert middle[|middle| - 1..] == [s[|s| - 1 - q]];
    OneWide(s[|s| - 1 - q]);
  }

  lemma {:induction false} OneWide(c: char)
    ensures Len16([c]) == Width16(c)
  {
    assert [c][1..] == "";
  }

  /** The scan stops where it has to. */
  lemma {:induction false} ScanTight(before: string, after: string, p: nat, q: nat, maxSuffix: nat)
    requires Common(before, after, p, q) && Differs(before, after, p)
    requires maxSuffix + Len16(before[..p]) == Least(Len16(before), Len16(after))
    requires q == |before| || q == |after| || before[|before| - 1 - q] != after[|after| - 1 - q]
          || Len16(before[|before| - q..]) + Width16(before[|before| - 1 - q]) > maxSuffix
    ensures Tight(before, after, p, q)
  {
    hide Len16;
    if p + q < |before| && p + q < |after| {
      LastFits(before, p, q);
      LastFits(after, p, q);
    }
  }

  /** `utf16_slice`, from the end of the common prefix to the start of the common suffix. */
  method MiddleOf(after: string, start: nat, end: nat, ghost p: nat, ghost q: nat) returns (middle: string)
    requires p + q <= |after| && start == Len16(after[..p]) && end == Len16(after) - Len16(after[|after| - q..])
    ensures middle == after[p..|after| - q]
  {
    hide CharsFor, Len16;
    NoOverlapLen(after, p, q);
    Len16Split(after, |after| - q);
    CharsForPrefix(after, p);
    CharsForPrefix(after, |after| - q);
    middle := Utf16Slice(after, start, end);
  }

  /** The change from `before` to `after`: valid on the one, exactly the other when applied, and it
      touches only what differs. */
  method DiffText(before: string, after: string) returns (delta: seq<Op>, ghost p: nat, ghost q: nat)
    requires Len16(before) <= INFINITY
    ensures Fits(delta, Content(TextDoc(before))) && Canonical(delta)
    ensures Compose(TextDoc(before), delta) == TextDoc(after)
    ensures before == after ==> delta == []
    ensures before != after ==>
              && Tight(before, after, p, q)
              && delta == Replacing(Len16(before[..p]), Len16(before[p..|before| - q]), after[p..|after| - q])
  {
    hide Content, Compose, Fits, Canonical, TextDoc, Len16, Replacing, TextCells;
    if before == after {
      EmptyDiff(before);
      return [], 0, 0;
    }
    var beforeUnits := Utf16Len(before);
    var afterUnits := Utf16Len(after);
    var prefix, suffix;
    prefix, p := CommonPrefix(before, after);
    Len16Split(before, p);
    Len16Split(after, p);
    var maxSuffix := Least(beforeUnits, afterUnits) - prefix;
    suffix, q := CommonSuffix(before, after, maxSuffix);
    NoOverlap(before, p, q);
    NoOverlap(after, p, q);
    ScanTight(before, after, p, q, maxSuffix);
    var removed := beforeUnits - prefix - suffix;
    var inserted := MiddleOf(after, prefix, afterUnits - suffix, p, q);
    delta := Replace(prefix, removed, inserted);
    SplitInThree(before, p, q);
    SplitInThree(after, p, q);
    ReplacingRoundTrip(before[..p], before[p..|before| - q], before[|before| - q..], inserted);
    ReplacingMeans(before[..p], before[p..|before| - q], before[|before| - q..], inserted);
  }

  lemma {:induction false} SplitInThree(s: string, p: nat, q: nat)
    requires p + q <= |s|
    ensures s == s[..p] + s[p..|s| - q] + s[|s| - q..]
  {
  }

  lemma {:induction false} EmptyDiff(s: string)
    ensures Fits([], Content(TextDoc(s))) && Canonical([]) && Compose(TextDoc(s), []) == TextDoc(s)
  {
    hide Content, Compose, TextDoc, TextCells, Effect;
    TextDocContent(s);
    ContentHeadOk(TextDoc(s));
    EffectNothing(Content(TextDoc(s)));
    ApplyChange(TextDoc(s), []);
    CanonicalUnique(Compose(TextDoc(s), []), TextDoc(s));
  }

  method Replace(kept: nat, removed: nat, inserted: string) returns (ops: seq<Op>)
    requires kept + removed <= INFINITY
    ensures ops == Replacing(kept, removed, inserted)
  {
    hide SaturatingPush, Deltas.Push, Deltas.Chop;
    var delta := new Delta();
    ReplacePushes(kept, removed, inserted);
    delta.Push(RetainOp(kept));
    delta.Push(DeleteOp(removed));
    delta.Push(TextOp(inserted));
    delta.Chop();
    ops := delta.ops;
  }

  lemma {:induction false} ReplacePushes(kept: nat, removed: nat, inserted: string)
    requires kept + removed <= INFINITY
    ensures Replacing(kept, removed, inserted)
         == Deltas.Chop(SaturatingPush(SaturatingPush(SaturatingPush([], RetainOp(kept)), DeleteOp(removed)), TextOp(inserted)))
  {
    hide SaturatingPush, Deltas.Push, Deltas.Chop;
    var x, y, z := RetainOp(kept), DeleteOp(removed), TextOp(inserted);
    var one := Deltas.Push([], x);
    var two := Deltas.Push(one, y);
    assert [x, y, z][1..] == [y, z] && [y, z][1..] == [z] && [z][1..] == [];
    assert PushAll([], [x, y, z]) == PushAll(one, [y, z]) == PushAll(two, [z]) == PushAll(Deltas.Push(two, z), []);
    SpanOf([], x);
    SpanOf(one, y);
    SpanOf(two, z);
  }

  lemma {:induction false} SpanOf(ops: seq<Op>, op: Op)
    requires Span(ops) + (if op.kind.Insert? then 0 else op.kind.n) <= INFINITY
    ensures SaturatingPush(ops, op) == Deltas.Push(ops, op)
    ensures Span(Deltas.Push(ops, op)) == Span(ops) + if op.kind.Insert? then 0 else op.kind.n
  {
    hide SaturatingPush, Deltas.Push;
    SpanLast(ops, op);
    SaturatingPushExact(ops, op);
    PushSpan(ops, op);
  }
}
