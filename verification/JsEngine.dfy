/** The second engine (crates/gal-server/src/web/ot.js:87-271): the browser indexes its strings by
    UTF-16 code unit, where the server indexes bytes. Its iterator yields the same pieces. */
module JsEngine {
  import opened Basics
  import opened Utf16
  import opened Attributes
  import opened Deltas
  import opened Encodings
  import opened Iterating

  // --- strings of code units --------------------------------------------

  /** Units of the character that starts at `i`, read off the code units. */
  function WidthAt(text: seq<nat>, i: nat): (w: nat)
    requires i < |text|
    ensures 1 <= w <= 2
  {
    if IsHigh(text[i]) && i + 1 < |text| && IsLowUnit(text[i + 1]) then 2 else 1
  }

  /** A part of a string, and the units between its ends. */
  lemma {:induction false} EncodeSlice(s: string, k: nat, m: nat)
    requires k + m <= |s|
    ensures Len16(s[..k]) <= Len16(s[..k + m]) <= Len16(s)
    ensures Encode(s)[Len16(s[..k])..Len16(s[..k + m])] == Encode(s[k..][..m])
  {
    hide Encode, Len16;
    var a, b, c := s[..k], s[k..][..m], s[k + m..];
    assert s == a + b + c && s[..k + m] == a + b;
    EncodeAppend(a + b, c);
    EncodeAppend(a, b);
    Len16Append(a + b, c);
    Len16Append(a, b);
  }

  lemma {:induction false} PairUnits(c: char)
    ensures Width16(c) == 1 ==> !IsHigh(Units(c)[0])
    ensures Width16(c) == 2 ==> IsHigh(Units(c)[0]) && IsLowUnit(Units(c)[1])
  {
  }

  /** Reading the units tells how wide the character is. */
  lemma {:induction false} WidthRead(s: string, k: nat)
    requires k < |s|
    ensures Len16(s[..k]) + Width16(s[k]) == Len16(s[..k + 1]) <= Len16(s)
    ensures WidthAt(Encode(s), Len16(s[..k])) == Width16(s[k])
  {
    hide Encode, Units;
    var a, c, rest := s[..k], s[k], s[k + 1..];
    assert s == a + ([c] + rest) && s[..k + 1] == a + [c];
    EncodeAppend(a, [c] + rest);
    EncodeAppend([c], rest);
    Len16Append(a, [c] + rest);
    Len16Append([c], rest);
    Len16Append(a, [c]);
    EncodeOne(c);
    PairUnits(c);
  }

  lemma {:induction false} EncodeOne(c: char)
    ensures Encode([c]) == Units(c) && Len16([c]) == Width16(c)
  {
    assert [c][1..] == "";
  }

  /** `advanceUtf16` of the browser: the same characters as the server's, counted in units. */
  method AdvanceUnits(text: seq<nat>, from: nat, units: nat, ghost s: string, ghost k: nat) returns (end: nat)
    requires text == Encode(s) && k <= |s| && from == Len16(s[..k])
    ensures end == Len16(s[..k + CharsFor(s[k..], units)]) <= |text|
  {
    hide Encode, Len16, WidthAt;
    var consumed := 0;
    var i := from;
    ghost var j := k;
    PrefixWithin(s, k);
    while i < |text|
      invariant k <= j <= |s| && i == Len16(s[..j]) <= |text|
      invariant consumed < units || j == k + CharsFor(s[k..], units)
      invariant consumed < units ==> CharsFor(s[k..], units) == j - k + CharsFor(s[j..], units - consumed)
      decreases |text| - i
    {
      if consumed >= units {
        return i;
      }
      NotAtEnd(s, j);
      WidthRead(s, j);
      CharsForStep(s, j, units - consumed);
      var width := WidthAt(text, i);
      consumed := consumed + width;
      i := i + width;
      j := j + 1;
    }
    AtEnd(s, j);
    end := i;
  }

  lemma {:induction false} CharsForStep(s: string, j: nat, units: nat)
    requires j < |s| && units > 0
    ensures CharsFor(s[j..], units) == 1 + if units <= Width16(s[j]) then 0 else CharsFor(s[j + 1..], units - Width16(s[j]))
  {
    assert s[j..][1..] == s[j + 1..];
  }

  lemma {:induction false} PrefixWithin(s: string, k: nat)
    requires k <= |s|
    ensures Len16(s[..k]) <= Len16(s)
    ensures k == 0 ==> Len16(s[..k]) == 0
  {
    Len16Split(s, k);
  }

  lemma {:induction false} NotAtEnd(s: string, j: nat)
    requires j <= |s| && Len16(s[..j]) < Len16(s)
    ensures j < |s|
  {
    assert s[..|s|] == s;
  }

  lemma {:induction false} AtEnd(s: string, j: nat)
    requires j <= |s| && Len16(s[..j]) >= Len16(s)
    ensures j == |s| && CharsFor(s[j..], 0) == 0 && forall units: nat :: CharsFor(s[j..], units) == 0
  {
    Len16Split(s, j);
    if j < |s| {
      Len16AtLeast(s[j..]);
    }
  }

  // --- ops --------------------------------------------------------------

  datatype JsKind = JsText(units: seq<nat>) | JsEmbed(value: Value) | JsRetain(n: nat) | JsDelete(n: nat)

  datatype JsOp = JsOp(kind: JsKind, attributes: Attrs) {
    /** `opLength`. */
    function Len(): nat {
      match kind
      case JsText(units) => |units|
      case JsEmbed(_) => 1
      case JsRetain(n) => n
      case JsDelete(n) => n
    }
  }

  /** An op as the browser holds it. */
  function EncodeOp(op: Op): (r: JsOp)
    ensures r.Len() == op.Len()
  {
    match op.kind
    case Insert(Text(s)) => JsOp(JsText(Encode(s)), op.attributes)
    case Insert(Embed(v)) => JsOp(JsEmbed(v), op.attributes)
    case Retain(n) => JsOp(JsRetain(n), op.attributes)
    case Delete(n) => JsOp(JsDelete(n), op.attributes)
  }

  function EncodeOps(ops: seq<Op>): (r: seq<JsOp>)
    ensures |r| == |ops|
    ensures forall i | 0 <= i < |ops| :: r[i] == EncodeOp(ops[i])
  {
    seq(|ops|, i requires 0 <= i < |ops| => EncodeOp(ops[i]))
  }

  /** Nothing is lost on the way to the browser. */
  lemma {:induction false} EncodeOpsInjective(x: seq<Op>, y: seq<Op>)
    requires EncodeOps(x) == EncodeOps(y)
    ensures x == y
  {
    hide Encode, Decode;
    forall i | 0 <= i < |x|
      ensures x[i] == y[i]
    {
      assert EncodeOp(x[i]) == EncodeOps(x)[i] == EncodeOp(y[i]);
      if x[i].IsText() {
        Utf16RoundTrip(x[i].kind.payload.s);
        Utf16RoundTrip(y[i].kind.payload.s);
      }
    }
  }

  class JsIterator {
    const ops: seq<JsOp>
    /** The ops as the server holds them. */
    ghost const source: seq<Op>
    var index: nat
    var offset: nat
    var textOffset: nat

    /** Where the iterator stands, as the server would say it. */
    ghost function At(): Reading
      reads this
    {
      if index >= |source| then StartOf([])
      else Reading(source[index..], offset, if source[index].IsText() then CharsFor(source[index].kind.payload.s, textOffset) else 0)
    }

    /** The position is inside the current op, and the index into its text is where one of its
        characters starts. */
    ghost predicate InPlace()
      reads this
      ensures InPlace() ==> Proper(At())
    {
      && ops == EncodeOps(source) && index <= |ops| && Proper(At())
      && (index == |ops| ==> offset == 0 && textOffset == 0)
      && (index < |ops| ==> if source[index].IsText() then textOffset == Len16(source[index].kind.payload.s[..At().chars]) else textOffset == 0)
    }

    /** Moreover no cut has split a character. */
    ghost predicate Valid()
      reads this
    {
      InPlace() && Aligned(At())
    }

    ghost function Rest(): seq<Op>
      requires InPlace()
      reads this
    {
      RestOf(At())
    }

    constructor (ops: seq<JsOp>, ghost source: seq<Op>)
      requires ops == EncodeOps(source)
      ensures Valid() && At() == StartOf(source) && Rest() == source
    {
      this.ops, this.source := ops, source;
      index, offset, textOffset := 0, 0, 0;
      new;
      assert source[0..] == source;
      AtStart(source);
    }

    /** Units that are left here: `Infinity` once the list is used up. */
    function PeekLength(): (n: nat)
      requires InPlace()
      reads this
      ensures n == Remaining(At())
      ensures Valid() ==> n == if Rest() == [] then INFINITY else Rest()[0].Len()
    {
      if index < |ops| then
        RestLength(At());
        ops[index].Len() - offset
      else INFINITY
    }

    predicate HasNext()
      requires InPlace()
      reads this
      ensures HasNext() <==> HasMore(At())
    {
      PeekLength() < INFINITY
    }

    function PeekKind(): (k: Kind)
      requires InPlace()
      reads this
      ensures k == if At().ops == [] then RetainKind else KindOf(At().ops[0])
      ensures k == if Rest() == [] then RetainKind else KindOf(Rest()[0])
    {
      if index >= |ops| then RetainKind
      else match ops[index].kind
        case JsDelete(_) => DeleteKind
        case JsRetain(_) => RetainKind
        case _ => InsertKind
    }

    /** Take up to `length` units of the current op: the piece the server's iterator takes, as the
        browser holds it, also where the cut splits a character. */
    method Next(length: nat) returns (op: JsOp)
      requires InPlace()
      modifies this
      ensures InPlace()
      ensures old(At()).ops == [] ==> op == JsOp(JsRetain(INFINITY), map[]) && At() == old(At())
      ensures old(At()).ops != [] ==>
                var n := Least(length, Remaining(old(At())));
                op == EncodeOp(Piece(old(At()), n)) && At() == Onward(old(At()), n)
      ensures old(Valid()) && CleanCut(old(Rest()), length) ==> Valid()
      ensures old(Valid()) && old(Rest()) == [] ==> Rest() == []
      ensures old(Valid()) && CleanCut(old(Rest()), length) && old(Rest()) != [] ==>
                var n := Least(length, old(Rest())[0].Len());
                op == EncodeOp(Take(old(Rest())[0], n)) && Rest() == Tail(old(Rest()), n)
    {
      hide Take, Tail, Drop, CharsFor, OnBoundary, Len16, Aligned, Encode;
      if index >= |ops| {
        return JsOp(JsRetain(INFINITY), map[]);
      }
      ghost var here := At();
      var current := ops[index];
      var take := Least(length, current.Len() - offset);
      CutAligned(here, take);
      op := NextPiece(current, take);
      offset := offset + take;
      if offset >= current.Len() {
        index := index + 1;
        offset := 0;
        textOffset := 0;
        assert source[index..] == here.ops[1..];
        if index < |ops| {
          StartOfText(source[index]);
        }
      }
    }

    /** The next `take` units of the current op; the index moves past the text taken. */
    method NextPiece(current: JsOp, take: nat) returns (op: JsOp)
      requires InPlace() && index < |ops| && current == ops[index]
      modifies this`textOffset
      ensures op == EncodeOp(Piece(old(At()), take))
      ensures if source[index].IsText() then
                var s, k := source[index].kind.payload.s, old(At()).chars;
                && k + CharsFor(s[k..], take) <= |s|
                && textOffset == Len16(s[..k + CharsFor(s[k..], take)])
                && CharsFor(s, textOffset) == k + CharsFor(s[k..], take)
              else textOffset == old(textOffset)
    {
      hide CharsFor, OnBoundary, Len16, Encode;
      match current.kind
      case JsDelete(_) => {
        op := JsOp(JsDelete(take), map[]);
      }
      case JsRetain(_) => {
        op := JsOp(JsRetain(take), current.attributes);
      }
      case JsEmbed(v) => {
        op := JsOp(JsEmbed(v), current.attributes);
      }
      case JsText(units) => {
        ghost var s := source[index].kind.payload.s;
        ghost var k := At().chars;
        var start := textOffset;
        var end := AdvanceUnits(units, start, take, s, k);
        EncodeSlice(s, k, CharsFor(s[k..], take));
        CharsForPrefix(s, k + CharsFor(s[k..], take));
        textOffset := end;
        op := JsOp(JsText(units[start..end]), current.attributes);
      }
    }
  }

  lemma {:induction false} StartOfText(op: Op)
    ensures op.IsText() ==> CharsFor(op.kind.payload.s, 0) == 0 && Len16(op.kind.payload.s[..0]) == 0
  {
  }

  // --- the builder ------------------------------------------------------

  predicate IsInsert(op: JsOp) {
    op.kind.JsText? || op.kind.JsEmbed?
  }

  predicate CanMerge(last: JsOp, op: JsOp) {
    last.attributes == op.attributes && ((last.kind.JsText? && op.kind.JsText?) || (last.kind.JsRetain? && op.kind.JsRetain?))
  }

  function Merged(last: JsOp, op: JsOp): JsOp
    requires CanMerge(last, op)
  {
    if op.kind.JsText? then JsOp(JsText(last.kind.units + op.kind.units), op.attributes)
    else JsOp(JsRetain(last.kind.n + op.kind.n), op.attributes)
  }

  function JsJoin(ops: seq<JsOp>, op: JsOp): seq<JsOp> {
    if ops != [] && CanMerge(ops[|ops| - 1], op)
    then ops[..|ops| - 1] + [Merged(ops[|ops| - 1], op)]
    else ops + [op]
  }

  function JsPush(ops: seq<JsOp>, op: JsOp): seq<JsOp> {
    if op.Len() == 0 then ops
    else if ops != [] && ops[|ops| - 1].kind.JsDelete? && op.kind.JsDelete?
    then ops[..|ops| - 1] + [JsOp(JsDelete(ops[|ops| - 1].kind.n + op.kind.n), map[])]
    else if ops != [] && ops[|ops| - 1].kind.JsDelete? && IsInsert(op)
    then JsJoin(ops[..|ops| - 1], op) + [ops[|ops| - 1]]
    else JsJoin(ops, op)
  }

  function JsChop(ops: seq<JsOp>): seq<JsOp> {
    if ops != [] && ops[|ops| - 1].kind.JsRetain? && ops[|ops| - 1].attributes == map[] then ops[..|ops| - 1] else ops
  }

  class JsDelta {
    var ops: seq<JsOp>

    constructor ()
      ensures ops == []
    {
      ops := [];
    }

    /** Add an op at the end of the list, in the canonical form. */
    method Push(newOp: JsOp)
      modifies this
      ensures ops == JsPush(old(ops), newOp)
    {
      if newOp.Len() == 0 {
        return;
      }
      var index := |ops|;
      if index == 0 {
        ops := [newOp];
        return;
      }
      var last := ops[index - 1];
      if newOp.kind.JsDelete? && last.kind.JsDelete? {
        ops := ops[index - 1 := JsOp(JsDelete(last.kind.n + newOp.kind.n), map[])];
        return;
      }
      if last.kind.JsDelete? && IsInsert(newOp) {
        index := index - 1;
        if index == 0 {
          ops := [newOp] + ops;
          return;
        }
        assert ops[index..] == [ops[index]];
        last := ops[index - 1];
      }
      if CanMerge(last, newOp) {
        ops := ops[index - 1 := Merged(last, newOp)];
        return;
      }
      ops := ops[..index] + [newOp] + ops[index..];
    }

    method Chop()
      modifies this
      ensures ops == JsChop(old(ops))
    {
      if |ops| > 0 && ops[|ops| - 1].kind.JsRetain? && ops[|ops| - 1].attributes == map[] {
        ops := ops[..|ops| - 1];
      }
    }
  }

  lemma {:induction false} ChopAlike(ops: seq<Op>)
    ensures JsChop(EncodeOps(ops)) == EncodeOps(Deltas.Chop(ops))
  {
    if ops != [] {
      EncodeOpsLast(ops);
    }
  }

  lemma {:induction false} EncodeOpsLast(ops: seq<Op>)
    requires ops != []
    ensures EncodeOps(ops) == EncodeOps(ops[..|ops| - 1]) + [EncodeOp(ops[|ops| - 1])]
  {
  }

  lemma {:induction false} EncodeOpsPlus(ops: seq<Op>, op: Op)
    ensures EncodeOps(ops + [op]) == EncodeOps(ops) + [EncodeOp(op)]
  {
  }

  lemma {:induction false} KindsAlike(op: Op)
    ensures EncodeOp(op).kind.JsDelete? <==> op.kind.Delete?
    ensures IsInsert(EncodeOp(op)) <==> op.kind.Insert?
    ensures op.kind.Delete? ==> EncodeOp(op).kind.n == op.kind.n
  {
  }

  lemma {:induction false} MergedAlike(last: Op, op: Op)
    ensures CanMerge(EncodeOp(last), EncodeOp(op)) <==> Mergeable(last, op) && !last.kind.Delete?
    ensures Mergeable(last, op) && !last.kind.Delete? ==> Merged(EncodeOp(last), EncodeOp(op)) == EncodeOp(Merge(last, op))
    ensures last.kind.Delete? && op.kind.Delete? && PlainDelete(last) ==>
              EncodeOp(Merge(last, op)) == JsOp(JsDelete(last.kind.n + op.kind.n), map[])
  {
    if last.IsText() && op.IsText() {
      EncodeAppend(last.kind.payload.s, op.kind.payload.s);
    }
  }

  lemma {:induction false} JoinAlike(ops: seq<Op>, op: Op)
    requires ops != [] && ops[|ops| - 1].kind.Delete? ==> !op.kind.Delete?
    ensures JsJoin(EncodeOps(ops), EncodeOp(op)) == EncodeOps(Join(ops, op))
  {
    hide EncodeOp, Merge, Mergeable, CanMerge, Merged;
    EncodeOpsPlus(ops, op);
    if ops != [] {
      var init, last := ops[..|ops| - 1], ops[|ops| - 1];
      EncodeOpsLast(ops);
      MergedAlike(last, op);
      NotBothDeletes(last, op);
      if Mergeable(last, op) {
        EncodeOpsPlus(init, Merge(last, op));
      }
    }
  }

  lemma {:induction false} NotBothDeletes(last: Op, op: Op)
    requires last.kind.Delete? ==> !op.kind.Delete?
    ensures Mergeable(last, op) ==> !last.kind.Delete?
  {
  }

  /** The browser's builder builds the server's list. */
  lemma {:induction false} PushAlike(ops: seq<Op>, op: Op)
    requires PlainDeletes(ops) && PlainDelete(op)
    ensures JsPush(EncodeOps(ops), EncodeOp(op)) == EncodeOps(Deltas.Push(ops, op))
    ensures PlainDeletes(Deltas.Push(ops, op))
  {
    hide EncodeOp, JsJoin, Join, Merge, Mergeable;
    KindsAlike(op);
    PushPlain(ops, op);
    if ops == [] || op.Len() == 0 {
      JoinAlike([], op);
      assert EncodeOps([]) == [];
      if ops == [] {
        JoinAlike(ops, op);
      }
    } else {
      var init, last := ops[..|ops| - 1], ops[|ops| - 1];
      EncodeOpsLast(ops);
      KindsAlike(last);
      if last.kind.Delete? && op.kind.Delete? {
        MergedAlike(last, op);
        JoinDeletes(ops, op);
        EncodeOpsPlus(init, Merge(last, op));
      } else if last.kind.Delete? && op.kind.Insert? {
        JoinAlike(init, op);
        EncodeOpsPlus(Join(init, op), last);
      } else {
        JoinAlike(ops, op);
      }
    }
  }

  lemma {:induction false} JoinDeletes(ops: seq<Op>, op: Op)
    requires ops != [] && ops[|ops| - 1].kind.Delete? && op.kind.Delete?
    ensures Mergeable(ops[|ops| - 1], op) && Join(ops, op) == ops[..|ops| - 1] + [Merge(ops[|ops| - 1], op)]
  {
  }

  lemma {:induction false} PushPlain(ops: seq<Op>, op: Op)
    requires PlainDeletes(ops) && PlainDelete(op)
    ensures PlainDeletes(Deltas.Push(ops, op))
  {
  }
}
