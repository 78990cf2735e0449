/** `validate` (crates/gal-ot/src/delta.rs:663-711): the check every op passes before it is
    applied, on the plain text of the document. */
module Validating {
  import opened Basics
  import opened Utf16
  import opened Deltas
  import opened Building
  import opened Documents
  import opened Iterating

  datatype Outcome = Accepted | PastEnd(needed: nat, docLen: nat) | SplitCharacter(offset: nat)

  /** The object replacement character an embed collapses to. */
  const PLACEHOLDER: char := '\U{FFFC}'

  /** The text one run of a document stands for. */
  function RunText(op: Op): string {
    match op.kind
    case Insert(Text(s)) => s
    case Insert(Embed(_)) => [PLACEHOLDER]
    case _ => ""
  }

  function PlainText(doc: seq<Op>): string {
    if doc == [] then ""
    else RunText(doc[0]) + PlainText(doc[1..])
  }

  /** The verdict on a change, read off the content: the first span that runs past the end, or
      that ends inside a character, is the reason for refusing it. */
  function Check(change: seq<Op>, d: seq<Cell>, cursor: nat, docLen: nat): Outcome
    decreases |change|
  {
    if change == [] then Accepted
    else match change[0].kind
      case Insert(_) => Check(change[1..], d, cursor, docLen)
      case _ =>
        var n := change[0].kind.n;
        if n > |d| then PastEnd(SaturatingAdd(cursor, n), docLen)
        else if !HeadOk(d[n..]) then SplitCharacter(SaturatingAdd(cursor, n))
        else Check(change[1..], d[n..], cursor + n, docLen)
  }

  /** Accepted are exactly the changes that stay inside the document and end every retain and
      delete on a character boundary. */
  lemma {:induction false} AcceptedIff(change: seq<Op>, d: seq<Cell>, cursor: nat, docLen: nat)
    requires HeadOk(d)
    ensures Check(change, d, cursor, docLen) == Accepted <==> Fits(change, d)
    decreases |change|
  {
    if change != [] {
      if change[0].kind.Insert? {
        AcceptedIff(change[1..], d, cursor, docLen);
      } else {
        var n := change[0].kind.n;
        if n <= |d| && HeadOk(d[n..]) {
          AcceptedIff(change[1..], d[n..], cursor + n, docLen);
        }
      }
    }
  }

  /** What a verdict says of the op at `k`: it is the first at fault, everything before it being fine,
      and how far it reaches is past the end, or splits a character. */
  predicate Blames(verdict: Outcome, change: seq<Op>, d: seq<Cell>, cursor: nat, k: nat)
    requires cursor <= |d|
  {
    && k < |change| && Fits(change[..k], d[cursor..])
    && var reach := cursor + Span(change[..k + 1]);
    if verdict.PastEnd? then verdict == PastEnd(Least(reach, INFINITY), |d|) && reach > |d|
    else verdict == SplitCharacter(reach) && reach < |d| && !HeadOk(d[reach..])
  }

  lemma {:induction false} BlamesFirst(verdict: Outcome, op: Op, rest: seq<Op>, d: seq<Cell>, cursor: nat)
    requires !op.kind.Insert? && cursor <= |d| < INFINITY && HeadOk(d[cursor..])
    requires var reach := cursor + op.kind.n;
             if reach > |d| then verdict == PastEnd(SaturatingAdd(cursor, op.kind.n), |d|)
             else verdict == SplitCharacter(reach) && !HeadOk(d[reach..])
    ensures Blames(verdict, [op] + rest, d, cursor, 0)
  {
    hide HeadOk;
    var change := [op] + rest;
    assert change[..1] == [op] && [op][1..] == [] && Span([op]) == op.kind.n;
    if cursor + op.kind.n <= |d| {
      EndOk(d, cursor + op.kind.n);
    }
  }

  lemma {:induction false} BlamesLater(verdict: Outcome, op: Op, rest: seq<Op>, d: seq<Cell>, cursor: nat, k: nat)
    requires var n := if op.kind.Insert? then 0 else op.kind.n;
             cursor <= cursor + n <= |d| && HeadOk(d[cursor..]) && Blames(verdict, rest, d, cursor + n, k)
    requires op.kind.Insert? || HeadOk(d[cursor + op.kind.n..])
    ensures Blames(verdict, [op] + rest, d, cursor, k + 1)
  {
    hide HeadOk;
    var change := [op] + rest;
    assert change[..k + 1] == [op] + rest[..k] && change[..k + 2] == [op] + rest[..k + 1];
    assert ([op] + rest[..k])[1..] == rest[..k] && ([op] + rest[..k + 1])[1..] == rest[..k + 1];
    if !op.kind.Insert? {
      assert d[cursor..][op.kind.n..] == d[cursor + op.kind.n..];
    }
  }

  /** A refusal names the first op at fault. */
  lemma {:induction false} RefusalMeans(change: seq<Op>, d: seq<Cell>, cursor: nat) returns (k: nat)
    requires cursor <= |d| < INFINITY && HeadOk(d[cursor..])
    ensures var verdict := Check(change, d[cursor..], cursor, |d|);
            verdict != Accepted ==> Blames(verdict, change, d, cursor, k)
    decreases |change|
  {
    hide HeadOk, Blames;
    k := 0;
    if change != [] {
      var op, rest := change[0], change[1..];
      assert change == [op] + rest;
      var n := if op.kind.Insert? then 0 else op.kind.n;
      if n <= |d| - cursor {
        assert d[cursor..][n..] == d[cursor + n..];
      }
      if op.kind.Insert? || (n <= |d| - cursor && HeadOk(d[cursor + n..])) {
        k := RefusalMeans(rest, d, cursor + n);
        if Check(rest, d[cursor + n..], cursor + n, |d|) != Accepted {
          BlamesLater(Check(rest, d[cursor + n..], cursor + n, |d|), op, rest, d, cursor, k);
          k := k + 1;
        }
      } else {
        BlamesFirst(Check(change, d[cursor..], cursor, |d|), op, rest, d, cursor);
      }
    }
  }

  lemma {:induction false} EndOk(d: seq<Cell>, n: nat)
    requires n <= |d| && !HeadOk(d[n..])
    ensures n < |d|
  {
  }

  // --- the same verdict on text -----------------------------------------

  /** `d` has the units of `text`, as far as character boundaries go. */
  predicate SameShape(d: seq<Cell>, text: string) {
    |d| == Len16(text) && forall i | 0 <= i < |d| :: IsLow(d[i].sym) <==> IsLow(TextSyms(text)[i])
  }

  /** A unit of content as plain text shows it. */
  function Shown(sym: Sym): Sym {
    if sym.Object? then Char('\U{FFFC}', Whole) else sym
  }

  /** `text` reads, unit by unit, as the content `d`. */
  predicate ReadsAs(d: seq<Cell>, text: string) {
    |d| == Len16(text) && forall i | 0 <= i < |d| :: TextSyms(text)[i] == Shown(d[i].sym)
  }

  lemma {:induction false} ReadsAppend(d: seq<Cell>, e: seq<Cell>, s: string, t: string)
    requires ReadsAs(d, s) && ReadsAs(e, t)
    ensures ReadsAs(d + e, s + t)
  {
    hide TextSyms, Len16, Shown;
    TextSymsAppend(s, t);
    Len16Append(s, t);
  }

  lemma {:induction false} RunReads(op: Op)
    requires op.kind.Insert?
    ensures ReadsAs(Styled(Syms(op.kind.payload), op.attributes), RunText(op))
  {
    if op.IsText() {
      TextSymsAreChars(op.kind.payload.s);
    } else {
      assert [PLACEHOLDER][1..] == "";
      assert TextSyms([PLACEHOLDER]) == CharSyms(PLACEHOLDER) + TextSyms("");
    }
  }

  /** The plain text is the content, with the object replacement character for every embed. */
  lemma {:induction false} PlainTextReads(doc: seq<Op>)
    requires IsDocument(doc)
    ensures ReadsAs(Content(doc), PlainText(doc))
  {
    hide Styled, Syms, RunText, ReadsAs;
    if doc == [] {
      ContentNothing();
      NothingReads();
    } else {
      PlainTextReads(doc[1..]);
      ContentStep(doc);
      RunReads(doc[0]);
      ReadsAppend(Styled(Syms(doc[0].kind.payload), doc[0].attributes), Content(doc[1..]), RunText(doc[0]), PlainText(doc[1..]));
    }
  }

  lemma {:induction false} NothingReads()
    ensures ReadsAs([], "")
  {
  }

  lemma {:induction false} PlainTextShape(doc: seq<Op>)
    requires IsDocument(doc)
    ensures SameShape(Content(doc), PlainText(doc))
  {
    hide Content, TextSyms, Len16;
    PlainTextReads(doc);
  }

  lemma {:induction false} BoundaryUnit(s: string, n: nat)
    requires n < Len16(s) && OnBoundary(s, n)
    ensures !IsLow(TextSyms(s)[n])
  {
    if n > 0 {
      var w := Width16(s[0]);
      assert s[..CharsFor(s, n)][1..] == s[1..][..CharsFor(s, n) - 1];
      if n > w {
        BoundaryUnit(s[1..], n - w);
      } else {
        assert s[..1][1..] == "";
        if s[1..] != "" {
          assert TextSyms(s)[w] == TextSyms(s[1..])[0] == CharSyms(s[1])[0];
        }
      }
    }
  }

  /** A boundary of the content is a boundary of the text, and past it the shapes still agree. */
  lemma {:induction false} ShapeBoundary(d: seq<Cell>, text: string, n: nat)
    requires SameShape(d, text) && n <= |d|
    ensures HeadOk(d[n..]) <==> OnBoundary(text, n)
    ensures OnBoundary(text, n) ==> SameShape(d[n..], text[CharsFor(text, n)..])
  {
    if n < |d| {
      assert d[n..][0] == d[n];
      if OnBoundary(text, n) {
        BoundaryUnit(text, n);
      } else if HeadOk(d[n..]) {
        UnitBoundary(text, n);
      }
    } else {
      UnitBoundary(text, n);
    }
    if OnBoundary(text, n) {
      var k := CharsFor(text, n);
      assert text == text[..k] + text[k..];
      TextSymsAppend(text[..k], text[k..]);
      Len16Append(text[..k], text[k..]);
    }
  }

  /** A request that stops before the end of the string and not between characters ends inside one. */
  lemma {:induction false} StepsInside(s: string, n: nat)
    requires s != "" && n >= Width16(s[0])
    ensures OnBoundary(s, n) <==> OnBoundary(s[1..], n - Width16(s[0]))
    ensures CharsFor(s, n) == 1 + CharsFor(s[1..], n - Width16(s[0]))
  {
    var w := Width16(s[0]);
    var k := CharsFor(s, n);
    if n == w {
      assert CharsFor(s[1..], 0) == 0;
    }
    assert s[..k][1..] == s[1..][..k - 1];
  }

  method ToPlainText(doc: seq<Op>) returns (text: string)
    ensures text == PlainText(doc)
  {
    text := "";
    for i := 0 to |doc|
      invariant text + PlainText(doc[i..]) == PlainText(doc)
    {
      AppendAssociative(text, RunText(doc[i]), PlainText(doc[i..][1..]));
      match doc[i].kind
      case Insert(Text(s)) => {
        text := text + s;
      }
      case Insert(Embed(_)) => {
        text := text + [PLACEHOLDER];
      }
      case _ => {
        assert text + "" == text;
      }
      assert doc[i..][1..] == doc[i + 1..];
    }
    assert text + "" == text;
  }

  /** `remaining` units from character `i` is where `span` units from the start of `s` is. */
  ghost predicate Reaches(s: string, span: nat, i: nat, remaining: nat) {
    && i <= |s| && remaining <= span
    && (span > Len16(s) <==> remaining > Len16(s[i..]))
    && (OnBoundary(s, span) <==> OnBoundary(s[i..], remaining))
    && CharsFor(s, span) == i + CharsFor(s[i..], remaining)
    && Len16(s[..i]) + remaining == span
  }

  lemma {:induction false} ReachesStart(s: string, span: nat)
    ensures Reaches(s, span, 0, span)
  {
    assert s[0..] == s;
  }

  lemma {:induction false} ReachesStep(s: string, span: nat, i: nat, remaining: nat)
    requires Reaches(s, span, i, remaining) && i < |s| && Width16(s[i]) <= remaining
    ensures Reaches(s, span, i + 1, remaining - Width16(s[i]))
  {
    hide OnBoundary, CharsFor;
    assert s[i..][1..] == s[i + 1..];
    StepsInside(s[i..], remaining);
    Len16Append(s[..i], [s[i]]);
    assert s[..i + 1] == s[..i] + [s[i]];
  }

  /** Units run out at the end of the text, inside a character, or exactly between two. */
  lemma {:induction false} ReachesEnd(s: string, span: nat, i: nat, remaining: nat)
    requires Reaches(s, span, i, remaining)
    ensures i == |s| && remaining > 0 ==> span > Len16(s)
    ensures i < |s| && 0 < remaining < Width16(s[i]) ==> span <= Len16(s) && !OnBoundary(s, span)
    ensures remaining == 0 ==> span <= Len16(s) && OnBoundary(s, span) && CharsFor(s, span) == i
  {
    if i < |s| && 0 < remaining < Width16(s[i]) {
      assert CharsFor(s[i..], remaining) == 1;
      assert s[i..][..1][1..] == "";
    }
  }

  /** Walk one span of `span` units through `text` from byte `byte`, where character `k` starts. */
  method WalkSpan(text: string, byte: nat, cursor: nat, span: nat, docLen: nat, ghost k: nat) returns (byte': nat,
        cursor': nat, verdict: Outcome)
    requires k <= |text| && byte == Len8(text[..k])
    ensures span > Len16(text[k..]) ==> verdict == PastEnd(SaturatingAdd(cursor, span), docLen)
    ensures span <= Len16(text[k..]) && !OnBoundary(text[k..], span) ==> verdict == SplitCharacter(SaturatingAdd(cursor, span))
    ensures span <= Len16(text[k..]) && OnBoundary(text[k..], span) ==>
              verdict == Accepted && cursor' == cursor + span && byte' == Len8(text[..k + CharsFor(text[k..], span)])
  {
    hide Reaches, OnBoundary, CharsFor, Len16;
    CharIndexOfPrefix(text, k);
    var i := CharIndex(text, byte);
    var remaining: nat := span;
    byte', cursor' := byte, cursor;
    ghost var s := text[k..];
    ReachesStart(s, span);
    while remaining > 0
      invariant k <= i <= |text| && remaining <= span
      invariant byte' == Len8(text[..i]) && cursor' + remaining == cursor + span
      invariant Reaches(s, span, i - k, remaining)
    {
      ReachesEnd(s, span, i - k, remaining);
      if i == |text| {
        return byte', cursor', PastEnd(SaturatingAdd(cursor', remaining), docLen);
      }
      var width := Width16(text[i]);
      if width > remaining {
        return byte', cursor', SplitCharacter(SaturatingAdd(cursor', remaining));
      }
      ReachesStep(s, span, i - k, remaining);
      Len8Append(text[..i], [text[i]]);
      assert text[..i + 1] == text[..i] + [text[i]];
      remaining := remaining - width;
      byte' := byte' + Width8(text[i]);
      cursor' := cursor' + width;
      i := i + 1;
    }
    ReachesEnd(s, span, i - k, remaining);
    verdict := Accepted;
  }

  /** `WalkSpan`, with its verdict read on the cells that `text` stands for. */
  method ValidateSpan(text: string, byte: nat, cursor: nat, span: nat, docLen: nat, ghost k: nat, ghost d: seq<Cell>)
      returns (byte': nat, cursor': nat, verdict: Outcome, ghost k': nat)
    requires k <= |text| && byte == Len8(text[..k]) && cursor + Len16(text[k..]) <= INFINITY
    requires SameShape(d, text[k..])
    ensures verdict == (if span > |d| then PastEnd(SaturatingAdd(cursor, span), docLen)
                        else if !HeadOk(d[span..]) then SplitCharacter(SaturatingAdd(cursor, span))
                        else Accepted)
    ensures verdict == Accepted ==>
              && cursor' == cursor + span && k' <= |text| && byte' == Len8(text[..k'])
              && SameShape(d[span..], text[k'..]) && Len16(text[k'..]) == Len16(text[k..]) - span
  {
    hide TextSyms, CharsFor, Len8, Len16, HeadOk, IsLow, SaturatingAdd, OnBoundary;
    k' := k;
    byte', cursor', verdict := WalkSpan(text, byte, cursor, span, docLen, k);
    if span <= |d| {
      ShapeBoundary(d, text[k..], span);
      if verdict == Accepted {
        k' := k + CharsFor(text[k..], span);
        assert text[k..][CharsFor(text[k..], span)..] == text[k'..];
        Len16Split(text[k..], CharsFor(text[k..], span));
      }
    }
  }

  /** Where the loop of `validate` stands: the ops in `change` are still to check, from unit
      `cursor` of the content on, and the verdict on them is the verdict on the whole. */
  ghost predicate Walked(goal: Outcome, change: seq<Op>, d: seq<Cell>, text: string, k: nat, byte: nat, cursor: nat,
        docLen: nat) {
    && k <= |text| && byte == Len8(text[..k]) && cursor <= |d|
    && cursor + Len16(text[k..]) == docLen <= INFINITY
    && SameShape(d[cursor..], text[k..])
    && goal == Check(change, d[cursor..], cursor, docLen)
  }

  lemma {:induction false} CheckStep(change: seq<Op>, d: seq<Cell>, cursor: nat, docLen: nat)
    requires change != []
    ensures change[0].kind.Insert? ==> Check(change, d, cursor, docLen) == Check(change[1..], d, cursor, docLen)
    ensures !change[0].kind.Insert? ==>
              var n := change[0].kind.n;
              Check(change, d, cursor, docLen) ==
                if n > |d| then PastEnd(SaturatingAdd(cursor, n), docLen)
                else if !HeadOk(d[n..]) then SplitCharacter(SaturatingAdd(cursor, n))
                else Check(change[1..], d[n..], cursor + n, docLen)
  {
  }

  /** Check one op. */
  method ValidateOp(op: Op, text: string, byte: nat, cursor: nat, docLen: nat, ghost goal: Outcome,
        ghost change: seq<Op>, ghost d: seq<Cell>, ghost k: nat)
      returns (byte': nat, cursor': nat, verdict: Outcome, ghost k': nat)
    requires change != [] && op == change[0] && Walked(goal, change, d, text, k, byte, cursor, docLen)
    ensures verdict != Accepted ==> verdict == goal
    ensures verdict == Accepted ==> Walked(goal, change[1..], d, text, k', byte', cursor', docLen)
  {
    hide SameShape, OnBoundary, CharsFor, Check, HeadOk, Len16, Len8;
    CheckStep(change, d[cursor..], cursor, docLen);
    if op.kind.Insert? {
      return byte, cursor, Accepted, k;
    }
    var span := op.kind.n;
    byte', cursor', verdict, k' := ValidateSpan(text, byte, cursor, span, docLen, k, d[cursor..]);
    if verdict == Accepted {
      assert d[cursor..][span..] == d[cursor'..];
    }
  }

  /** Whether a change can be applied to a document without corrupting it, and if not, why. */
  method Validate(change: seq<Op>, doc: seq<Op>) returns (verdict: Outcome)
    requires IsDocument(doc) && |Content(doc)| <= INFINITY
    ensures verdict == Check(change, Content(doc), 0, |Content(doc)|)
    ensures verdict == Accepted <==> Fits(change, Content(doc))
  {
    hide Content, Fits, Check, Walked;
    var text := ToPlainText(doc);
    var docLen := Utf16Len(text);
    ghost var d, goal := Content(doc), Check(change, Content(doc), 0, |Content(doc)|);
    PlainTextShape(doc);
    ContentHeadOk(doc);
    AcceptedIff(change, d, 0, |d|);
    var cursor: nat, byte: nat := 0, 0;
    ghost var k: nat := 0;
    WalkedStart(change, d, text);
    for i := 0 to |change|
      invariant Walked(goal, change[i..], d, text, k, byte, cursor, docLen)
    {
      assert change[i..][1..] == change[i + 1..];
      byte, cursor, verdict, k := ValidateOp(change[i], text, byte, cursor, docLen, goal, change[i..], d, k);
      if verdict != Accepted {
        return;
      }
    }
    WalkedEnd(goal, change[|change|..], d, text, k, byte, cursor, docLen);
    verdict := Accepted;
  }

  lemma {:induction false} WalkedStart(change: seq<Op>, d: seq<Cell>, text: string)
    requires SameShape(d, text) && |d| <= INFINITY
    ensures Walked(Check(change, d, 0, |d|), change[0..], d, text, 0, 0, 0, Len16(text))
  {
    assert d[0..] == d && text[0..] == text && change[0..] == change;
  }

  lemma {:induction false} WalkedEnd(goal: Outcome, change: seq<Op>, d: seq<Cell>, text: string, k: nat, byte: nat,
        cursor: nat, docLen: nat)
    requires Walked(goal, change, d, text, k, byte, cursor, docLen) && change == []
    ensures goal == Accepted
  {
  }
}
