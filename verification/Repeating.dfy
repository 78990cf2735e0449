/** Retains of length zero. The wire format admits them and `validate` accepts them, but the
    iterator hands out a whole embed even when asked for no units of it
    (crates/gal-ot/src/delta.rs:482-484), so applying such a change can repeat an embed. */
module Repeating {
  import opened Utf16
  import opened Attributes
  import opened Deltas
  import opened Building
  import opened Composing
  import opened Documents
  import opened Inverting

  /** Walking both lists, some retain of length zero in `change` meets an embed of `doc`. An empty
      text run that stands in front of the embed uses the retain up. */
  predicate MeetsEmbed(doc: seq<Op>, change: seq<Op>)
    decreases |doc| + |change|
  {
    && doc != [] && change != []
    && if change[0].kind.Insert? then MeetsEmbed(doc, change[1..])
       else if EmptyAtEmbed(doc, change) then change[0].kind.Retain? || MeetsEmbed(doc, change[1..])
       else MeetsEmbed(Tail(doc, Stride(doc, change)), Tail(change, Stride(doc, change)))
  }

  /** Some retain of length zero in `change` stands directly before an embed of `d`. */
  predicate EmptyRetainAtEmbed(d: seq<Cell>, change: seq<Op>)
    decreases |change|
  {
    && change != []
    && if change[0].kind.Insert? then EmptyRetainAtEmbed(d, change[1..])
       else
         var n := change[0].kind.n;
         && n <= |d|
         && ((change[0].kind.Retain? && n == 0 && d != [] && d[0].sym.Object?) || EmptyRetainAtEmbed(d[n..], change[1..]))
  }

  /** What applying a change of at most `n` ops pushes, measured against what it means: never less, no
      more exactly when no embed is repeated, and at most one embed more for each op. */
  predicate Faithful(pushed: seq<Cell>, meant: seq<Cell>, repeats: bool, n: nat) {
    |meant| <= |pushed| <= |meant| + n && (repeats <==> |pushed| != |meant|) && (!repeats ==> pushed == meant)
  }

  lemma {:induction false} PushedFaithful(doc: seq<Op>, change: seq<Op>)
    requires IsDocument(doc) && Fits(change, Content(doc))
    ensures Faithful(Content(ComposeList(doc, change)), Effect(Content(doc), change), MeetsEmbed(doc, change), |change|)
    decreases |doc| + |change|, 1
  {
    hide Content, Faithful, ComposeOp, Fits;
    if doc == [] || change == [] {
      FaithfulEnd(doc, change);
    } else if change[0].kind.Insert? {
      FitsTail(change, Content(doc));
      PushedFaithful(doc, change[1..]);
      FaithfulInsert(doc, change);
    } else if EmptyAtEmbed(doc, change) {
      FitsTail(change, Content(doc));
      assert Content(doc)[0..] == Content(doc);
      PushedFaithful(doc, change[1..]);
      FaithfulAtEmbed(doc, change);
    } else {
      PushedStride(doc, change);
    }
  }

  lemma {:induction false} FaithfulEnd(doc: seq<Op>, change: seq<Op>)
    requires IsDocument(doc) && Fits(change, Content(doc)) && (doc == [] || change == [])
    ensures Faithful(Content(ComposeList(doc, change)), Effect(Content(doc), change), MeetsEmbed(doc, change), |change|)
  {
    ContentNothing();
    EffectNothing(Content(doc));
    ComposeAfterNothing(change);
    ComposeWithNothing(doc);
  }

  lemma {:induction false} FaithfulInsert(doc: seq<Op>, change: seq<Op>)
    requires IsDocument(doc) && change != [] && change[0].kind.Insert?
    requires Faithful(Content(ComposeList(doc, change[1..])), Effect(Content(doc), change[1..]), MeetsEmbed(doc, change[1..]), |change| - 1)
    ensures Faithful(Content(ComposeList(doc, change)), Effect(Content(doc), change), MeetsEmbed(doc, change), |change|)
  {
    hide Styled, Syms;
    var rest := ComposeList(doc, change[1..]);
    assert ([change[0]] + rest)[1..] == rest;
    EffectStep([], [change[0]] + rest);
    EffectStep(Content(doc), change);
  }

  /** An empty delete before an embed does nothing; an empty retain pushes the embed and leaves
      it in place as well. */
  lemma {:induction false} FaithfulAtEmbed(doc: seq<Op>, change: seq<Op>)
    requires IsDocument(doc) && EmptyAtEmbed(doc, change) && !change[0].kind.Insert?
    requires Faithful(Content(ComposeList(doc, change[1..])), Effect(Content(doc), change[1..]), MeetsEmbed(doc, change[1..]), |change| - 1)
    ensures Faithful(Content(ComposeList(doc, change)), Effect(Content(doc), change), MeetsEmbed(doc, change), |change|)
  {
    var d := Content(doc);
    var rest := ComposeList(doc, change[1..]);
    assert doc == [doc[0]] + doc[1..];
    var pushed := ComposeOp(doc[0], Head(change, 0), 0);
    assert ComposeList(doc, change) == pushed + rest;
    assert d[0..] == d;
    EffectStep(d, change);
    assert Effect(d, change) == Effect(d, change[1..]);
    ContentStep(doc);
    assert d[0].sym.Object?;
    if change[0].kind.Retain? {
      assert (pushed + rest)[1..] == rest;
      EffectStep([], pushed + rest);
      assert |Content(pushed + rest)| == 1 + |Content(rest)|;
    } else {
      assert pushed + rest == rest;
    }
  }

  // --- one stride -------------------------------------------------------

  lemma {:induction false} PushedStride(doc: seq<Op>, change: seq<Op>)
    requires IsDocument(doc) && Fits(change, Content(doc))
    requires doc != [] && change != [] && !change[0].kind.Insert? && !EmptyAtEmbed(doc, change)
    ensures Faithful(Content(ComposeList(doc, change)), Effect(Content(doc), change), MeetsEmbed(doc, change), |change|)
    decreases |doc| + |change|, 0
  {
    hide Content, Effect, Faithful, Fits, ComposeOp, Take, Drop;
    var n, d := Stride(doc, change), Content(doc);
    StrideParts(doc, change, n);
    PushedFaithful(Tail(doc, n), Tail(change, n));
    var rest := ComposeList(Tail(doc, n), Tail(change, n));
    StridePushed(doc, change, n, rest);
    StrideMeant(change, d, n);
    var kept := if change[0].kind.Retain? then Formatted(d[..n], change[0].attributes) else [];
    FaithfulAfter(kept, Content(rest), Effect(d[n..], Tail(change, n)), MeetsEmbed(doc, change), |Tail(change, n)|, |change|);
  }

  lemma {:induction false} FaithfulAfter(kept: seq<Cell>, pushed: seq<Cell>, meant: seq<Cell>, repeats: bool, m: nat,
        n: nat)
    requires Faithful(pushed, meant, repeats, m) && m <= n
    ensures Faithful(kept + pushed, kept + meant, repeats, n)
  {
  }

  /** Both lists are cut cleanly, and what is left of them is again a document and a change. */
  lemma {:induction false} StrideParts(doc: seq<Op>, change: seq<Op>, n: nat)
    requires IsDocument(doc) && Fits(change, Content(doc)) && doc != [] && change != []
    requires !change[0].kind.Insert? && !EmptyAtEmbed(doc, change) && n == Stride(doc, change)
    ensures Cuttable(doc, n) && Cuttable(change, n) && n <= |Content(doc)|
    ensures IsDocument(Tail(doc, n)) && Content(Tail(doc, n)) == Content(doc)[n..]
    ensures Fits(Tail(change, n), Content(doc)[n..])
    ensures |Tail(doc, n)| + |Tail(change, n)| < |doc| + |change|
  {
    hide Take, Drop, Effect;
    DocumentFits(doc);
    StrideInSequence([], doc, change);
    TailContent(doc, n);
  }

  lemma {:induction false} StridePushed(doc: seq<Op>, change: seq<Op>, n: nat, rest: seq<Op>)
    requires IsDocument(doc) && doc != [] && change != [] && !change[0].kind.Insert?
    requires Cuttable(doc, n) && Cuttable(change, n) && n <= |Content(doc)|
    ensures Content(ComposeOp(Head(doc, n), Head(change, n), n) + rest)
         == (if change[0].kind.Retain? then Formatted(Content(doc)[..n], change[0].attributes) else []) + Content(rest)
  {
    hide Inserting, Styled, Formatted, OnBoundary, TextSyms, CharsFor;
    var pushed := ComposeOp(Head(doc, n), Head(change, n), n);
    TailContent(doc, n);
    if change[0].kind.Retain? {
      assert (pushed + rest)[1..] == rest;
      EffectStep([], pushed + rest);
      StyledFormatted(Syms(Head(doc, n).kind.payload), doc[0].attributes, change[0].attributes);
    } else {
      assert pushed + rest == rest;
      assert [] + Content(rest) == Content(rest);
    }
  }

  lemma {:induction false} StyledFormatted(syms: seq<Sym>, base: Attrs, attr: Attrs)
    ensures Formatted(Styled(syms, base), attr) == Styled(syms, Format(base, attr))
  {
  }

  lemma {:induction false} StrideMeant(change: seq<Op>, d: seq<Cell>, n: nat)
    requires change != [] && !change[0].kind.Insert? && n <= change[0].Len() && n <= |d|
    ensures Effect(d, change)
         == (if change[0].kind.Retain? then Formatted(d[..n], change[0].attributes) else []) + Effect(d[n..], Tail(change, n))
  {
    HeadEffect(d, change, n);
  }

  lemma {:induction false} FirstSymbol(doc: seq<Op>)
    requires IsDocument(doc) && doc != [] && doc[0].Len() > 0
    ensures Content(doc) != [] && (Content(doc)[0].sym.Object? <==> !doc[0].IsText())
  {
    ContentStep(doc);
    assert Content(doc)[0] == Styled(Syms(doc[0].kind.payload), doc[0].attributes)[0];
    if doc[0].IsText() {
      TextSymsAreChars(doc[0].kind.payload.s);
    }
  }

  /** Applying a change does what the change means exactly when none of its retains of length zero
      meets an embed; otherwise the result is longer than it should be. */
  lemma {:induction false} AppliesExactlyIff(doc: seq<Op>, change: seq<Op>)
    requires IsDocument(doc) && Fits(change, Content(doc))
    ensures AppliesExactly(doc, change) <==> !MeetsEmbed(doc, change)
    ensures |Effect(Content(doc), change)| <= |Content(Compose(doc, change))| <= |Effect(Content(doc), change)| + |change|
  {
    hide Effect, ComposeList, Built, MeetsEmbed;
    DocumentFits(doc);
    ComposeListFits([], doc, change);
    BuiltKeeps(ComposeList(doc, change), []);
    PushedFaithful(doc, change);
  }

  /** Read off the content alone: a retain that meets an embed stands directly before one, and on
      a document without empty runs that is all there is to it. */
  lemma {:induction false} MeetsEmbedAt(doc: seq<Op>, change: seq<Op>)
    requires IsDocument(doc) && Fits(change, Content(doc))
    ensures MeetsEmbed(doc, change) ==> EmptyRetainAtEmbed(Content(doc), change)
    ensures NoEmptyOp(doc) && EmptyRetainAtEmbed(Content(doc), change) ==> MeetsEmbed(doc, change)
    decreases |doc| + |change|
  {
    hide Content, Fits, EmptyRetainAtEmbed, Take, Drop;
    if doc == [] || change == [] {
      NothingToMeet(doc, change);
    } else if change[0].kind.Insert? || EmptyAtEmbed(doc, change) {
      FitsTail(change, Content(doc));
      assert Content(doc)[0..] == Content(doc);
      MeetsEmbedAt(doc, change[1..]);
      EmptyAtFirst(doc, change);
    } else {
      var n := Stride(doc, change);
      StrideParts(doc, change, n);
      MeetsEmbedAt(Tail(doc, n), Tail(change, n));
      if NoEmptyOp(doc) {
        TailNoEmpty(doc, n);
      }
      StrideAt(doc, change, n);
    }
  }

  lemma {:induction false} NothingToMeet(doc: seq<Op>, change: seq<Op>)
    requires doc == [] || change == []
    ensures !EmptyRetainAtEmbed(Content(doc), change)
  {
    if change != [] {
      ContentNothing();
      NothingToMeet(doc, change[1..]);
    }
  }

  lemma {:induction false} EmptyAtFirst(doc: seq<Op>, change: seq<Op>)
    requires IsDocument(doc) && doc != [] && change != [] && (change[0].kind.Insert? || EmptyAtEmbed(doc, change))
    ensures EmptyRetainAtEmbed(Content(doc), change)
            <==> EmptyRetainAtEmbed(Content(doc), change[1..]) || change[0].kind.Retain?
  {
    hide Content;
    assert Content(doc)[0..] == Content(doc);
    if !change[0].kind.Insert? {
      FirstSymbol(doc);
    }
  }

  lemma {:induction false} StrideAt(doc: seq<Op>, change: seq<Op>, n: nat)
    requires IsDocument(doc) && Fits(change, Content(doc)) && doc != [] && change != []
    requires !change[0].kind.Insert? && !EmptyAtEmbed(doc, change) && n == Stride(doc, change) && n <= |Content(doc)|
    ensures EmptyRetainAtEmbed(Content(doc)[n..], Tail(change, n)) ==> EmptyRetainAtEmbed(Content(doc), change)
    ensures NoEmptyOp(doc) && EmptyRetainAtEmbed(Content(doc), change) ==> EmptyRetainAtEmbed(Content(doc)[n..], Tail(change, n))
  {
    hide Content, Fits;
    var d, m := Content(doc), change[0].kind.n;
    FitsTail(change, d);
    if n == m {
      if n == 0 && NoEmptyOp(doc) {
        FirstSymbol(doc);
      }
    } else {
      assert d[n..][m - n..] == d[m..];
      assert Tail(change, n)[1..] == change[1..];
    }
  }

  /** What can be told from the content alone: without a retain of length zero before an embed, a
      change applies exactly to every document with that content. */
  lemma {:induction false} HarmlessApplies(doc: seq<Op>, change: seq<Op>)
    requires IsDocument(doc) && Fits(change, Content(doc)) && !EmptyRetainAtEmbed(Content(doc), change)
    ensures AppliesExactly(doc, change)
  {
    hide Content, Fits, EmptyRetainAtEmbed, MeetsEmbed, AppliesExactly;
    MeetsEmbedAt(doc, change);
    AppliesExactlyIff(doc, change);
  }

  /** An empty text run in front of the embed, as a seed may have, protects it once. */
  lemma {:induction false} EmptyRunProtects(value: Value)
    ensures var doc := [Op(Insert(Text("")), map[]), Op(Insert(Embed(value)), map[])];
            && EmptyRetainAtEmbed(Content(doc), [RetainOp(0)]) && AppliesExactly(doc, [RetainOp(0)])
            && !AppliesExactly(doc, [RetainOp(0), RetainOp(0)])
  {
    hide AppliesExactly;
    var embed := Op(Insert(Embed(value)), map[]);
    var doc := [Op(Insert(Text("")), map[]), embed];
    var once, twice := [RetainOp(0)], [RetainOp(0), RetainOp(0)];
    assert doc[1..] == [embed] && once[1..] == [] && twice[1..] == once;
    ContentStep(doc);
    FirstSymbol([embed]);
    assert Content(doc) == Content([embed]);
    ContentHeadOk(doc);
    var d := Content(doc);
    assert d[0..] == d;
    assert Fits([], d) && Fits(once, d) && Fits(twice, d);
    assert Tail(doc, 0) == [embed] && Tail(once, 0) == [] && Tail(twice, 0) == once;
    AppliesExactlyIff(doc, once);
    AppliesExactlyIff(doc, twice);
  }

  /** The smallest case: one embed and a retain of length zero make two embeds. */
  lemma {:induction false} EmptyRetainRepeatsEmbed(value: Value)
    ensures var doc := [Op(Insert(Embed(value)), map[])];
            var change := [RetainOp(0)];
            && IsDocument(doc) && Canonical(doc) && Fits(change, Content(doc)) && Effect(Content(doc), change) == Content(doc)
            && Content(Compose(doc, change)) != Content(doc)
  {
    var doc := [Op(Insert(Embed(value)), map[])];
    var change := [RetainOp(0)];
    var d := Content(doc);
    FirstSymbol(doc);
    ContentHeadOk(doc);
    assert d[0..] == d && change[1..] == [];
    EffectStep(d, change);
    EffectNothing(d);
    assert Formatted(d[..0], map[]) + d == d;
    AppliesExactlyIff(doc, change);
  }

  lemma {:induction false} NoEmptyHarmless(d: seq<Cell>, change: seq<Op>)
    requires NoEmptyOp(change)
    ensures !EmptyRetainAtEmbed(d, change)
    decreases |change|
  {
    if change != [] && (change[0].kind.Insert? || change[0].kind.n <= |d|) {
      NoEmptyHarmless(if change[0].kind.Insert? then d else d[change[0].kind.n..], change[1..]);
    }
  }
}
