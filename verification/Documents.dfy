/** Documents: op lists that only insert. A canonical document is determined by its content,
    so laws about content become laws about the op lists that are stored and compared. */
module Documents {
  import opened Utf16
  import opened Deltas
  import opened Composing
  import opened Transforming

  lemma {:induction false} ContentNothing()
    ensures Content([]) == []
  {
  }

  lemma {:induction false} ContentStep(doc: seq<Op>)
    requires IsDocument(doc) && doc != []
    ensures Content(doc) == Styled(Syms(doc[0].kind.payload), doc[0].attributes) + Content(doc[1..])
  {
    EffectStep([], doc);
  }

  lemma {:induction false} DocumentFits(doc: seq<Op>)
    requires IsDocument(doc)
    ensures Fits(doc, [])
  {
    if doc != [] {
      DocumentFits(doc[1..]);
    }
  }

  lemma {:induction false} FitsNothing(ops: seq<Op>)
    requires Fits(ops, []) && NoEmptyOp(ops)
    ensures IsDocument(ops)
  {
    if ops != [] {
      FitsNothing(ops[1..]);
    }
  }

  lemma {:induction false} ContentHeadOk(doc: seq<Op>)
    requires IsDocument(doc)
    ensures HeadOk(Content(doc))
  {
    DocumentFits(doc);
    EffectHeadOk([], doc);
  }

  lemma {:induction false} ContentSize(doc: seq<Op>)
    requires IsDocument(doc)
    ensures |Content(doc)| == |Flat(doc)|
  {
    if doc != [] {
      ContentSize(doc[1..]);
      ContentStep(doc);
    }
  }

  /** Applying a change to a document: the result is a canonical document whose content is the
      effect of the change on the old content. */
  lemma {:induction false} ApplyChange(doc: seq<Op>, change: seq<Op>)
    requires IsDocument(doc) && Fits(change, Content(doc)) && NoEmptyOp(change)
    ensures IsDocument(Compose(doc, change)) && Canonical(Compose(doc, change))
    ensures Content(Compose(doc, change)) == Effect(Content(doc), change)
  {
    DocumentFits(doc);
    ComposeMeans([], doc, change);
    FitsNothing(Compose(doc, change));
  }

  /** Applying `change` to `doc` does what the change means. It always does when no op of the
      change is empty. */
  predicate AppliesExactly(doc: seq<Op>, change: seq<Op>) {
    Content(Compose(doc, change)) == Effect(Content(doc), change)
  }

  /** However it goes, the result is a canonical document. */
  lemma {:induction false} AppliedDocument(doc: seq<Op>, change: seq<Op>)
    requires IsDocument(doc) && Fits(change, Content(doc))
    ensures IsDocument(Compose(doc, change)) && Canonical(Compose(doc, change))
    ensures NoEmptyOp(change) ==> AppliesExactly(doc, change)
  {
    hide Compose, Effect, Content;
    ContentNothing();
    DocumentFits(doc);
    ContentIsEffect(doc);
    ComposeMeans([], doc, change);
    ContentIsEffect(Compose(doc, change));
    FitsNothing(Compose(doc, change));
  }

  lemma {:induction false} ContentIsEffect(ops: seq<Op>)
    ensures Content(ops) == Effect([], ops)
  {
  }

  // --- canonical documents are unique -----------------------------------

  lemma {:induction false} TextSymsInjective(s: string, t: string)
    requires TextSyms(s) == TextSyms(t)
    ensures s == t
  {
    if s == "" || t == "" {
      Len16AtLeast(s);
      Len16AtLeast(t);
    } else {
      assert TextSyms(s)[0] == CharSyms(s[0])[0] && TextSyms(t)[0] == CharSyms(t[0])[0];
      assert s[0] == t[0];
      assert TextSyms(s)[Width16(s[0])..] == TextSyms(s[1..]);
      assert TextSyms(t)[Width16(t[0])..] == TextSyms(t[1..]);
      TextSymsInjective(s[1..], t[1..]);
    }
  }

  lemma {:induction false} TextSymsAreChars(s: string)
    ensures forall i | 0 <= i < Len16(s) :: TextSyms(s)[i].Char?
  {
    if s != "" {
      TextSymsAreChars(s[1..]);
    }
  }

  /** Two neighbouring units that one op would hold. */
  predicate Alike(x: Atom, y: Atom) {
    || x == y == Del
    || (x.Ret? && y == x)
    || (x.Ins? && y.Ins? && x.cell.sym.Char? && y.cell.sym.Char? && x.cell.attributes == y.cell.attributes)
  }

  lemma {:induction false} UnitsAlike(a: Op, b: Op)
    requires a.Len() > 0 && b.Len() > 0
    ensures Alike(Atoms(a)[0], Atoms(b)[0]) <==> Mergeable(a, b)
    ensures a.IsText() || !a.kind.Insert? ==> forall i | 0 <= i < a.Len() :: Alike(Atoms(a)[0], Atoms(a)[i])
    ensures !a.IsText() && a.kind.Insert? ==> a.Len() == 1
  {
    hide Len16;
    if a.IsText() {
      TextSymsAreChars(a.kind.payload.s);
    }
    if b.IsText() {
      TextSymsAreChars(b.kind.payload.s);
    }
  }

  /** The first op of a canonical list is as long as it looks: the unit after it belongs to
      something else. */
  lemma {:induction false} FirstRunEnds(ops: seq<Op>)
    requires Canonical(ops) && ops != []
    ensures var n, f := ops[0].Len(), Flat(ops);
            && 0 < n <= |f| && f[..n] == Atoms(ops[0]) && f[n..] == Flat(ops[1..])
            && (forall i | 0 < i < n :: Alike(f[0], f[i]))
            && (n < |f| ==> !Alike(f[0], f[n]))
  {
    hide Alike, Atoms, Mergeable;
    var n, f := ops[0].Len(), Flat(ops);
    UnitsAlike(ops[0], ops[0]);
    assert forall i | 0 <= i < n :: f[i] == Atoms(ops[0])[i];
    if n < |f| {
      UnitsAlike(ops[0], ops[1]);
      assert f[n] == f[n..][0] == Flat(ops[1..])[0] == Atoms(ops[1])[0];
    }
  }

  lemma {:induction false} SameUnits(a: Op, b: Op)
    requires Atoms(a) == Atoms(b) && a.Len() > 0 && PlainDelete(a) && PlainDelete(b)
    ensures a == b
  {
    hide Len16, TextSyms;
    assert Atoms(a)[0] == Atoms(b)[0];
    UnitsAlike(a, b);
    if a.kind.Insert? {
      assert Syms(a.kind.payload) == Syms(b.kind.payload) by {
        forall i | 0 <= i < a.Len()
          ensures Syms(a.kind.payload)[i] == Syms(b.kind.payload)[i]
        {
          assert Atoms(a)[i] == Atoms(b)[i];
        }
      }
      if a.IsText() {
        TextSymsAreChars(a.kind.payload.s);
      }
      if b.IsText() {
        TextSymsAreChars(b.kind.payload.s);
      }
      assert Syms(a.kind.payload)[0] == Syms(b.kind.payload)[0];
      if a.IsText() {
        TextSymsInjective(a.kind.payload.s, b.kind.payload.s);
      }
    }
  }

  /** Two canonical changes that are the same unit by unit are the same op list. */
  lemma {:induction false} CanonicalChangeUnique(x: seq<Op>, y: seq<Op>)
    requires Canonical(x) && PlainDeletes(x) && Canonical(y) && PlainDeletes(y)
    requires Flat(x) == Flat(y)
    ensures x == y
  {
    hide Atoms, Alike, Flat;
    if x == [] || y == [] {
      FlatNothing(x);
      FlatNothing(y);
    } else {
      FirstRunEnds(x);
      FirstRunEnds(y);
      SameUnits(x[0], y[0]);
      CanonicalChangeUnique(x[1..], y[1..]);
    }
  }

  lemma {:induction false} FlatNothing(ops: seq<Op>)
    requires NoEmptyOp(ops)
    ensures Flat(ops) == [] <==> ops == []
  {
    hide Len16;
  }

  lemma {:induction false} FlatContent(doc: seq<Op>)
    requires IsDocument(doc)
    ensures Flat(doc) == Inserting(Content(doc))
  {
    hide Content, Styled, Syms;
    if doc == [] {
      ContentNothing();
    } else {
      FlatContent(doc[1..]);
      ContentStep(doc);
    }
  }

  /** Two canonical documents with the same content are the same op list. */
  lemma {:induction false} CanonicalUnique(x: seq<Op>, y: seq<Op>)
    requires IsDocument(x) && Canonical(x) && IsDocument(y) && Canonical(y)
    requires Content(x) == Content(y)
    ensures x == y
  {
    hide Content, Canonical, Flat;
    FlatContent(x);
    FlatContent(y);
    CanonicalChangeUnique(x, y);
  }

  // --- the laws, as equality of op lists --------------------------------

  /** The transformation property as the engine states it: the same op list both ways,
      whatever the document, the attributes, the embeds and the ties, as long as applying either
      change does what it means. */
  lemma {:induction false} ConvergeDocuments(doc: seq<Op>, a: seq<Op>, b: seq<Op>)
    requires IsDocument(doc)
    requires Fits(a, Content(doc)) && AppliesExactly(doc, a)
    requires Fits(b, Content(doc)) && AppliesExactly(doc, b)
    ensures Compose(Compose(doc, a), Transform(a, b, true)) == Compose(Compose(doc, b), Transform(b, a, false))
  {
    hide Compose, Transform, Content, Effect, Fits, Canonical;
    var d := Content(doc);
    AppliedDocument(doc, a);
    AppliedDocument(doc, b);
    Converge(d, a, b);
    TransformMeans(d, a, b, true);
    TransformMeans(d, b, a, false);
    CanonicalNoEmpty(Transform(a, b, true));
    CanonicalNoEmpty(Transform(b, a, false));
    ApplyChange(Compose(doc, a), Transform(a, b, true));
    ApplyChange(Compose(doc, b), Transform(b, a, false));
    CanonicalUnique(Compose(Compose(doc, a), Transform(a, b, true)), Compose(Compose(doc, b), Transform(b, a, false)));
  }

  lemma {:induction false} CanonicalNoEmpty(ops: seq<Op>)
    requires Canonical(ops)
    ensures NoEmptyOp(ops)
  {
  }

  /** Applying one change and then another is applying their composition, as op lists. */
  lemma {:induction false} ComposeDocuments(doc: seq<Op>, a: seq<Op>, b: seq<Op>)
    requires IsDocument(doc)
    requires Fits(a, Content(doc)) && NoEmptyOp(a)
    requires Fits(b, Effect(Content(doc), a)) && NoEmptyOp(b)
    ensures Compose(Compose(doc, a), b) == Compose(doc, Compose(a, b))
  {
    ApplyChange(doc, a);
    ApplyChange(Compose(doc, a), b);
    ComposeMeans(Content(doc), a, b);
    ApplyChange(doc, Compose(a, b));
    CanonicalUnique(Compose(Compose(doc, a), b), Compose(doc, Compose(a, b)));
  }

  /** Composition is associative on every document it can be applied to. */
  lemma {:induction false} ComposeAssociative(doc: seq<Op>, a: seq<Op>, b: seq<Op>, c: seq<Op>)
    requires IsDocument(doc)
    requires Fits(a, Content(doc)) && NoEmptyOp(a)
    requires Fits(b, Effect(Content(doc), a)) && NoEmptyOp(b)
    requires Fits(c, Effect(Effect(Content(doc), a), b)) && NoEmptyOp(c)
    ensures Compose(doc, Compose(Compose(a, b), c)) == Compose(doc, Compose(a, Compose(b, c)))
  {
    var d := Content(doc);
    ComposeMeans(d, a, b);
    ComposeMeans(Effect(d, a), b, c);
    ComposeMeans(d, Compose(a, b), c);
    ComposeMeans(d, a, Compose(b, c));
    ApplyChange(doc, Compose(Compose(a, b), c));
    ApplyChange(doc, Compose(a, Compose(b, c)));
    CanonicalUnique(Compose(doc, Compose(Compose(a, b), c)), Compose(doc, Compose(a, Compose(b, c))));
  }
}
