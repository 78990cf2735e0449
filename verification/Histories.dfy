/** A document's log of committed ops as values (crates/gal-ot/src/lib.rs:79-92, 153-292): what
    replaying it gives, what rebasing an op over it gives, and when walking it back is exact. */
module Histories {
  import opened Utf16
  import opened Attributes
  import opened Deltas
  import opened Building
  import opened Composing
  import opened Transforming
  import opened Documents
  import opened Inverting
  import opened Iterating

  /** An op as committed: the revision it produced, the op as applied, and its inverse. */
  datatype Revision = Revision(revision: nat, delta: seq<Op>, undo: seq<Op>, author: string)

  function Init<T>(s: seq<T>): seq<T>
    requires s != []
  {
    s[..|s| - 1]
  }

  function Last<T>(s: seq<T>): T
    requires s != []
  {
    s[|s| - 1]
  }

  /** The document after the ops of `log`. */
  function Replayed(base: seq<Op>, log: seq<Revision>): seq<Op> {
    if log == [] then base else Compose(Replayed(base, Init(log)), Last(log).delta)
  }

  /** `op`, written before the ops of `log` were committed, rewritten to apply after them. What
      is committed wins every tie. */
  function Rebased(op: seq<Op>, log: seq<Revision>): seq<Op> {
    if log == [] then op else Transform(Last(log).delta, Rebased(op, Init(log)), true)
  }

  // --- sound logs -------------------------------------------------------

  /** The same symbols, whatever their formatting. */
  predicate SameSyms(d: seq<Cell>, e: seq<Cell>) {
    |d| == |e| && forall i | 0 <= i < |d| :: d[i].sym == e[i].sym
  }

  /** `entry` applies to `doc`, does there what it means, and can be taken back. */
  predicate Step(doc: seq<Op>, entry: Revision) {
    && Fits(entry.delta, Content(doc)) && Sized(entry.delta) && AppliesExactly(doc, entry.delta)
    && NoEmptyOp(entry.undo) && Fits(entry.undo, Effect(Content(doc), entry.delta))
    && SameSyms(Effect(Effect(Content(doc), entry.delta), entry.undo), Content(doc))
  }

  /** Every op of the log was valid where it was applied, and the document always fitted the
      machine. */
  predicate Sound(base: seq<Op>, log: seq<Revision>) {
    && IsDocument(base)
    && |Content(Replayed(base, log))| < INFINITY
    && (log != [] ==> Sound(base, Init(log)) && Step(Replayed(base, Init(log)), Last(log)))
  }

  lemma {:induction false} ReplayedDocument(base: seq<Op>, log: seq<Revision>)
    requires Sound(base, log)
    ensures IsDocument(Replayed(base, log))
    ensures log != [] ==> Canonical(Replayed(base, log))
    decreases |log|
  {
    hide Compose, Content, Canonical;
    if log != [] {
      ReplayedDocument(base, Init(log));
      AppliedDocument(Replayed(base, Init(log)), Last(log).delta);
    }
  }

  lemma {:induction false} InitOfPrefix<T>(s: seq<T>, k: nat)
    requires k < |s|
    ensures Init(s)[..k] == s[..k]
    ensures Init(s[k..]) == Init(s)[k..] && Last(s[k..]) == Last(s)
  {
  }

  lemma {:induction false} SoundPrefix(base: seq<Op>, log: seq<Revision>, k: nat)
    requires Sound(base, log) && k <= |log|
    ensures Sound(base, log[..k])
    decreases |log|
  {
    hide Step, Replayed, Content;
    if k == |log| {
      assert log[..k] == log;
    } else {
      SoundPrefix(base, Init(log), k);
      InitOfPrefix(log, k);
    }
  }

  /** The content one entry on. */
  lemma {:induction false} ReplayedStep(base: seq<Op>, log: seq<Revision>)
    requires Sound(base, log) && log != []
    ensures var doc := Replayed(base, Init(log));
            && Fits(Last(log).delta, Content(doc))
            && Content(Replayed(base, log)) == Effect(Content(doc), Last(log).delta)
  {
    hide Content, Effect, Compose, Fits, SameSyms;
  }

  // --- rebasing ---------------------------------------------------------

  /** A change that is valid where its author stands stays valid after it has been rebased over
      whatever was committed since. */
  lemma {:induction false} RebasedFits(base: seq<Op>, log: seq<Revision>, k: nat, op: seq<Op>)
    requires Sound(base, log) && k <= |log| && Fits(op, Content(Replayed(base, log[..k])))
    ensures Fits(Rebased(op, log[k..]), Content(Replayed(base, log)))
    ensures NoEmptyOp(op) ==> NoEmptyOp(Rebased(op, log[k..]))
    decreases |log|
  {
    hide Content, Effect, Fits, Transform, Step, Replayed;
    if k == |log| {
      assert log[..k] == log && log[k..] == [];
    } else {
      InitOfPrefix(log, k);
      RebasedFits(base, Init(log), k, op);
      ReplayedStep(base, log);
      TransformMeans(Content(Replayed(base, Init(log))), Last(log).delta, Rebased(op, Init(log)[k..]), true);
    }
  }

  /** What was committed comes first: rebased over one more entry, an op does what it and that entry
      make of the document together, the entry having priority. */
  lemma {:induction false} CommittedFirst(base: seq<Op>, log: seq<Revision>, k: nat, op: seq<Op>)
    requires Sound(base, log) && k < |log| && Fits(op, Content(Replayed(base, log[..k])))
    ensures var d, arrived := Content(Replayed(base, Init(log))), Rebased(op, Init(log)[k..]);
            && Concurrent(d, Last(log).delta, arrived)
            && Effect(Content(Replayed(base, log)), Rebased(op, log[k..])) == Together(d, Last(log).delta, arrived)
  {
    hide Fits, Effect, Content, Compose, Step, Together, Transform;
    InitOfPrefix(log, k);
    RebasedFits(base, Init(log), k, op);
    ReplayedDocument(base, Init(log));
    ReplayedStep(base, log);
    ContentHeadOk(Replayed(base, Init(log)));
    PriorityWins(Content(Replayed(base, Init(log))), Last(log).delta, Rebased(op, Init(log)[k..]));
  }

  /** One op further on: the op rebased so far, and the list that `transform` pushes next, are
      both of a size the machine can hold. */
  lemma {:induction false} RebaseSized(base: seq<Op>, log: seq<Revision>, op: seq<Op>)
    requires Sound(base, log) && log != [] && Fits(op, Content(Replayed(base, Init(log))))
    requires InsertLen(op) < INFINITY && InMemory(op)
    ensures Sized(Last(log).delta) && Sized(op)
    ensures Span(TransformList(Last(log).delta, op, true)) <= INFINITY
    ensures Fits(Transform(Last(log).delta, op, true), Content(Replayed(base, log)))
  {
    hide Content, Effect, Transform, Replayed, AppliesExactly, SameSyms;
    var d := Content(Replayed(base, Init(log)));
    FittingSized(op, d);
    ReplayedStep(base, log);
    TransformListFits(d, Last(log).delta, op, true);
    FitsAppend(TransformList(Last(log).delta, op, true), [], Effect(d, Last(log).delta));
    TransformMeans(d, Last(log).delta, op, true);
  }

  /** A change that fits a document of machine size has no op the machine cannot hold. */
  lemma {:induction false} FittingSized(op: seq<Op>, d: seq<Cell>)
    requires Fits(op, d) && |d| < INFINITY && InsertLen(op) < INFINITY
    ensures Sized(op)
    decreases |op|
  {
    hide HeadOk;
    if op != [] {
      FittingSized(op[1..], if op[0].kind.Insert? then d else d[op[0].kind.n..]);
    }
  }

  lemma {:induction false} ContentSized(doc: seq<Op>)
    requires IsDocument(doc) && |Content(doc)| < INFINITY
    ensures Sized(doc)
  {
    hide Styled, Apply;
    if doc != [] {
      ContentStep(doc);
      ContentSized(doc[1..]);
    }
  }

  /** A change adds no more units than it inserts. */
  lemma {:induction false} EffectSize(d: seq<Cell>, ops: seq<Op>)
    requires Fits(ops, d)
    ensures |Effect(d, ops)| <= |d| + InsertLen(ops)
    decreases |ops|
  {
    hide Effect, Styled, Formatted, HeadOk;
    EffectNothing(d);
    if ops != [] {
      EffectStep(d, ops);
      EffectSize(if ops[0].kind.Insert? then d else d[ops[0].kind.n..], ops[1..]);
    }
  }

  // --- the same symbols -------------------------------------------------

  lemma {:induction false} SameSymsFits(d: seq<Cell>, e: seq<Cell>, ops: seq<Op>)
    requires SameSyms(d, e)
    ensures Fits(ops, d) <==> Fits(ops, e)
    decreases |ops|
  {
    if ops != [] {
      if ops[0].kind.Insert? {
        SameSymsFits(d, e, ops[1..]);
      } else if ops[0].kind.n <= |d| {
        SameSymsFits(d[ops[0].kind.n..], e[ops[0].kind.n..], ops[1..]);
      }
    }
  }

  lemma {:induction false} SameSymsAppend(d: seq<Cell>, e: seq<Cell>, x: seq<Cell>, y: seq<Cell>)
    requires SameSyms(d, e) && SameSyms(x, y)
    ensures SameSyms(d + x, e + y)
  {
  }

  lemma {:induction false} SameSymsFormatted(d: seq<Cell>, e: seq<Cell>, m: Attrs)
    requires SameSyms(d, e)
    ensures SameSyms(Formatted(d, m), Formatted(e, m))
  {
  }

  /** A change acts on symbols without looking at their formatting. */
  lemma {:induction false} SameSymsEffect(d: seq<Cell>, e: seq<Cell>, ops: seq<Op>)
    requires SameSyms(d, e) && Fits(ops, d)
    ensures SameSyms(Effect(d, ops), Effect(e, ops))
    decreases |ops|
  {
    hide Effect, Styled, Formatted, HeadOk;
    if ops == [] {
      EffectNothing(d);
      EffectNothing(e);
    } else {
      EffectStep(d, ops);
      EffectStep(e, ops);
      match ops[0].kind
      case Insert(p) =>
        SameSymsEffect(d, e, ops[1..]);
        var cells := Styled(Syms(p), ops[0].attributes);
        SameSymsAppend(cells, cells, Effect(d, ops[1..]), Effect(e, ops[1..]));
      case Retain(n) =>
        SameSymsEffect(d[n..], e[n..], ops[1..]);
        SameSymsFormatted(d[..n], e[..n], ops[0].attributes);
        SameSymsAppend(Formatted(d[..n], ops[0].attributes), Formatted(e[..n], ops[0].attributes), Effect(d[n..], ops[1..]), Effect(e[n..], ops[1..]));
      case Delete(n) =>
        SameSymsEffect(d[n..], e[n..], ops[1..]);
    }
  }

  /** Applying a change and its inverse gives every symbol back. */
  lemma {:induction false} UndoneSyms(d: seq<Cell>, change: seq<Op>)
    requires Fits(change, d)
    ensures SameSyms(Undone(d, change), d)
    decreases |change|
  {
    hide Format, Inverted, HeadOk;
    if change != [] {
      match change[0].kind
      case Insert(_) => UndoneSyms(d, change[1..]);
      case Retain(n) =>
        UndoneSyms(d[n..], change[1..]);
        assert d == d[..n] + d[n..];
        SameSymsAppend(Refreshed(d[..n], change[0].attributes), d[..n], Undone(d[n..], change[1..]), d[n..]);
      case Delete(n) =>
        UndoneSyms(d[n..], change[1..]);
        assert d == d[..n] + d[n..];
        SameSymsAppend(d[..n], d[..n], Undone(d[n..], change[1..]), d[n..]);
    }
  }

  /** The inverse that is stored with a committed op makes a sound entry. */
  lemma {:induction false} InverseIsStep(doc: seq<Op>, delta: seq<Op>, entry: Revision)
    requires IsDocument(doc) && Fits(delta, Content(doc)) && Sized(delta) && AppliesExactly(doc, delta)
    requires entry.delta == delta && entry.undo == Invert(delta, doc)
    ensures Step(doc, entry)
  {
    hide Content, Effect, Undone, SameSyms, AppliesExactly;
    InvertMeans(delta, doc);
    InvertEffect(delta, doc);
    UndoneSyms(Content(doc), delta);
  }

  lemma {:induction false} InvertEffect(change: seq<Op>, base: seq<Op>)
    requires IsDocument(base) && Fits(change, Content(base))
    ensures Fits(Invert(change, base), Effect(Content(base), change))
    ensures Effect(Effect(Content(base), change), Invert(change, base)) == Undone(Content(base), change)
  {
    hide Content, Effect, Undone, Fits;
    assert Content(base)[0..] == Content(base);
    InvertListMeans(change, base, 0);
    BuiltKeeps(InvertList(change, base, 0), Effect(Content(base), change));
  }

  // --- exact logs -------------------------------------------------------

  /** Every stored inverse was taken against the document as it then stood. */
  predicate Inverses(base: seq<Op>, log: seq<Revision>) {
    log != [] ==> Inverses(base, Init(log)) && Last(log).undo == Invert(Last(log).delta, Replayed(base, Init(log)))
  }

  /** Taking back the last entry gives back the document before it exactly when that document
      was canonical and the op formatted no explicit null. */
  lemma {:induction false} TakeBackExactIff(base: seq<Op>, log: seq<Revision>)
    requires Sound(base, log) && Inverses(base, log) && log != []
    ensures var doc := Replayed(base, Init(log));
            && Fits(Last(log).delta, Content(doc))
            && (Compose(Replayed(base, log), Last(log).undo) == doc
                <==> Canonical(doc) && NoNullFormatted(Content(doc), Last(log).delta))
  {
    hide Content, Compose, Invert, Fits, SameSyms, Canonical, NoNullFormatted;
    ReplayedDocument(base, Init(log));
    UndoExactIff(Replayed(base, Init(log)), Last(log).delta);
  }

  /** Entry `i` can be taken back exactly from the document it made: the one before was canonical,
      and the op formatted no explicit null. */
  predicate ExactStep(base: seq<Op>, log: seq<Revision>, i: nat)
    requires i < |log|
  {
    var doc := Replayed(base, log[..i]);
    Fits(log[i].delta, Content(doc)) && Canonical(doc) && NoNullFormatted(Content(doc), log[i].delta)
  }

  /** What walking back from `content` over the stored inverses gives at position `j` of the log. */
  function WalkedTo(content: seq<Op>, log: seq<Revision>, j: nat): seq<Op>
    requires j <= |log|
    decreases |log| - j
  {
    if j == |log| then content else Compose(WalkedTo(content, log, j + 1), log[j].undo)
  }

  lemma {:induction false} InversesPrefix(base: seq<Op>, log: seq<Revision>, k: nat)
    requires Inverses(base, log) && k <= |log|
    ensures Inverses(base, log[..k])
    decreases |log|
  {
    hide Replayed, Invert;
    if k == |log| {
      assert log[..k] == log;
    } else {
      InversesPrefix(base, Init(log), k);
      InitOfPrefix(log, k);
    }
  }

  /** One step back, from the document that replaying gives. */
  lemma {:induction false} StepBackIff(base: seq<Op>, log: seq<Revision>, i: nat)
    requires Sound(base, log) && Inverses(base, log) && i < |log|
    ensures Compose(Replayed(base, log[..i + 1]), log[i].undo) == Replayed(base, log[..i]) <==> ExactStep(base, log, i)
  {
    hide Content, Compose, Replayed, Fits, Canonical, NoNullFormatted, Sound, Inverses;
    SoundPrefix(base, log, i + 1);
    InversesPrefix(base, log, i + 1);
    assert Init(log[..i + 1]) == log[..i] && Last(log[..i + 1]) == log[i];
    TakeBackExactIff(base, log[..i + 1]);
  }

  /** Walking back is right at every position down to `lo` exactly when every entry on the way can
      be taken back exactly. */
  lemma {:induction false} WalkBackExactIff(base: seq<Op>, log: seq<Revision>, lo: nat)
    requires Sound(base, log) && Inverses(base, log) && lo <= |log|
    ensures (forall j | lo <= j <= |log| :: WalkedTo(Replayed(base, log), log, j) == Replayed(base, log[..j]))
            <==> (forall i | lo <= i < |log| :: ExactStep(base, log, i))
    decreases |log| - lo
  {
    hide Compose, Replayed, ExactStep, Sound, Inverses;
    var content := Replayed(base, log);
    assert log[..|log|] == log;
    if lo < |log| {
      WalkBackExactIff(base, log, lo + 1);
      StepBackIff(base, log, lo);
      if forall j | lo <= j <= |log| :: WalkedTo(content, log, j) == Replayed(base, log[..j]) {
        assert WalkedTo(content, log, lo) == Replayed(base, log[..lo]);
        assert WalkedTo(content, log, lo + 1) == Replayed(base, log[..lo + 1]);
        assert forall j | lo + 1 <= j <= |log| :: WalkedTo(content, log, j) == Replayed(base, log[..j]);
      }
      if forall i | lo <= i < |log| :: ExactStep(base, log, i) {
        assert ExactStep(base, log, lo);
        assert forall i | lo + 1 <= i < |log| :: ExactStep(base, log, i);
        assert WalkedTo(content, log, lo + 1) == Replayed(base, log[..lo + 1]);
      }
    }
  }

  /** A document that held an explicit null, and an op that formatted it: one step back the walk is
      wrong, however long the history that is kept. */
  lemma {:induction false} WalkLosesNull() returns (base: seq<Op>, log: seq<Revision>)
    ensures |log| == 1 && Sound(base, log) && Inverses(base, log) && Canonical(base)
    ensures WalkedTo(Replayed(base, log), log, 0) != Replayed(base, log[..0])
  {
    hide Content, Compose, Invert, Fits, Canonical, SameSyms, Effect;
    base := [Op(Insert(Text("a")), map["bold" := Null])];
    var change := [RetainOp(1, map["bold" := Null])];
    UndoLosesNull();
    var entry := Revision(1, change, Invert(change, base), "");
    log := [entry];
    assert Init(log) == [] && Last(log) == entry && log[..0] == [];
    assert Replayed(base, []) == base;
    SmallDocument(base);
    AppliedDocument(base, change);
    InverseIsStep(base, change, entry);
    EffectSize(Content(base), change);
    assert InsertLen(change) == 0 by {
      assert change[1..] == [];
    }
    assert Replayed(base, log) == Compose(base, change);
    assert WalkedTo(Replayed(base, log), log, 1) == Replayed(base, log);
  }

  lemma {:induction false} SmallDocument(base: seq<Op>)
    requires base == [Op(Insert(Text("a")), map["bold" := Null])]
    ensures IsDocument(base) && |Content(base)| == 1
  {
    assert base[1..] == [] && Flat([]) == [];
    assert "a"[1..] == "" && Len16("a") == 1;
    ContentSize(base);
  }

  /** Canonical and free of explicit nulls from the start, and no op brought one in. */
  predicate Clean(base: seq<Op>, log: seq<Revision>) {
    && Canonical(base) && NullFreeCells(Content(base))
    && forall i | 0 <= i < |log| :: NullFreeInserts(log[i].delta)
  }

  lemma {:induction false} CleanInit(base: seq<Op>, log: seq<Revision>)
    requires Clean(base, log) && log != []
    ensures Clean(base, Init(log)) && NullFreeInserts(Last(log).delta)
  {
    hide NullFreeInserts, Canonical, NullFreeCells;
  }

  lemma {:induction false} CleanGrows(base: seq<Op>, log: seq<Revision>, entry: Revision)
    ensures Clean(base, log + [entry]) <==> Clean(base, log) && NullFreeInserts(entry.delta)
  {
    hide NullFreeInserts, Canonical, NullFreeCells;
    if Clean(base, log + [entry]) {
      assert (log + [entry])[|log|] == entry;
      assert forall i | 0 <= i < |log| :: (log + [entry])[i] == log[i];
    }
  }

  lemma {:induction false} CleanReplayed(base: seq<Op>, log: seq<Revision>)
    requires Sound(base, log) && Clean(base, log)
    ensures Canonical(Replayed(base, log)) && NullFreeCells(Content(Replayed(base, log)))
    decreases |log|
  {
    hide Content, Canonical, NullFreeCells, NullFreeInserts, Compose, Step, Effect;
    ReplayedDocument(base, log);
    if log != [] {
      CleanInit(base, log);
      CleanReplayed(base, Init(log));
      ReplayedStep(base, log);
      NullFreeKept(Content(Replayed(base, Init(log))), Last(log).delta);
    }
  }

  /** After such a log every entry can be taken back exactly. */
  lemma {:induction false} CleanSteps(base: seq<Op>, log: seq<Revision>, i: nat)
    requires Sound(base, log) && Clean(base, log) && i < |log|
    ensures ExactStep(base, log, i)
  {
    hide Content, Canonical, NullFreeCells, NullFreeInserts, Compose, Step, Effect, Replayed, Fits;
    SoundPrefix(base, log, i);
    SoundPrefix(base, log, i + 1);
    assert Init(log[..i + 1]) == log[..i] && Last(log[..i + 1]) == log[i];
    CleanReplayed(base, log[..i]);
    ReplayedStep(base, log[..i + 1]);
    NullFreeFormats(Content(Replayed(base, log[..i])), log[i].delta);
  }

  /** After such a log whatever is committed next can be taken back exactly. */
  lemma {:induction false} CleanTakeBack(base: seq<Op>, log: seq<Revision>)
    requires Sound(base, log) && Inverses(base, log) && log != [] && Clean(base, Init(log))
    ensures Compose(Replayed(base, log), Last(log).undo) == Replayed(base, Init(log))
  {
    hide Content, Canonical, NullFreeCells, NullFreeInserts, Compose, Step, Effect, Replayed, Invert, Fits;
    CleanReplayed(base, Init(log));
    ReplayedStep(base, log);
    NullFreeFormats(Content(Replayed(base, Init(log))), Last(log).delta);
    TakeBackExactIff(base, log);
  }
}
