/** The authoritative document (crates/gal-ot/src/lib.rs:94-292): its content, its revision and
    the retained end of its history, changed in place by `apply` and `rollback_last`. */
module Serving {
  import opened Basics
  import opened Deltas
  import opened Building
  import opened Composing
  import opened Transforming
  import opened Documents
  import opened Inverting
  import opened Iterating
  import opened Engine
  import opened Validating
  import opened Reverting
  import opened Histories

  /** How much of its history a document keeps. */
  const MAX_HISTORY: nat := 2048

  datatype OtError =
    | RevisionInFuture(requested: nat, current: nat)
    | RevisionTooOld(requested: nat, oldest: nat)
    | LengthMismatch(opBase: nat, docLen: nat)
    | SplitInside(offset: nat)
    | NotADocument

  datatype Result<T> = Ok(value: T) | Err(error: OtError)

  function AsError(verdict: Outcome): OtError
    requires verdict != Accepted
  {
    match verdict
    case PastEnd(needed, docLen) => LengthMismatch(needed, docLen)
    case SplitCharacter(offset) => SplitInside(offset)
  }

  /** Why an op that is inside the retained window is refused. */
  predicate TrueReason(error: OtError, d: seq<Cell>) {
    match error
    case LengthMismatch(opBase, docLen) => docLen == |d| < opBase
    case SplitInside(offset) => offset < |d| && !HeadOk(d[offset..])
    case _ => false
  }

  lemma {:induction false} VerdictReason(rebased: seq<Op>, content: seq<Op>, revision: nat, author: string)
    requires IsDocument(content) && |Content(content)| < INFINITY
    ensures var r := Verdict(rebased, content, revision, author);
            r.Err? ==> TrueReason(r.error, Content(content))
  {
    hide Content, Check, HeadOk, Invert;
    assert Content(content)[0..] == Content(content);
    ContentHeadOk(content);
    var k := RefusalMeans(rebased, Content(content), 0);
  }

  /** The newest `MAX_HISTORY` entries. */
  function Trimmed(history: seq<Revision>): seq<Revision> {
    if |history| > MAX_HISTORY then history[|history| - MAX_HISTORY..] else history
  }

  /** Entries carry consecutive revisions, the first of them `first + 1`. */
  predicate Numbered(first: nat, log: seq<Revision>) {
    forall i | 0 <= i < |log| :: log[i].revision == first + i + 1
  }

  /** The history is the end of the log, and short enough. */
  predicate Retained(first: nat, log: seq<Revision>, history: seq<Revision>) {
    && Numbered(first, log)
    && |history| <= |log| && |history| <= MAX_HISTORY
    && history == log[|log| - |history|..]
  }

  lemma {:induction false} RetainedAt(first: nat, log: seq<Revision>, history: seq<Revision>, i: nat)
    requires Retained(first, log, history) && i < |history|
    ensures history[i] == log[|log| - |history| + i] && history[i].revision == first + |log| - |history| + i + 1
  {
  }

  lemma {:induction false} RetainedPush(first: nat, log: seq<Revision>, history: seq<Revision>, entry: Revision)
    requires Retained(first, log, history) && entry.revision == first + |log| + 1
    ensures Retained(first, log + [entry], Trimmed(history + [entry])) && Trimmed(history + [entry]) != []
  {
  }

  /** The history after a run of commits, from a snapshot. */
  function Kept(entries: seq<Revision>): seq<Revision> {
    if entries == [] then [] else Trimmed(Kept(Init(entries)) + [Last(entries)])
  }

  /** It is the newest 2048 of them, or all. */
  lemma {:induction false} KeptNewest(entries: seq<Revision>)
    ensures Kept(entries) == entries[|entries| - Least(|entries|, 2048)..]
    decreases |entries|
  {
    if entries != [] {
      KeptNewest(Init(entries));
      var n := |entries| - 1;
      assert Init(entries)[n - Least(n, 2048)..] + [Last(entries)] == entries[n - Least(n, 2048)..];
    }
  }

  lemma {:induction false} HistoryShort(first: nat, log: seq<Revision>, history: seq<Revision>)
    requires Retained(first, log, history)
    ensures |history| <= |log| && |history| <= MAX_HISTORY
  {
  }

  lemma {:induction false} RetainedPop(first: nat, log: seq<Revision>, history: seq<Revision>)
    requires Retained(first, log, history) && history != []
    ensures log != [] && Last(log) == Last(history) && Retained(first, Init(log), Init(history))
  {
  }

  /** Of a log that was once `peak` entries long, all are kept but those that 2048 newer ones have
      pushed out. */
  predicate Window(log: nat, history: nat, peak: nat) {
    log <= peak && log - history == if peak > 2048 then peak - 2048 else 0
  }

  lemma {:induction false} WindowPush(log: seq<Revision>, history: seq<Revision>, peak: nat, entry: Revision)
    requires |history| <= MAX_HISTORY && Window(|log|, |history|, peak)
    ensures |Trimmed(history + [entry])| == Least(|history| + 1, 2048)
    ensures Window(|log| + 1, |Trimmed(history + [entry])|, Longest(peak, |log| + 1))
  {
  }

  function Longest(a: nat, b: nat): nat {
    if a <= b then b else a
  }

  /** Every delta of the log is one that fits in memory. */
  predicate InMemoryLog(log: seq<Revision>) {
    forall i | 0 <= i < |log| :: InMemory(log[i].delta)
  }

  /** Every op of the log was valid and meant what it did; `content` has the symbols that
      replaying the log gives. */
  predicate Tracking(base: seq<Op>, log: seq<Revision>, content: seq<Op>) {
    Sound(base, log) && SameSyms(Content(content), Content(Replayed(base, log)))
  }

  /** `content` is what replaying the log gives, and every stored inverse was taken on the way. */
  predicate Exactly(base: seq<Op>, log: seq<Revision>, content: seq<Op>) {
    Sound(base, log) && content == Replayed(base, log) && Inverses(base, log)
  }

  class ServerDoc {
    var content: seq<Op>
    var revision: nat
    var history: seq<Revision>

    /** The snapshot the document started from, the revision it was at, and every op that has
        been applied to it since and not rolled back. */
    ghost var base: seq<Op>
    ghost var first: nat
    ghost var log: seq<Revision>

    /** How long the log has been at most. It is as long now, unless ops were taken back. */
    ghost var peak: nat

    ghost predicate Valid()
      reads this
    {
      && IsDocument(content) && revision == first + |log| && Retained(first, log, history)
      && Window(|log|, |history|, peak)
    }

    ghost predicate Tracks()
      reads this
    {
      Valid() && Tracking(base, log, content)
    }

    ghost predicate Exact()
      reads this
    {
      Valid() && Exactly(base, log, content)
    }

    /** A new message, with nothing in it. */
    constructor ()
      ensures Exact() && Clean(base, log)
      ensures content == [] && revision == 0 && history == [] && peak == 0
    {
      content, revision, history := [], 0, [];
      base, first, log, peak := [], 0, [], 0;
      new;
      ContentNothing();
    }

    constructor Restored(snapshot: seq<Op>, at: nat)
      requires IsDocument(snapshot) && |Content(snapshot)| < INFINITY
      ensures Exact()
      ensures content == snapshot && revision == at && history == []
      ensures base == snapshot && first == at && log == [] && peak == 0
    {
      content, revision, history := snapshot, at, [];
      base, first, log, peak := snapshot, at, [], 0;
    }

    /** The oldest revision an op can still be transformed from: the one that was loaded, or the one
        2048 before the newest there has been. */
    function OldestRetained(): (oldest: nat)
      requires Valid()
      reads this
      ensures oldest == revision - |history| >= first
      ensures oldest == first + if peak > 2048 then peak - 2048 else 0
      ensures peak == |log| ==> oldest == Longest(first, if revision > 2048 then revision - 2048 else 0)
    {
      if |history| == 0 then revision else history[0].revision - 1
    }

    /** Transform `delta` forward over every retained op newer than `since`. */
    method Rebase(delta: seq<Op>, since: nat) returns (rebased: seq<Op>)
      requires Valid() && OldestRetained() <= since <= revision
      requires InMemory(delta) && InsertLen(delta) < INFINITY && InMemoryLog(log)
      ensures InMemory(rebased) && InsertLen(rebased) <= InsertLen(delta)
      ensures NoEmptyOp(delta) || since < revision ==> NoEmptyOp(rebased)
      ensures NullFreeInserts(delta) ==> NullFreeInserts(rebased)
      ensures since == revision ==> rebased == delta
      ensures Sound(base, log) && Fits(delta, Content(Replayed(base, log[..since - first]))) ==>
                rebased == Rebased(delta, log[since - first..]) && Fits(rebased, Content(Replayed(base, log)))
    {
      hide Fits, Sound, Replayed, Content, NoEmptyOp, Retained, Rebasing, InMemory, Numbered, Sized, TransformList,
        Transform, Span, InsertLen, Rebased, IsDocument, NullFreeInserts, TransformAny;
      rebased := delta;
      ghost var k, skipped := since - first, |log| - |history|;
      ghost var known := Sound(base, log) && Fits(delta, Content(Replayed(base, log[..k])));
      RebasingStart(base, log, k, delta, known);
      for i := 0 to |history|
        invariant InMemory(rebased) && InsertLen(rebased) <= InsertLen(delta)
        invariant NoEmptyOp(delta) || k < skipped + i ==> NoEmptyOp(rebased)
        invariant NullFreeInserts(delta) ==> NullFreeInserts(rebased)
        invariant skipped + i <= k ==> rebased == delta
        invariant skipped + i >= k ==> Rebasing(base, log, k, skipped + i, delta, rebased, known)
      {
        RetainedAt(first, log, history, i);
        if history[i].revision > since {
          ghost var before := rebased;
          RebasingSized(base, log, k, skipped + i, delta, before, known);
          rebased := TransformDeltas(history[i].delta, rebased, true);
          RebasingStep(base, log, k, skipped + i, delta, before, rebased, known);
        }
      }
      RebasingEnd(base, log, k, delta, rebased, known);
    }

    /** Apply an op that has been found valid: store its inverse, move the content on and trim
        the history. */
    method Commit(op: seq<Op>, author: string) returns (entry: Revision)
      requires Valid() && Fits(op, Content(content)) && |Content(content)| + InsertLen(op) < INFINITY
      modifies this
      ensures Valid() && base == old(base) && first == old(first)
      ensures entry == Revision(old(revision) + 1, op, Invert(op, old(content)), author)
      ensures content == Compose(old(content), op) && revision == old(revision) + 1
      ensures log == old(log) + [entry] && history == Trimmed(old(history) + [entry]) && history != []
      ensures |history| == Least(|old(history)| + 1, 2048) && peak == Longest(old(peak), |log|)
      ensures AppliesExactly(old(content), op) && old(Exact()) ==> Exact()
    {
      hide Content, Fits, Invert, Compose, AppliesExactly, Retained, Sound, Inverses, Replayed, Trimmed, Sized,
        InSequence, InsertLen, Effect, Exactly, IsDocument, WordSized, ComposeAny;
      CommitSized(content, op);
      var undo := InvertDeltas(op, content);
      SizedWords(content);
      SizedWords(op);
      var next := ComposeDeltas(content, op, []);
      entry := Revision(revision + 1, op, undo, author);
      CommitKeeps(base, log, content, entry);
      RetainedPush(first, log, history, entry);
      WindowPush(log, history, peak, entry);
      HistoryShort(first, log, history);
      content := next;
      revision := revision + 1;
      history := Trimmed(history + [entry]);
      log := log + [entry];
      peak := Longest(peak, |log|);
    }

    /** A submission, made by a client at `clientRevision`. The op that is committed is the
        rebased one, returned as `rebased` whether or not it is accepted. */
    method Apply(clientRevision: nat, delta: seq<Op>, author: string) returns (r: Result<Revision>,
          ghost rebased: seq<Op>)
      requires Valid() && |Content(content)| + InsertLen(delta) < INFINITY
      requires InMemory(delta) && InMemoryLog(log)
      modifies this
      ensures Valid() && InMemoryLog(log) && base == old(base) && first == old(first)
      ensures clientRevision > old(revision) ==> r == Err(RevisionInFuture(clientRevision, old(revision)))
      ensures clientRevision < old(OldestRetained()) ==> r == Err(RevisionTooOld(clientRevision, old(OldestRetained())))
      ensures old(OldestRetained()) <= clientRevision <= old(revision) ==>
                && r == Verdict(rebased, old(content), old(revision) + 1, author)
                && (r.Ok? <==> Fits(rebased, Content(old(content))))
                && (r.Err? ==> TrueReason(r.error, Content(old(content))))
                && (clientRevision == old(revision) ==> rebased == delta)
                && (clientRevision < old(revision) ==> NoEmptyOp(rebased))
                && (old(Exact()) && Fits(delta, Content(Replayed(base, old(log)[..clientRevision - first])))
                    ==> r.Ok? && rebased == Rebased(delta, old(log)[clientRevision - first..]))
      ensures NoEmptyOp(delta) ==> NoEmptyOp(rebased)
      ensures NullFreeInserts(delta) ==> NullFreeInserts(rebased)
      ensures InsertLen(rebased) <= InsertLen(delta)
      ensures r.Err? ==> unchanged(this)
      ensures r.Ok? ==>
                && Fits(rebased, Content(old(content)))
                && content == Compose(old(content), rebased) && revision == old(revision) + 1
                && r.value == Revision(revision, rebased, Invert(rebased, old(content)), author)
                && log == old(log) + [r.value] && history == Trimmed(old(history) + [r.value]) && history != []
                && |history| == Least(|old(history)| + 1, 2048) && peak == Longest(old(peak), |log|)
                && (AppliesExactly(old(content), rebased) && old(Exact()) ==> Exact())
    {
      hide Content, Fits, Check, Sound, Replayed, Invert, NoEmptyOp, AppliesExactly, Inverses, Retained, Trimmed,
        Compose, InMemory, IsDocument, NullFreeInserts, InsertLen, Rebased, SameSyms, Effect, TrueReason;
      rebased := delta;
      if clientRevision > revision {
        return Err(RevisionInFuture(clientRevision, revision)), rebased;
      }
      var oldest := OldestRetained();
      if clientRevision < oldest {
        return Err(RevisionTooOld(clientRevision, oldest)), rebased;
      }
      var op := Rebase(delta, clientRevision);
      rebased := op;
      VerdictReason(op, content, revision + 1, author);
      var verdict := Validate(op, content);
      if verdict != Accepted {
        return Err(AsError(verdict)), rebased;
      }
      var entry := Commit(op, author);
      r := Ok(entry);
    }

    /** What it takes to compose the last inverse: the two fit in memory, and the inverse asks for no
        more units than there are. */
    ghost predicate CanStepBack()
      reads this
    {
      history != [] ==>
        WordSized(content) && WordSized(Last(history).undo) && Span(Last(history).undo) <= InsertLen(content)
    }

    /** Take the most recently applied op back. */
    method RollbackLast() returns (ok: bool)
      requires Valid() && (Tracks() || CanStepBack())
      modifies this
      ensures Valid() && base == old(base) && first == old(first) && peak == old(peak)
      ensures !ok <==> old(history) == []
      ensures !ok ==> unchanged(this)
      ensures ok ==>
                && old(log) != []
                && content == ComposeAny(old(content), Last(old(log)).undo) && revision == old(revision) - 1
                && history == Init(old(history)) && log == Init(old(log))
      ensures ok && old(Tracks()) ==> Tracks() && content == Compose(old(content), Last(old(log)).undo)
      ensures ok && old(Exact()) ==>
                var doc, delta := Replayed(base, log), Last(old(log)).delta;
                && Fits(delta, Content(doc))
                && (Exact() <==> Canonical(doc) && NoNullFormatted(Content(doc), delta))
      ensures ok && old(Exact()) && Clean(base, log) ==> Exact()
    {
      hide Content, Fits, Replayed, Canonical, NoNullFormatted, Clean, Sound, Retained, Compose, SameSyms, ComposeAny,
        InSequence, IsDocument, Sized, WordSized, Inverses;
      if |history| == 0 {
        return false;
      }
      var entry := history[|history| - 1];
      RetainedPop(first, log, history);
      ExactTracks(base, log, content);
      if Tracks() {
        TakeBackTracks(base, log, content);
        TakeBackExactly(base, log, content);
        SizedWords(content);
        SizedWords(entry.undo);
      } else {
        ComposeAnyDocument(content, entry.undo);
      }
      content := ComposeDeltas(content, entry.undo, []);
      revision := revision - 1;
      history := history[..|history| - 1];
      log := Init(log);
      ok := true;
    }

    /** An earlier document, reached by walking back over the stored inverses. Its symbols are
        always right; it is the document itself when every entry walked over can be taken back
        exactly, and `WalkBackExactIff` says that nothing less will do for all of them. */
    method AtRevision(at: nat) returns (r: Option<seq<Op>>)
      requires Tracks()
      ensures r.None? <==> at > revision || at < OldestRetained()
      ensures r.Some? ==> r.value == WalkedTo(content, log, at - first)
      ensures r.Some? ==> Tracking(base, log[..at - first], r.value)
      ensures r.Some? && Exact() && (forall i | at - first <= i < |log| :: ExactStep(base, log, i)) ==>
                r.value == Replayed(base, log[..at - first])
      ensures r.Some? && Exact() && Clean(base, log) ==> r.value == Replayed(base, log[..at - first])
      ensures Exact() ==>
                ((forall j | |log| - |history| <= j <= |log| :: WalkedTo(content, log, j) == Replayed(base, log[..j]))
                 <==> forall i | |log| - |history| <= i < |log| :: ExactStep(base, log, i))
    {
      hide Content, Replayed, Sound, SameSyms, Inverses, Retained, WalkedBack, Compose, Tracking, WalkedTo,
        InSequence, Sized, IsDocument, Init, Last, ExactStep, WordSized, ComposeAny, Clean;
      WalkStart(base, log, content);
      WalkExactly(base, first, log, history, content, if first <= at <= revision then at - first else |log|);
      if at == revision {
        WalkEnd(base, log, |log|, content, content);
        return Some(content);
      }
      if at > revision || at < OldestRetained() {
        return None;
      }
      var doc := content;
      var i := |history|;
      ghost var skipped := |log| - |history|;
      while i > 0 && history[i - 1].revision > at
        invariant 0 <= i <= |history|
        invariant at <= first + skipped + i
        invariant WalkedBack(base, log, content, skipped + i, doc)
      {
        RetainedAt(first, log, history, i - 1);
        WalkBack(base, log, content, skipped + i, doc);
        SizedWords(doc);
        SizedWords(history[i - 1].undo);
        doc := ComposeDeltas(doc, history[i - 1].undo, []);
        i := i - 1;
      }
      if i > 0 {
        RetainedAt(first, log, history, i - 1);
      }
      WalkEnd(base, log, skipped + i, content, doc);
      r := Some(doc);
    }
  }

  /** Restore a document that was stored at a known revision. */
  method FromSnapshot(content: seq<Op>, revision: nat) returns (r: Result<ServerDoc>)
    requires |Content(content)| < INFINITY
    ensures r.Ok? <==> IsDocument(content)
    ensures r.Err? ==> r.error == NotADocument
    ensures r.Ok? ==>
              && fresh(r.value) && r.value.Exact() && r.value.content == content && r.value.revision == revision
              && r.value.base == content && r.value.log == []
  {
    if !IsDocument(content) {
      return Err(NotADocument);
    }
    var doc := new ServerDoc.Restored(content, revision);
    r := Ok(doc);
  }

  /** What `apply` answers for a rebased op that is inside the retained window. */
  function Verdict(rebased: seq<Op>, content: seq<Op>, revision: nat, author: string): Result<Revision> {
    var verdict := Check(rebased, Content(content), 0, |Content(content)|);
    if verdict == Accepted then Ok(Revision(revision, rebased, Invert(rebased, content), author))
    else Err(AsError(verdict))
  }

  // --- rebasing, one entry at a time ------------------------------------

  /** `rebased` is `delta`, written at log position `k`, as it stands before entry `j`. */
  ghost predicate Rebasing(base: seq<Op>, log: seq<Revision>, k: nat, j: nat, delta: seq<Op>, rebased: seq<Op>,
        known: bool)
    requires k <= j <= |log|
  {
    known ==>
      && Sound(base, log[..j])
      && rebased == Rebased(delta, log[k..j])
      && Fits(rebased, Content(Replayed(base, log[..j])))
  }

  lemma {:induction false} RebasingStart(base: seq<Op>, log: seq<Revision>, k: nat, delta: seq<Op>, known: bool)
    requires k <= |log|
    requires known ==> Sound(base, log) && Fits(delta, Content(Replayed(base, log[..k])))
    ensures Rebasing(base, log, k, k, delta, delta, known)
  {
    hide Fits, Content, Replayed, Sound;
    if known {
      SoundPrefix(base, log, k);
    }
  }

  lemma {:induction false} RebasingSized(base: seq<Op>, log: seq<Revision>, k: nat, j: nat, delta: seq<Op>,
        rebased: seq<Op>, known: bool)
    requires k <= j < |log| && InMemory(rebased) && InsertLen(rebased) < INFINITY
    requires Rebasing(base, log, k, j, delta, rebased, known)
    requires known ==> Sound(base, log)
    ensures known ==>
              && Sound(base, log[..j + 1])
              && Sized(log[j].delta) && Sized(rebased) && Span(TransformList(log[j].delta, rebased, true)) <= INFINITY
              && Fits(Transform(log[j].delta, rebased, true), Content(Replayed(base, log[..j + 1])))
  {
    hide Fits, Content, Replayed, Sound, Sized, InMemory, TransformList, Transform;
    if known {
      SoundPrefix(base, log, j + 1);
      assert Init(log[..j + 1]) == log[..j] && Last(log[..j + 1]) == log[j];
      RebaseSized(base, log[..j + 1], rebased);
    }
  }

  lemma {:induction false} RebasingStep(base: seq<Op>, log: seq<Revision>, k: nat, j: nat, delta: seq<Op>,
        before: seq<Op>, after: seq<Op>, known: bool)
    requires k <= j < |log| && Rebasing(base, log, k, j, delta, before, known)
    requires known ==>
               && Sound(base, log[..j + 1]) && after == Transform(log[j].delta, before, true)
               && Fits(after, Content(Replayed(base, log[..j + 1])))
    ensures Rebasing(base, log, k, j + 1, delta, after, known)
  {
    hide Fits, Content, Replayed, Sound, Transform;
    assert Init(log[k..j + 1]) == log[k..j] && Last(log[k..j + 1]) == log[j];
  }

  lemma {:induction false} RebasingEnd(base: seq<Op>, log: seq<Revision>, k: nat, delta: seq<Op>, rebased: seq<Op>,
        known: bool)
    requires k <= |log| && Rebasing(base, log, k, |log|, delta, rebased, known)
    ensures known ==> rebased == Rebased(delta, log[k..]) && Fits(rebased, Content(Replayed(base, log)))
  {
    hide Fits, Content, Replayed, Sound;
    assert log[..|log|] == log && log[k..|log|] == log[k..];
  }

  // --- committing and taking back ---------------------------------------

  /** A valid op of machine size can be inverted and composed without overflowing anything. */
  lemma {:induction false} CommitSized(content: seq<Op>, op: seq<Op>)
    requires IsDocument(content) && |Content(content)| + InsertLen(op) < INFINITY && Fits(op, Content(content))
    ensures Sized(content) && Sized(op) && InSequence([], content, op)
    ensures |Effect(Content(content), op)| < INFINITY
    ensures IsDocument(Compose(content, op))
  {
    hide Content, Effect, Fits, Compose, Sized;
    ContentSized(content);
    FittingSized(op, Content(content));
    DocumentFits(content);
    ContentIsEffect(content);
    ContentNothing();
    EffectSize(Content(content), op);
    AppliedDocument(content, op);
  }

  lemma {:induction false} CommitKeeps(base: seq<Op>, log: seq<Revision>, content: seq<Op>, entry: Revision)
    requires IsDocument(content) && Fits(entry.delta, Content(content)) && Sized(entry.delta)
    requires entry.undo == Invert(entry.delta, content)
    requires |Effect(Content(content), entry.delta)| < INFINITY
    ensures AppliesExactly(content, entry.delta) && Exactly(base, log, content) ==>
              Exactly(base, log + [entry], Compose(content, entry.delta))
  {
    hide Content, Effect, Fits, Compose, Invert, Sized, SameSyms;
    if AppliesExactly(content, entry.delta) && Exactly(base, log, content) {
      assert Init(log + [entry]) == log && Last(log + [entry]) == entry;
      InverseIsStep(content, entry.delta, entry);
    }
  }

  /** The content that tracks a log still tracks it with its last entry taken back. */
  lemma {:induction false} TakeBackTracks(base: seq<Op>, log: seq<Revision>, content: seq<Op>)
    requires Tracking(base, log, content) && log != [] && IsDocument(content)
    ensures var undo := Last(log).undo;
            && InSequence([], content, undo) && Sized(content) && Sized(undo)
            && IsDocument(Compose(content, undo)) && Tracking(base, Init(log), Compose(content, undo))
  {
    hide Content, Effect, Fits, Compose, Invert;
    var undo := Last(log).undo;
    var d := Content(content);
    ReplayedStep(base, log);
    SameSymsFits(d, Content(Replayed(base, log)), undo);
    SameSymsEffect(d, Content(Replayed(base, log)), undo);
    ContentSized(content);
    UndoSized(undo, d);
    DocumentFits(content);
    ContentIsEffect(content);
    ContentNothing();
    AppliedDocument(content, undo);
  }

  lemma {:induction false} ExactTracks(base: seq<Op>, log: seq<Revision>, content: seq<Op>)
    ensures Exactly(base, log, content) ==> Tracking(base, log, content)
  {
  }

  lemma {:induction false} SizedWords(ops: seq<Op>)
    requires Sized(ops)
    ensures WordSized(ops)
  {
  }

  /** What an op that fits a document of machine size and leaves one of machine size inserts. */
  lemma {:induction false} UndoSized(op: seq<Op>, d: seq<Cell>)
    requires Fits(op, d) && |d| < INFINITY && |Effect(d, op)| < INFINITY
    ensures Sized(op)
    decreases |op|
  {
    hide Effect, HeadOk, Styled, Formatted;
    if op != [] {
      EffectStep(d, op);
      UndoSized(op[1..], if op[0].kind.Insert? then d else d[op[0].kind.n..]);
    }
  }

  lemma {:induction false} TakeBackExactly(base: seq<Op>, log: seq<Revision>, content: seq<Op>)
    requires log != []
    ensures Exactly(base, log, content) ==>
              var doc, delta, undo := Replayed(base, Init(log)), Last(log).delta, Last(log).undo;
              && Fits(delta, Content(doc))
              && (Exactly(base, Init(log), Compose(content, undo)) <==> Canonical(doc) && NoNullFormatted(Content(doc), delta))
    ensures Exactly(base, log, content) && Clean(base, Init(log)) ==> Exactly(base, Init(log), Compose(content, Last(log).undo))
  {
    hide Content, Fits, Compose, Canonical, NoNullFormatted, Clean, Replayed;
    if Exactly(base, log, content) {
      TakeBackExactIff(base, log);
      if Clean(base, Init(log)) {
        CleanTakeBack(base, log);
      }
    }
  }

  /** Walking back from the end of the log has reached position `j` with `doc`. */
  ghost predicate WalkedBack(base: seq<Op>, log: seq<Revision>, content: seq<Op>, j: nat, doc: seq<Op>)
    requires j <= |log|
  {
    IsDocument(doc) && Tracking(base, log[..j], doc) && doc == WalkedTo(content, log, j)
  }

  lemma {:induction false} WalkStart(base: seq<Op>, log: seq<Revision>, content: seq<Op>)
    requires IsDocument(content) && Tracking(base, log, content)
    ensures WalkedBack(base, log, content, |log|, content)
  {
    assert log[..|log|] == log;
  }

  lemma {:induction false} WalkBack(base: seq<Op>, log: seq<Revision>, content: seq<Op>, j: nat, doc: seq<Op>)
    requires 0 < j <= |log| && WalkedBack(base, log, content, j, doc)
    ensures var undo := log[j - 1].undo;
            InSequence([], doc, undo) && Sized(doc) && Sized(undo) && WalkedBack(base, log, content, j - 1, Compose(doc, undo))
  {
    hide Content, Effect, Fits, Compose, Tracking;
    assert Init(log[..j]) == log[..j - 1] && Last(log[..j]) == log[j - 1];
    TakeBackTracks(base, log[..j], doc);
  }

  lemma {:induction false} WalkEnd(base: seq<Op>, log: seq<Revision>, j: nat, content: seq<Op>, doc: seq<Op>)
    requires j <= |log| && WalkedBack(base, log, content, j, doc)
    ensures Tracking(base, log[..j], doc) && doc == WalkedTo(content, log, j)
  {
  }

  lemma {:induction false} WalkExactly(base: seq<Op>, first: nat, log: seq<Revision>, history: seq<Revision>,
        content: seq<Op>, j: nat)
    requires Retained(first, log, history) && j <= |log|
    ensures |history| <= |log|
    ensures Exactly(base, log, content) && (forall i | j <= i < |log| :: ExactStep(base, log, i)) ==>
              WalkedTo(content, log, j) == Replayed(base, log[..j])
    ensures Exactly(base, log, content) && Clean(base, log) ==> WalkedTo(content, log, j) == Replayed(base, log[..j])
    ensures Exactly(base, log, content) ==>
              ((forall i | |log| - |history| <= i <= |log| :: WalkedTo(content, log, i) == Replayed(base, log[..i]))
               <==> forall i | |log| - |history| <= i < |log| :: ExactStep(base, log, i))
  {
    hide Sound, Inverses, Replayed, WalkedTo, ExactStep, Clean;
    if Exactly(base, log, content) {
      if Clean(base, log) {
        forall i | j <= i < |log|
          ensures ExactStep(base, log, i)
        {
          CleanSteps(base, log, i);
        }
      }
      WalkBackExactIff(base, log, j);
      WalkBackExactIff(base, log, |log| - |history|);
    }
  }

  // --- playback ---------------------------------------------------------

  /** The document after replaying `ops` from empty. */
  function Playback(ops: seq<seq<Op>>): seq<Op> {
    if ops == [] then [] else Compose(Playback(Init(ops)), Last(ops))
  }

  /** Every op of a persisted log was valid when it was committed. */
  predicate Playable(ops: seq<seq<Op>>) {
    && |Content(Playback(ops))| < INFINITY
    && (ops != [] ==> Playable(Init(ops)) && Sized(Last(ops)) && Fits(Last(ops), Content(Playback(Init(ops)))))
  }

  lemma {:induction false} PlayableStep(ops: seq<seq<Op>>)
    requires Playable(ops)
    ensures IsDocument(Playback(ops)) && Sized(Playback(ops))
    ensures ops != [] ==> Sized(Last(ops)) && Sized(Playback(Init(ops))) && InSequence([], Playback(Init(ops)), Last(ops))
    decreases |ops|
  {
    hide Content, Fits, Compose, Sized;
    if ops != [] {
      PlayableStep(Init(ops));
      AppliedDocument(Playback(Init(ops)), Last(ops));
      DocumentFits(Playback(Init(ops)));
      ContentIsEffect(Playback(Init(ops)));
      ContentNothing();
    }
    ContentSized(Playback(ops));
  }

  lemma {:induction false} PlayablePrefix(ops: seq<seq<Op>>, k: nat)
    requires Playable(ops) && k <= |ops|
    ensures Playable(ops[..k])
    decreases |ops|
  {
    hide Content, Fits, Playback, Sized;
    if k == |ops| {
      assert ops[..k] == ops;
    } else {
      PlayablePrefix(Init(ops), k);
      InitOfPrefix(ops, k);
    }
  }

  /** Play a log from empty, as far as `upTo`. */
  method Replay(ops: seq<seq<Op>>, upTo: nat) returns (doc: seq<Op>)
    requires Playable(ops)
    ensures doc == Playback(ops[..Least(upTo, |ops|)])
  {
    hide Playable, Compose, Sized, WordSized, ComposeAny, InSequence;
    doc := [];
    var n := Least(upTo, |ops|);
    for i := 0 to n
      invariant doc == Playback(ops[..i])
    {
      PlayablePrefix(ops, i + 1);
      PlayableStep(ops[..i + 1]);
      assert Init(ops[..i + 1]) == ops[..i] && Last(ops[..i + 1]) == ops[i];
      SizedWords(doc);
      SizedWords(ops[i]);
      doc := ComposeDeltas(doc, ops[i], []);
    }
  }
}
