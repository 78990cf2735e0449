/** One message of a wave as the server keeps it: the resident document and its metadata, and the
    tables behind them (crates/gal-server/src/state.rs:977-1170, crates/gal-server/src/db.rs:976-1041,
    1767-1781, 2222-2247). A submission either reaches memory and storage together or neither. */
module Durable {
  import opened Basics
  import opened Deltas
  import opened Building
  import opened Composing
  import opened Documents
  import opened Inverting
  import opened Iterating
  import opened Engine
  import opened Histories
  import opened Limits
  import opened Serving
  import opened Repeating

  /** The metadata of a message, in memory and as its stored row. */
  datatype Meta = Meta(content: seq<Op>, revision: nat, contributors: seq<string>, lastModified: nat)

  datatype OpRow = OpRow(delta: seq<Op>, author: string, timestamp: nat, opId: Option<string>)

  // --- the tables -------------------------------------------------------

  /** The primary key: one row for each revision from 1 to `revision`, with no hole. */
  ghost predicate Consecutive(ops: map<nat, OpRow>, revision: nat) {
    forall r: nat :: r in ops <==> 1 <= r <= revision
  }

  /** The unique index: no op id stands in two rows. */
  predicate UniqueIds(ops: map<nat, OpRow>) {
    forall r, q | r in ops && q in ops && ops[r].opId.Some? && ops[r].opId == ops[q].opId :: r == q
  }

  function LogOf(ops: map<nat, OpRow>, n: nat): seq<seq<Op>>
    requires forall r: nat | 1 <= r <= n :: r in ops
  {
    seq(n, i requires 0 <= i < n => ops[i + 1].delta)
  }

  /** Replaying the op table from empty gives the stored content. After a single op, which may be
      a seed that nobody has put in canonical form, the same content but perhaps not the same runs. */
  ghost predicate Replays(ops: map<nat, OpRow>, row: Meta)
    requires Consecutive(ops, row.revision)
  {
    var replayed := Playback(LogOf(ops, row.revision));
    && IsDocument(replayed) && IsDocument(row.content)
    && Content(replayed) == Content(row.content)
    && (row.revision != 1 || Canonical(row.content) ==> replayed == row.content)
  }

  ghost predicate StoreOk(ops: map<nat, OpRow>, row: Meta) {
    Consecutive(ops, row.revision) && UniqueIds(ops) && Replays(ops, row) && SmallEnough(row.content)
  }

  predicate IdTaken(ops: map<nat, OpRow>, opId: Option<string>) {
    opId.Some? && exists r | r in ops :: ops[r].opId == opId
  }

  lemma {:induction false} LogOfGrows(ops: map<nat, OpRow>, n: nat, op: OpRow)
    requires Consecutive(ops, n)
    ensures var more := ops[n + 1 := op];
            Consecutive(more, n + 1) && LogOf(more, n + 1) == LogOf(ops, n) + [op.delta]
  {
  }

  /** No retain of length zero in `op` stands before an embed of `doc`. Every op that an engine builds
      is harmless; the wire admits others. */
  predicate Harmless(doc: seq<Op>, op: seq<Op>) {
    !EmptyRetainAtEmbed(Content(doc), op)
  }

  /** The same content under the same valid and harmless op gives the same document. */
  lemma {:induction false} SameContentApplied(x: seq<Op>, y: seq<Op>, op: seq<Op>)
    requires IsDocument(x) && IsDocument(y) && Content(x) == Content(y)
    requires Fits(op, Content(x)) && Harmless(x, op)
    ensures IsDocument(Compose(x, op)) && Compose(x, op) == Compose(y, op)
  {
    hide Content, Compose, Fits, Effect, EmptyRetainAtEmbed;
    HarmlessApplies(x, op);
    HarmlessApplies(y, op);
    AppliedDocument(x, op);
    AppliedDocument(y, op);
    CanonicalUnique(Compose(x, op), Compose(y, op));
  }

  /** One committed op keeps the tables in order. */
  lemma {:induction false} StoreGrows(ops: map<nat, OpRow>, row: Meta, row': Meta, op: OpRow)
    requires StoreOk(ops, row) && !IdTaken(ops, op.opId)
    requires Fits(op.delta, Content(row.content)) && Harmless(row.content, op.delta)
    requires row'.revision == row.revision + 1 && row'.content == Compose(row.content, op.delta)
    requires SmallEnough(row'.content)
    ensures StoreOk(ops[row'.revision := op], row')
  {
    hide Content, Compose, Fits, Canonical, SmallEnough, LogOf, EmptyRetainAtEmbed;
    var n := row.revision;
    LogOfGrows(ops, n, op);
    var l := LogOf(ops, n);
    assert Init(l + [op.delta]) == l && Last(l + [op.delta]) == op.delta;
    SameContentApplied(Playback(l), row.content, op.delta);
    assert Playback(LogOf(ops[row'.revision := op], row'.revision)) == row'.content;
    UniqueGrows(ops, n + 1, op);
  }

  lemma {:induction false} UniqueGrows(ops: map<nat, OpRow>, r: nat, op: OpRow)
    requires UniqueIds(ops) && r !in ops && !IdTaken(ops, op.opId)
    ensures UniqueIds(ops[r := op])
  {
  }

  class Storage {
    var row: Meta
    var ops: map<nat, OpRow>

    /** A new message: empty, or seeded by a snapshot that is also its first op. */
    constructor Seeded(content: seq<Op>, author: string, now: nat)
      requires IsDocument(content) && SmallEnough(content)
      ensures StoreOk(ops, row)
      ensures row.content == content && row.revision == if content == [] then 0 else 1
    {
      hide Compose, Canonical, SmallEnough;
      if content == [] {
        row, ops := Meta([], 0, [author], now), map[];
      } else {
        row, ops := Meta(content, 1, [author], now), map[1 := OpRow(content, author, now, None)];
      }
      new;
      SeedReplays(ops, row);
    }

    /** Which revision an op id already produced, unless the lookup fails. */
    method RevisionForOp(opId: string, fails: bool) returns (ok: bool, revision: Option<nat>)
      requires UniqueIds(ops)
      ensures ok <==> !fails
      ensures ok && revision.Some? ==> revision.value in ops && ops[revision.value].opId == Some(opId)
      ensures ok && revision.None? ==> !IdTaken(ops, Some(opId))
    {
      if fails {
        return false, None;
      }
      ok, revision := true, None;
      var todo := ops.Keys;
      while todo != {}
        invariant todo <= ops.Keys
        invariant revision.Some? ==> revision.value in ops && ops[revision.value].opId == Some(opId)
        invariant revision.None? ==> forall r | r in ops && r !in todo :: ops[r].opId != Some(opId)
        decreases todo
      {
        var r :| r in todo;
        if ops[r].opId == Some(opId) {
          revision := Some(r);
        }
        todo := todo - {r};
      }
    }

    /** The op and the row it leads to, in one transaction: both are written or neither is. It
        fails when the revision or the op id is taken, and whenever the database fails. */
    method CommitOp(blip: Meta, op: OpRow, fails: bool) returns (ok: bool)
      modifies this
      ensures ok <==> !fails && blip.revision !in old(ops) && !IdTaken(old(ops), op.opId)
      ensures ok ==> ops == old(ops)[blip.revision := op] && row == blip
      ensures !ok ==> unchanged(this)
    {
      var wasRow, wasOps := row, ops;
      if blip.revision in ops || IdTaken(ops, op.opId) {
        return false;
      }
      ops := ops[blip.revision := op];
      row := blip;
      if fails {
        row, ops := wasRow, wasOps;
        return false;
      }
      ok := true;
    }
  }

  lemma {:induction false} SeedReplays(ops: map<nat, OpRow>, row: Meta)
    requires IsDocument(row.content) && SmallEnough(row.content)
    requires (row.content == [] && row.revision == 0 && ops == map[])
          || (row.content != [] && row.revision == 1 && ops.Keys == {1} && ops[1].delta == row.content && ops[1].opId.None?)
    ensures StoreOk(ops, row)
  {
    hide Compose, Canonical, SmallEnough, Content, Effect;
    if row.revision == 1 {
      var l := LogOf(ops, 1);
      assert l == [row.content] && Init(l) == [] && Last(l) == row.content;
      assert Playback([]) == [];
      SeedApplied(row.content);
    }
  }

  /** Replaying a seed puts it in canonical form. */
  lemma {:induction false} SeedApplied(seed: seq<Op>)
    requires IsDocument(seed)
    ensures IsDocument(Compose([], seed)) && Content(Compose([], seed)) == Content(seed)
    ensures Compose([], seed) == seed <==> Canonical(seed)
  {
    hide Compose, Canonical, Content, Effect;
    ContentNothing();
    ContentIsEffect(seed);
    DocumentFits(seed);
    SeedPushed(seed);
    AppliedDocument([], seed);
    if Canonical(seed) {
      CanonicalUnique(Compose([], seed), seed);
    }
  }

  lemma {:induction false} SeedPushed(seed: seq<Op>)
    requires IsDocument(seed)
    ensures Content(Compose([], seed)) == Content(seed)
  {
    hide Content, Built, Effect, ComposeList;
    DocumentFits(seed);
    ContentNothing();
    EffectNothing([]);
    ComposeListFits([], [], seed);
    BuiltKeeps(ComposeList([], seed), []);
    ContentIsEffect(Compose([], seed));
    ContentIsEffect(seed);
    ComposeAfterNothing(seed);
    SameFlat(ComposeList([], seed), seed);
  }

  lemma {:induction false} SameFlat(x: seq<Op>, y: seq<Op>)
    requires Flat(x) == Flat(y)
    ensures Effect([], x) == Effect([], y)
  {
  }

  // --- the resident message ---------------------------------------------

  datatype Reply =
    | NotFound
    | Forbidden
    | Resync
    | Ack(revision: nat, delta: seq<Op>)

  /** The author is among the contributors, in place if they were before, and nobody else moves. */
  function Contributed(contributors: seq<string>, user: string): (r: seq<string>)
    ensures user in r && contributors <= r
    ensures user in contributors ==> r == contributors
    ensures user !in contributors ==> |r| == |contributors| + 1
  {
    if user in contributors then contributors else contributors + [user]
  }

  predicate Distinct(names: seq<string>) {
    forall i, j | 0 <= i < j < |names| :: names[i] != names[j]
  }

  /** Nobody is listed twice. */
  lemma {:induction false} ContributedOnce(contributors: seq<string>, user: string)
    requires Distinct(contributors)
    ensures Distinct(Contributed(contributors, user))
  {
  }

  /** Units of a document, added up run by run. */
  lemma {:induction false} InsertLenContent(doc: seq<Op>)
    requires IsDocument(doc)
    ensures InsertLen(doc) == |Content(doc)|
  {
    hide Content;
    ContentNothing();
    if doc != [] {
      ContentStep(doc);
      InsertLenContent(doc[1..]);
    }
  }

  /** `Delta::len`. */
  method DocumentLen(doc: seq<Op>) returns (n: nat)
    requires IsDocument(doc) && |Content(doc)| < INFINITY
    ensures n == |Content(doc)|
  {
    hide Content;
    InsertLenContent(doc);
    n := 0;
    for i := 0 to |doc|
      invariant n + InsertLen(doc[i..]) == InsertLen(doc)
    {
      assert doc[i..][1..] == doc[i + 1..];
      n := SaturatingAdd(n, doc[i].Len());
    }
  }

  /** What an op that has just been applied leaves, and its inverse, are small enough to take the op
      back, whether or not it applied exactly. */
  lemma {:induction false} AppliedCanStepBack(content: seq<Op>, op: seq<Op>)
    requires IsDocument(content) && Fits(op, Content(content)) && |Content(content)| < INFINITY
    requires |Content(Compose(content, op))| < INFINITY
    ensures var undo := Invert(op, content);
            WordSized(Compose(content, op)) && WordSized(undo) && Span(undo) <= InsertLen(Compose(content, op))
  {
    hide Content, Compose, Fits, Effect, Invert, Undone, AppliesExactly, MeetsEmbed;
    var next, undo, d := Compose(content, op), Invert(op, content), Content(content);
    AppliedDocument(content, op);
    ContentSized(next);
    SizedWords(next);
    InsertLenContent(next);
    AppliesExactlyIff(content, op);
    InvertEffect(op, content);
    UndoneIff(d, op);
    UndoSized(undo, Effect(d, op));
    SizedWords(undo);
    FitsAppend(undo, [], Effect(d, op));
  }

  /** An op that is rebased has no empty op; one that is not may repeat an embed for each op it has. */
  lemma {:induction false} AppliedSmall(content: seq<Op>, op: seq<Op>, n: nat)
    requires IsDocument(content) && Fits(op, Content(content)) && (NoEmptyOp(op) || |op| <= n)
    requires |Content(content)| + InsertLen(op) + n < INFINITY
    ensures |Content(Compose(content, op))| < INFINITY
  {
    hide Content, Compose, Fits, Effect, MeetsEmbed;
    AppliesExactlyIff(content, op);
    EffectSize(Content(content), op);
    AppliedDocument(content, op);
  }

  class LiveBlip {
    const doc: ServerDoc
    const store: Storage
    var meta: Meta

    /** Memory and storage say the same, the document is what its log makes it, and the tables
        are in order. */
    ghost predicate Consistent()
      reads this, doc, store
    {
      && doc.Exact() && InMemoryLog(doc.log) && doc.peak <= |doc.log| + 1
      && meta.content == doc.content && meta.revision == doc.revision
      && store.row == meta && StoreOk(store.ops, store.row)
    }

    /** The document started canonical and without explicit nulls, and no op brought one in. */
    ghost predicate Wholesome()
      reads doc
    {
      Clean(doc.base, doc.log)
    }

    /** Wrap a stored message. */
    constructor (store: Storage)
      requires StoreOk(store.ops, store.row)
      ensures Consistent() && this.store == store && fresh(doc) && meta == store.row
      ensures Canonical(store.row.content) && NullFreeCells(Content(store.row.content)) ==> Wholesome()
    {
      hide StoreOk, Canonical, NullFreeCells;
      StoredSmall(store.ops, store.row);
      var d := new ServerDoc.Restored(store.row.content, store.row.revision);
      this.store := store;
      this.doc := d;
      this.meta := store.row;
    }

    method Sync()
      modifies this
      ensures meta == old(meta).(content := doc.content, revision := doc.revision)
    {
      meta := meta.(content := doc.content, revision := doc.revision);
    }

    method RecordContributor(user: string, now: nat)
      modifies this
      ensures meta == old(meta).(contributors := Contributed(old(meta).contributors, user), lastModified := now)
    {
      if user !in meta.contributors {
        meta := meta.(contributors := meta.contributors + [user]);
      }
      meta := meta.(lastModified := now);
    }

    /** Has this op id been committed already? A lookup that fails says no. */
    method AlreadyApplied(opId: Option<string>, lookupFails: bool) returns (revision: Option<nat>)
      requires UniqueIds(store.ops)
      ensures revision.Some? ==> opId.Some? && revision.value in store.ops && store.ops[revision.value].opId == opId
      ensures !lookupFails ==> (revision.Some? <==> IdTaken(store.ops, opId))
      ensures lookupFails ==> revision.None?
    {
      revision := None;
      if opId.Some? {
        var ok, found := store.RevisionForOp(opId.value, lookupFails);
        if ok {
          revision := found;
        }
      }
    }

    /** Take the op just applied back out of memory. */
    method TakeBack()
      requires doc.Valid() && doc.history != [] && InMemoryLog(doc.log) && doc.CanStepBack()
      modifies this, doc
      ensures doc.Valid() && InMemoryLog(doc.log) && doc.base == old(doc.base) && doc.first == old(doc.first)
      ensures doc.peak == old(doc.peak)
      ensures old(doc.log) != [] && doc.log == Init(old(doc.log)) && doc.revision == old(doc.revision) - 1
      ensures meta == old(meta).(content := doc.content, revision := doc.revision)
      ensures old(doc.Exact()) ==>
                var prior, delta := Replayed(doc.base, doc.log), Last(old(doc.log)).delta;
                && Fits(delta, Content(prior))
                && (doc.Exact() <==> Canonical(prior) && NoNullFormatted(Content(prior), delta))
      ensures old(doc.Exact()) && Clean(doc.base, doc.log) ==> doc.Exact()
    {
      hide Content, Fits, Replayed, Canonical, NoNullFormatted, Clean, Sound, Retained, InMemory, Inverses, Compose,
        ComposeAny, SameSyms, WordSized;
      var ok := doc.RollbackLast();
      Sync();
    }

    /** Write the op just applied, or take it back out of memory. */
    method Persist(committed: Revision, author: string, opId: Option<string>, now: nat, commitFails: bool,
          ghost before: Meta)
        returns (ok: bool)
      requires doc.Valid() && doc.history != [] && InMemoryLog(doc.log) && doc.CanStepBack()
      requires doc.log != [] && Last(doc.log) == committed && doc.revision == before.revision + 1 == committed.revision
      requires before == meta == store.row && StoreOk(store.ops, store.row)
      requires before.content == Replayed(doc.base, Init(doc.log)) && doc.content == Compose(before.content, committed.delta)
      requires Fits(committed.delta, Content(before.content)) && SmallEnough(doc.content)
      requires Harmless(before.content, committed.delta) ==> doc.Exact()
      requires doc.peak <= |doc.log|
      modifies this, doc, store
      ensures ok <==> !commitFails && !IdTaken(old(store.ops), opId)
      ensures doc.peak == old(doc.peak)
      ensures ok ==>
                && unchanged(doc) && store.row == meta
                && meta == Meta(old(doc.content), old(doc.revision), Contributed(before.contributors, author), now)
                && store.ops == old(store.ops)[committed.revision := OpRow(committed.delta, author, now, opId)]
                && (Harmless(before.content, committed.delta) ==> Consistent())
      ensures !ok ==>
                && unchanged(store) && doc.log == Init(old(doc.log)) && doc.base == old(doc.base)
                && meta == before.(content := doc.content)
      ensures !ok && Harmless(before.content, committed.delta) ==>
                && (Consistent() <==> Canonical(before.content) && NoNullFormatted(Content(before.content), committed.delta))
                && (Clean(doc.base, doc.log) ==> Consistent())
    {
      hide Content, Fits, Replayed, Canonical, NoNullFormatted, Clean, Sound, Retained, InMemory, Inverses, StoreOk,
        Compose, SmallEnough, Harmless, WordSized, Numbered;
      var contributors, modified := meta.contributors, meta.lastModified;
      Sync();
      RecordContributor(author, now);
      var op := OpRow(committed.delta, author, now, opId);
      NextRevisionFree(store.ops, store.row);
      if !IdTaken(store.ops, opId) && Harmless(before.content, committed.delta) {
        StoreGrows(store.ops, store.row, meta, op);
      }
      ok := store.CommitOp(meta, op, commitFails);
      if !ok {
        TakeBack();
        meta := meta.(contributors := contributors, lastModified := modified);
      }
    }

    /** Can the document be rebased over from `since`? */
    ghost predicate Reaches(since: nat)
      requires doc.Valid()
      reads this, doc
    {
      doc.OldestRetained() <= since <= doc.revision
    }

    /** Apply an op to memory; if the result is too large, or cannot be written, take it back. */
    method ApplyPermitted(clientRevision: nat, delta: seq<Op>, opId: Option<string>, author: string, now: nat,
          commitFails: bool)
        returns (reply: Reply, ghost rebased: seq<Op>)
      requires Consistent()
      requires InMemory(delta) && MAX_BLIP_UNITS + InsertLen(delta) + |delta| < INFINITY
      modifies this, doc, store
      ensures reply.Ack? || reply.Resync?
      ensures reply.Ack? <==>
                && old(Reaches(clientRevision)) && Fits(rebased, Content(old(doc.content)))
                && SmallEnough(Compose(old(doc.content), rebased))
                && !commitFails && !IdTaken(old(store.ops), opId)
      ensures reply.Ack? ==>
                && reply == Ack(old(doc.revision) + 1, rebased) && store.row == meta
                && meta == Meta(Compose(old(doc.content), rebased), old(doc.revision) + 1, Contributed(old(meta.contributors), author), now)
                && store.ops == old(store.ops)[reply.revision := OpRow(rebased, author, now, opId)]
                && doc.content == meta.content && doc.base == old(doc.base) && |doc.log| == |old(doc.log)| + 1
                && Init(doc.log) == old(doc.log)
                && Last(doc.log) == Revision(old(doc.revision) + 1, rebased, Invert(rebased, old(doc.content)), author)
                && (old(Wholesome()) && NullFreeInserts(rebased) ==> Wholesome())
                && (Harmless(old(doc.content), rebased) ==> Consistent())
      ensures reply.Resync? ==>
                && unchanged(store) && doc.base == old(doc.base) && doc.log == old(doc.log)
                && meta == old(meta).(content := doc.content)
                && (old(Wholesome()) && Harmless(old(doc.content), rebased) ==> Consistent())
                && (!Consistent() ==>
                      Fits(rebased, Content(old(doc.content)))
                      && !(Harmless(old(doc.content), rebased) && Canonical(old(doc.content))
                           && NoNullFormatted(Content(old(doc.content)), rebased)))
      ensures NullFreeInserts(delta) ==> NullFreeInserts(rebased)
      ensures NoEmptyOp(delta) || (old(Reaches(clientRevision)) && clientRevision < old(doc.revision)) ==> NoEmptyOp(rebased)
      ensures NoEmptyOp(rebased) ==> Harmless(old(doc.content), rebased)
      ensures old(Reaches(clientRevision))
              && Fits(delta, Content(Replayed(old(doc.base), old(doc.log)[..clientRevision - old(doc.first)])))
              ==>
                && Fits(rebased, Content(old(doc.content)))
                && rebased == Rebased(delta, old(doc.log)[clientRevision - old(doc.first)..])
    {
      hide Content, Fits, Replayed, Canonical, NoNullFormatted, Clean, Sound, Retained, InMemory, Inverses, StoreOk,
        Compose, NoEmptyOp, Verdict, Rebased, Trimmed, AppliesExactly, NullFreeInserts, EmptyRetainAtEmbed, Invert,
        WordSized, InsertLen, Span, Numbered;
      ghost var before := meta;
      StoredSmall(store.ops, store.row);
      var result;
      result, rebased := doc.Apply(clientRevision, delta, author);
      if NoEmptyOp(rebased) {
        NoEmptyHarmless(Content(before.content), rebased);
      }
      if result.Err? {
        return Resync, rebased;
      }
      var committed := result.value;
      assert Init(doc.log) == old(doc.log) && Last(doc.log) == committed;
      CleanGrows(doc.base, old(doc.log), committed);
      AppliedDocument(before.content, rebased);
      AppliedSmall(before.content, rebased, |delta|);
      AppliedCanStepBack(before.content, rebased);
      TrimmedLast(old(doc.history), committed);
      if Harmless(before.content, rebased) {
        HarmlessApplies(before.content, rebased);
      }
      LogEnds(doc.log);
      var units := DocumentLen(doc.content);
      if units > MAX_BLIP_UNITS || |doc.content| > MAX_BLIP_RUNS {
        TakeBack();
        return Resync, rebased;
      }
      var ok := Persist(committed, author, opId, now, commitFails, before);
      reply := if ok then Ack(committed.revision, committed.delta) else Resync;
    }

    /** A client's submission. `access` and `permitted` are the verdicts on its author; either
        table operation may fail. `rebased` is the op as it stands on the current document. */
    method ApplyOp(clientRevision: nat, delta: seq<Op>, opId: Option<string>, author: string, access: bool,
          permitted: bool, now: nat, lookupFails: bool, commitFails: bool)
        returns (reply: Reply, ghost rebased: seq<Op>)
      requires Consistent()
      requires InMemory(delta) && MAX_BLIP_UNITS + InsertLen(delta) + |delta| < INFINITY
      modifies this, doc, store
      // Refused, or recognised as applied before: nothing changes.
      ensures reply.NotFound? <==> !access
      ensures reply.NotFound? || reply.Forbidden? ==> unchanged(this, doc, store)
      ensures access && !lookupFails && IdTaken(old(store.ops), opId) ==>
                && unchanged(this, doc, store) && reply.Ack? && reply.delta == []
                && reply.revision in store.ops && store.ops[reply.revision].opId == opId
      ensures access && (lookupFails || !IdTaken(old(store.ops), opId)) ==> (reply.Forbidden? <==> !permitted)
      // Otherwise the op is committed if and only if all of the checks pass and the write succeeds.
      ensures access && permitted && (lookupFails || !IdTaken(old(store.ops), opId)) ==>
                && (reply.Ack? <==>
                      && old(Reaches(clientRevision)) && Fits(rebased, Content(old(doc.content)))
                      && SmallEnough(Compose(old(doc.content), rebased))
                      && !commitFails && !IdTaken(old(store.ops), opId))
                && (reply.Ack? ==>
                      && reply == Ack(old(doc.revision) + 1, rebased) && store.row == meta
                      && meta == Meta(Compose(old(doc.content), rebased), old(doc.revision) + 1, Contributed(old(meta.contributors), author), now)
                      && store.ops == old(store.ops)[reply.revision := OpRow(rebased, author, now, opId)]
                      && doc.content == meta.content && doc.base == old(doc.base) && |doc.log| == |old(doc.log)| + 1
                      && Init(doc.log) == old(doc.log)
                      && Last(doc.log) == Revision(old(doc.revision) + 1, rebased, Invert(rebased, old(doc.content)), author)
                      && (old(Wholesome()) && NullFreeInserts(rebased) ==> Wholesome())
                      && (Harmless(old(doc.content), rebased) ==> Consistent()))
      // What is not committed leaves storage alone, and memory is put back.
      ensures reply.Resync? ==>
                && unchanged(store) && doc.base == old(doc.base) && doc.log == old(doc.log)
                && meta == old(meta).(content := doc.content)
                && (old(Wholesome()) && Harmless(old(doc.content), rebased) ==> Consistent())
                && (!Consistent() ==>
                      Fits(rebased, Content(old(doc.content)))
                      && !(Harmless(old(doc.content), rebased) && Canonical(old(doc.content))
                           && NoNullFormatted(Content(old(doc.content)), rebased)))
      ensures NullFreeInserts(delta) ==> NullFreeInserts(rebased)
      ensures NoEmptyOp(delta) ==> NoEmptyOp(rebased)
      ensures NoEmptyOp(rebased) ==> Harmless(old(doc.content), rebased)
      ensures old(Reaches(clientRevision)) && access && permitted && (lookupFails || !IdTaken(old(store.ops), opId)) ==>
                && (clientRevision < old(doc.revision) ==> NoEmptyOp(rebased))
                && (Fits(delta, Content(Replayed(old(doc.base), old(doc.log)[..clientRevision - old(doc.first)]))) ==>
                      && Fits(rebased, Content(old(doc.content)))
                      && rebased == Rebased(delta, old(doc.log)[clientRevision - old(doc.first)..]))
    {
      hide Content, Fits, Replayed, Canonical, NoNullFormatted, Clean, Sound, Retained, InMemory, Inverses, StoreOk,
        Compose, NoEmptyOp, SmallEnough, Verdict, Rebased, NullFreeInserts, EmptyRetainAtEmbed, InsertLen, Invert;
      rebased := delta;
      if NoEmptyOp(delta) {
        NoEmptyHarmless(Content(doc.content), delta);
      }
      if !access {
        return NotFound, rebased;
      }
      StoredIds(store.ops, store.row);
      var applied := AlreadyApplied(opId, lookupFails);
      if applied.Some? {
        return Ack(applied.value, []), rebased;
      }
      if !permitted {
        return Forbidden, rebased;
      }
      reply, rebased := ApplyPermitted(clientRevision, delta, opId, author, now, commitFails);
    }

    /** Any mix of submissions, retries, refusals and failures. As long as nobody sends an empty op or
        an explicit null, memory and storage say the same at every point of it, the op log replays to
        the document without a hole, no op id stands in it twice, and the limits hold. */
    method ApplyAll(submissions: seq<Submission>)
      requires Consistent() && Wholesome() && forall s | s in submissions :: WellMeant(s)
      modifies this, doc, store
      ensures Consistent() && Wholesome()
    {
      hide StoreOk, Clean, NoEmptyOp, NullFreeInserts, Harmless, InMemory, Content, Fits, Compose, Replayed, Canonical,
        NoNullFormatted, Rebased, SmallEnough;
      for i := 0 to |submissions|
        invariant Consistent() && Wholesome()
      {
        var s := submissions[i];
        assert WellMeant(s);
        var reply, rebased := ApplyOp(s.revision, s.delta, s.opId, s.author, s.access, s.permitted, s.now,
                                      s.lookupFails, s.commitFails);
      }
    }
  }

  /** A submission, the verdicts on its author, and which table operations fail while it is handled. */
  datatype Submission = Submission(revision: nat, delta: seq<Op>, opId: Option<string>, author: string, access: bool,
                                   permitted: bool, now: nat, lookupFails: bool, commitFails: bool)

  /** An op as an engine builds it: no empty op, no explicit null on an insert, and it fits in memory. */
  predicate WellMeant(s: Submission) {
    && NoEmptyOp(s.delta) && NullFreeInserts(s.delta)
    && InMemory(s.delta) && MAX_BLIP_UNITS + InsertLen(s.delta) + |s.delta| < INFINITY
  }

  lemma {:induction false} LogEnds(log: seq<Revision>)
    ensures log != [] ==> Init(log) + [Last(log)] == log
  {
  }

  lemma {:induction false} TrimmedLast(history: seq<Revision>, entry: Revision)
    ensures Trimmed(history + [entry]) != [] && Last(Trimmed(history + [entry])) == entry
  {
  }

  lemma {:induction false} StoredSmall(ops: map<nat, OpRow>, row: Meta)
    requires StoreOk(ops, row)
    ensures IsDocument(row.content) && |Content(row.content)| <= MAX_BLIP_UNITS < INFINITY
  {
    hide Content, Canonical;
  }

  lemma {:induction false} NextRevisionFree(ops: map<nat, OpRow>, row: Meta)
    requires StoreOk(ops, row)
    ensures row.revision + 1 !in ops
  {
  }

  lemma {:induction false} StoredIds(ops: map<nat, OpRow>, row: Meta)
    requires StoreOk(ops, row)
    ensures UniqueIds(ops)
  {
  }
}
