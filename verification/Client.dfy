/** The client half of the protocol (crates/gal-server/src/web/client.js:36-147): one blip's
    document, with at most one op in flight and the edits made meanwhile in a single buffer. */
module Client {
  import opened Basics
  import opened Deltas
  import opened Composing
  import opened Transforming
  import opened Documents

  /** A change the editor or the server hands over: it fits the document and has no empty op. */
  predicate Valid(change: seq<Op>, doc: seq<Op>) {
    Fits(change, Content(doc)) && NoEmptyOp(change)
  }

  function Then(doc: seq<Op>, change: Option<seq<Op>>): seq<Op> {
    if change.None? then doc else Compose(doc, change.value)
  }

  /** `doc` is the server's document, then the op in flight, then the buffer. */
  predicate Follows(server: seq<Op>, doc: seq<Op>, outstanding: Option<seq<Op>>, buffer: Option<seq<Op>>) {
    && IsDocument(server)
    && (outstanding.Some? ==> Valid(outstanding.value, server))
    && (buffer.Some? ==> outstanding.Some? && Valid(buffer.value, Then(server, outstanding)))
    && doc == Then(Then(server, outstanding), buffer)
  }

  // --- what each event does to the pending ops --------------------------

  function Buffered(buffer: Option<seq<Op>>, delta: seq<Op>): seq<Op> {
    if buffer.None? then delta else Compose(buffer.value, delta)
  }

  /** An op from another participant, rebased over the op in flight. */
  function PastOutstanding(delta: seq<Op>, outstanding: Option<seq<Op>>): seq<Op> {
    if outstanding.None? then delta else Transform(outstanding.value, delta, false)
  }

  /** ... and then over the buffer: what the rendered view applies. */
  function PastPending(delta: seq<Op>, outstanding: Option<seq<Op>>, buffer: Option<seq<Op>>): seq<Op> {
    var rebased := PastOutstanding(delta, outstanding);
    if buffer.None? then rebased else Transform(buffer.value, rebased, false)
  }

  function Moved(delta: seq<Op>, pending: Option<seq<Op>>): Option<seq<Op>> {
    if pending.None? then None else Some(Transform(delta, pending.value, true))
  }

  lemma {:induction false} ValidApplied(doc: seq<Op>, change: seq<Op>)
    requires IsDocument(doc) && Valid(change, doc)
    ensures IsDocument(Compose(doc, change)) && Canonical(Compose(doc, change))
    ensures Content(Compose(doc, change)) == Effect(Content(doc), change)
  {
    hide Content, Effect, Compose;
    ApplyChange(doc, change);
  }

  /** Two concurrent changes, each moved past the other: both are valid where they go, and both
      orders give the same document. */
  lemma {:induction false} MovedPast(doc: seq<Op>, a: seq<Op>, b: seq<Op>)
    requires IsDocument(doc) && Valid(a, doc) && Valid(b, doc)
    ensures Valid(Transform(a, b, true), Compose(doc, a)) && Valid(Transform(b, a, false), Compose(doc, b))
    ensures Compose(Compose(doc, a), Transform(a, b, true)) == Compose(Compose(doc, b), Transform(b, a, false))
  {
    hide Content, Effect, Compose, Transform, Fits;
    ValidApplied(doc, a);
    ValidApplied(doc, b);
    TransformMeans(Content(doc), a, b, true);
    TransformMeans(Content(doc), b, a, false);
    AppliedDocument(doc, a);
    AppliedDocument(doc, b);
    ConvergeDocuments(doc, a, b);
  }

  /** A local edit goes into flight, or into the buffer; the document follows the server still. */
  lemma {:induction false} FollowsLocal(server: seq<Op>, doc: seq<Op>, outstanding: Option<seq<Op>>,
        buffer: Option<seq<Op>>, delta: seq<Op>)
    requires Follows(server, doc, outstanding, buffer) && Valid(delta, doc)
    ensures if outstanding.None? then Follows(server, Compose(doc, delta), Some(delta), None)
            else Follows(server, Compose(doc, delta), outstanding, Some(Buffered(buffer, delta)))
  {
    hide Content, Effect, Compose, Fits;
    if outstanding.Some? {
      ValidApplied(server, outstanding.value);
      if buffer.Some? {
        var middle := Compose(server, outstanding.value);
        ValidApplied(middle, buffer.value);
        ComposeDocuments(middle, buffer.value, delta);
        ComposeMeans(Content(middle), buffer.value, delta);
      }
    }
  }

  /** Another participant's op moves the server on; rebased past what is pending here, it keeps
      the document in step. */
  lemma {:induction false} FollowsRemote(server: seq<Op>, doc: seq<Op>, outstanding: Option<seq<Op>>,
        buffer: Option<seq<Op>>, delta: seq<Op>)
    requires Follows(server, doc, outstanding, buffer) && Valid(delta, server)
    ensures var rebased := PastPending(delta, outstanding, buffer);
            && Valid(rebased, doc)
            && Follows(Compose(server, delta), Compose(doc, rebased), Moved(delta, outstanding),
                       Moved(PastOutstanding(delta, outstanding), buffer))
  {
    hide Content, Effect, Compose, Transform, Fits;
    ValidApplied(server, delta);
    if outstanding.Some? {
      MovedPast(server, delta, outstanding.value);
      ValidApplied(server, outstanding.value);
      if buffer.Some? {
        MovedPast(Compose(server, outstanding.value), PastOutstanding(delta, outstanding), buffer.value);
      }
    }
  }

  /** The server commits the op in flight as it stands here: the buffer takes its place. */
  lemma {:induction false} FollowsAck(server: seq<Op>, doc: seq<Op>, outstanding: Option<seq<Op>>,
        buffer: Option<seq<Op>>)
    requires Follows(server, doc, outstanding, buffer) && outstanding.Some?
    ensures Follows(Compose(server, outstanding.value), doc, buffer, None)
  {
    hide Content, Compose, Fits;
    ValidApplied(server, outstanding.value);
  }

  /** Everything typed and not confirmed, as one change, takes the server's document to this one. */
  lemma {:induction false} PendingMeans(server: seq<Op>, doc: seq<Op>, outstanding: Option<seq<Op>>,
        buffer: Option<seq<Op>>)
    requires Follows(server, doc, outstanding, buffer)
    ensures outstanding.Some? && buffer.Some? ==> Compose(server, Compose(outstanding.value, buffer.value)) == doc
    ensures outstanding.Some? && buffer.None? ==> Compose(server, outstanding.value) == doc
    ensures outstanding.None? ==> server == doc
  {
    hide Content, Effect, Compose, Fits;
    if outstanding.Some? && buffer.Some? {
      ValidApplied(server, outstanding.value);
      ComposeDocuments(server, outstanding.value, buffer.value);
    }
  }

  class BlipDoc {
    var doc: seq<Op>
    var revision: nat
    var outstanding: Option<seq<Op>>
    var buffer: Option<seq<Op>>
    var outstandingOpId: Option<string>

    /** The document is the server's document at `revision` with the pending ops on top. */
    ghost predicate InStep(server: seq<Op>)
      reads this
    {
      && Follows(server, doc, outstanding, buffer)
      && (outstanding.Some? ==> outstandingOpId.Some?)
    }

    constructor (content: seq<Op>, revision: nat)
      requires IsDocument(content)
      ensures InStep(content) && this.revision == revision && outstanding.None?
    {
      this.doc, this.revision := content, revision;
      outstanding, buffer, outstandingOpId := None, None, None;
    }

    /** Nothing typed here is still unconfirmed. */
    predicate IsSynchronised()
      reads this
    {
      outstanding.None? && buffer.None?
    }

    /** Apply a local edit; the op to send now, unless one is already in flight. */
    method ApplyLocal(delta: seq<Op>, newOpId: string, ghost server: seq<Op>) returns (send: Option<seq<Op>>)
      requires InStep(server) && Valid(delta, doc)
      modifies this
      ensures InStep(server) && doc == Compose(old(doc), delta) && revision == old(revision)
      ensures send == if old(outstanding).None? then Some(delta) else None
      ensures old(outstanding).None? ==> outstanding == Some(delta) && buffer == None && outstandingOpId == Some(newOpId)
      ensures old(outstanding).Some? ==>
                outstanding == old(outstanding) && outstandingOpId == old(outstandingOpId) && buffer == Some(Buffered(old(buffer), delta))
    {
      hide Valid, Compose, Then, Follows;
      FollowsLocal(server, doc, outstanding, buffer, delta);
      FollowsOrder(server, doc, outstanding, buffer);
      doc := Compose(doc, delta);
      if outstanding.None? {
        outstanding := Some(delta);
        outstandingOpId := Some(newOpId);
        return Some(delta);
      }
      buffer := if buffer.None? then Some(delta) else Some(Compose(buffer.value, delta));
      send := None;
    }

    /** Apply another participant's op; the delta the rendered view has to apply. */
    method ApplyRemote(delta: seq<Op>, at: nat, ghost server: seq<Op>) returns (applied: seq<Op>)
      requires InStep(server) && Valid(delta, server)
      modifies this
      ensures InStep(Compose(server, delta)) && revision == at
      ensures applied == PastPending(delta, old(outstanding), old(buffer))
      ensures Valid(applied, old(doc)) && doc == Compose(old(doc), applied)
      ensures outstanding == Moved(delta, old(outstanding)) && outstandingOpId == old(outstandingOpId)
      ensures buffer == Moved(PastOutstanding(delta, old(outstanding)), old(buffer))
    {
      hide Valid, Compose, Then, Follows, Transform;
      FollowsRemote(server, doc, outstanding, buffer, delta);
      FollowsOrder(server, doc, outstanding, buffer);
      revision := at;
      if outstanding.None? {
        doc := Compose(doc, delta);
        return delta;
      }
      var newOutstanding := Transform(delta, outstanding.value, true);
      var rebased := Transform(outstanding.value, delta, false);
      var newBuffer: Option<seq<Op>> := None;
      if buffer.Some? {
        newBuffer := Some(Transform(rebased, buffer.value, true));
        rebased := Transform(buffer.value, rebased, false);
      }
      outstanding := Some(newOutstanding);
      buffer := newBuffer;
      doc := Compose(doc, rebased);
      applied := rebased;
    }

    /** The op in flight has been committed: the buffer, if there is one, takes off in its place. */
    method Acknowledge(at: nat, newOpId: string, ghost server: seq<Op>) returns (send: Option<seq<Op>>)
      requires InStep(server)
      modifies this
      ensures InStep(Then(server, old(outstanding)))
      ensures doc == old(doc) && revision == at
      ensures outstanding == old(buffer) && buffer == None && send == outstanding
      ensures outstandingOpId == if outstanding.Some? then Some(newOpId) else None
    {
      hide Valid, Compose, Follows;
      FollowsOrder(server, doc, outstanding, buffer);
      if outstanding.Some? {
        FollowsAck(server, doc, outstanding, buffer);
      }
      revision := at;
      if buffer.Some? {
        outstanding := buffer;
        buffer := None;
        outstandingOpId := Some(newOpId);
        return outstanding;
      }
      outstanding := None;
      outstandingOpId := None;
      send := None;
    }

    /** What is unconfirmed, as a single change. */
    method PendingWork(ghost server: seq<Op>) returns (work: Option<seq<Op>>)
      requires InStep(server)
      ensures work.None? <==> IsSynchronised()
      ensures doc == Then(server, work)
    {
      hide Valid, Compose;
      PendingMeans(server, doc, outstanding, buffer);
      if outstanding.None? {
        return buffer;
      }
      if buffer.None? {
        return outstanding;
      }
      work := Some(Compose(outstanding.value, buffer.value));
    }

    /** Start again from the server's document. */
    method Reset(content: seq<Op>, at: nat)
      requires IsDocument(content)
      modifies this
      ensures InStep(content) && IsSynchronised() && doc == content && revision == at
      ensures outstandingOpId == old(outstandingOpId)
    {
      doc, revision := content, at;
      outstanding, buffer := None, None;
    }
  }

  lemma {:induction false} FollowsOrder(server: seq<Op>, doc: seq<Op>, outstanding: Option<seq<Op>>,
        buffer: Option<seq<Op>>)
    requires Follows(server, doc, outstanding, buffer)
    ensures buffer.Some? ==> outstanding.Some?
    ensures IsDocument(server)
  {
  }
}
