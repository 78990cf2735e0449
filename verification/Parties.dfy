/** The state machine of `Protocol` against the objects that play it: what the contracts of the
    browser's `BlipDoc` and of the server's `LiveBlip` promise are exactly its steps
    (crates/gal-server/src/web/client.js:52-147, crates/gal-server/src/state.rs:1059-1166). */
module Parties {
  import opened Basics
  import opened Deltas
  import opened Composing
  import opened Inverting
  import opened Iterating
  import opened Histories
  import opened Client
  import opened Limits
  import opened Protocol
  import Serving
  import Durable

  // The protocol counts revisions from the moment the message was loaded; the parties count on from
  // the revision it was at then, `first`.

  // --- a client ---------------------------------------------------------

  /** The fields of `d` are those of `p`. */
  ghost predicate Plays(d: BlipDoc, p: Peer, first: nat)
    reads d
  {
    d.doc == p.doc && d.revision == first + p.revision && d.outstanding == p.outstanding && d.buffer == p.buffer
  }

  /** What a client sends joins the queue to the server, with the revision it is at. */
  function Sent(p: Peer, send: Option<seq<Op>>, revision: nat): seq<Protocol.Submission> {
    if send.None? then p.toServer else p.toServer + [Protocol.Submission(revision, send.value)]
  }

  /** Between `s` and `s'` something happened to client `i`, and to nothing else. */
  predicate OnlyClient(s: System, s': System, i: nat) {
    s'.base == s.base && s'.log == s.log && s'.content == s.content && s'.peers - {i} == s.peers - {i}
  }

  /** Opening the wave is the event of joining. */
  method Open(content: seq<Op>, revision: nat, ghost s: System, ghost i: nat, ghost first: nat) returns (d: BlipDoc)
    requires IsDocument(s.content) && content == s.content && revision == first + |s.log| && i !in s.peers
    ensures Enabled(s, Join(i))
    ensures var s' := Happens(s, Join(i));
            && OnlyClient(s, s', i) && i in s'.peers && s'.peers[i].toServer == [] && s'.peers[i].toClient == []
            && fresh(d) && Plays(d, s'.peers[i], first) && d.InStep(s.content)
  {
    d := new BlipDoc(content, revision);
    assert s.peers[i := Joined(s)] - {i} == s.peers - {i};
  }

  /** Typing is the event of an edit. */
  method Type(d: BlipDoc, delta: seq<Op>, opId: string, ghost s: System, ghost i: nat, ghost first: nat,
        ghost server: seq<Op>)
      returns (send: Option<seq<Op>>)
    requires i in s.peers && Plays(d, s.peers[i], first) && d.InStep(server) && Client.Valid(delta, d.doc)
    modifies d
    ensures Enabled(s, Edit(i, delta)) && d.InStep(server)
    ensures var s' := Happens(s, Edit(i, delta));
            && OnlyClient(s, s', i) && i in s'.peers && Plays(d, s'.peers[i], first)
            && s'.peers[i].toServer == Sent(s.peers[i], send, s.peers[i].revision)
            && s'.peers[i].toClient == s.peers[i].toClient
  {
    hide Client.Valid, Compose;
    send := d.ApplyLocal(delta, opId, server);
    assert s.peers[i := Typed(s.peers[i], delta)] - {i} == s.peers - {i};
  }

  /** Someone else's op is the first message in the queue, and taking it is the event of receiving.
      `server` is the server's document at the client's revision. */
  method Hear(d: BlipDoc, delta: seq<Op>, at: nat, ghost s: System, ghost i: nat, ghost first: nat,
        ghost server: seq<Op>)
    requires i in s.peers && Plays(d, s.peers[i], first) && d.InStep(server) && Client.Valid(delta, server)
    requires s.peers[i].toClient != [] && at >= first && s.peers[i].toClient[0] == Remote(at - first, delta)
    modifies d
    ensures Enabled(s, Event.Receive(i)) && d.InStep(Compose(server, delta))
    ensures var s' := Happens(s, Event.Receive(i));
            && OnlyClient(s, s', i) && i in s'.peers && Plays(d, s'.peers[i], first)
            && s'.peers[i].toServer == s.peers[i].toServer && s'.peers[i].toClient == s.peers[i].toClient[1..]
  {
    hide Client.Valid, Compose;
    var applied := d.ApplyRemote(delta, at, server);
    assert s.peers[i := Received(s.peers[i])] - {i} == s.peers - {i};
  }

  /** So is taking the confirmation of the client's own op, after which the next one goes out. */
  method Confirm(d: BlipDoc, at: nat, opId: string, ghost s: System, ghost i: nat, ghost first: nat,
        ghost server: seq<Op>)
      returns (send: Option<seq<Op>>)
    requires i in s.peers && Plays(d, s.peers[i], first) && d.InStep(server)
    requires s.peers[i].toClient != [] && at >= first && s.peers[i].toClient[0] == Message.Ack(at - first)
    modifies d
    ensures Enabled(s, Event.Receive(i)) && d.InStep(Then(server, s.peers[i].outstanding))
    ensures var s' := Happens(s, Event.Receive(i));
            && OnlyClient(s, s', i) && i in s'.peers && Plays(d, s'.peers[i], first)
            && s'.peers[i].toServer == Sent(s.peers[i], send, s'.peers[i].revision)
            && s'.peers[i].toClient == s.peers[i].toClient[1..]
  {
    hide Client.Valid, Compose, Then;
    send := d.Acknowledge(at, opId, server);
    assert s.peers[i := Received(s.peers[i])] - {i} == s.peers - {i};
  }

  // --- the server -------------------------------------------------------

  /** A log numbered from the moment the message was loaded, as the protocol counts. */
  function Renumbered(log: seq<Revision>): (r: seq<Revision>)
    ensures |r| == |log| && forall i | 0 <= i < |log| :: r[i] == log[i].(revision := i + 1)
  {
    seq(|log|, i requires 0 <= i < |log| => log[i].(revision := i + 1))
  }

  predicate SameDeltas(x: seq<Revision>, y: seq<Revision>) {
    |x| == |y| && forall i | 0 <= i < |x| :: x[i].delta == y[i].delta
  }

  /** Replaying and rebasing look at nothing but the ops. */
  lemma {:induction false} SameReplayed(base: seq<Op>, x: seq<Revision>, y: seq<Revision>)
    requires SameDeltas(x, y)
    ensures Replayed(base, x) == Replayed(base, y)
    decreases |x|
  {
    hide Compose;
    if x != [] {
      SameReplayed(base, Init(x), Init(y));
    }
  }

  lemma {:induction false} SameRebased(op: seq<Op>, x: seq<Revision>, y: seq<Revision>)
    requires SameDeltas(x, y)
    ensures Rebased(op, x) == Rebased(op, y)
    decreases |x|
  {
    if x != [] {
      SameRebased(op, Init(x), Init(y));
    }
  }

  lemma {:induction false} RenumberedParts(log: seq<Revision>, k: nat)
    requires k <= |log|
    ensures SameDeltas(Renumbered(log)[..k], log[..k]) && SameDeltas(Renumbered(log)[k..], log[k..])
  {
  }

  lemma {:induction false} RenumberedGrows(log: seq<Revision>, entry: Revision)
    ensures Renumbered(log + [entry]) == Renumbered(log) + [entry.(revision := |log| + 1)]
  {
  }

  /** The message in memory is the server's side of `s`. */
  ghost predicate Serves(blip: Durable.LiveBlip, s: System)
    reads blip, blip.doc, blip.store
  {
    && blip.Consistent() && blip.Wholesome()
    && s.base == blip.doc.base && s.log == Renumbered(blip.doc.log) && s.content == blip.doc.content
  }

  /** The submission that waits first in the queue of client `i`, and what the server makes of it. */
  lemma {:induction false} SubmissionHere(s: System, i: nat, log: seq<Revision>)
    requires Inv(s) && i in s.peers && s.peers[i].toServer != [] && s.log == Renumbered(log)
    ensures var sub := s.peers[i].toServer[0];
            && sub.revision <= |log|
            && NoEmptyOp(sub.delta) && Fits(sub.delta, Content(Replayed(s.base, log[..sub.revision])))
            && Incoming(s, sub) == Rebased(sub.delta, log[sub.revision..])
  {
    hide Fits, Content, Replayed, Rebased, Follows, Committable, Stream, NoEmptyOp;
    var p := s.peers[i];
    assert PeerOk(s.base, s.log, p);
    SubmissionUnsent(s.base, s.log, p);
    var sub := p.toServer[0];
    RenumberedParts(log, sub.revision);
    SameReplayed(s.base, s.log[..sub.revision], log[..sub.revision]);
    SameRebased(sub.delta, s.log[sub.revision..], log[sub.revision..]);
  }

  /** What a commit puts on the queues, and takes off them: the confirmation for its author, whose
      submission is done with, and the op for everyone else. */
  predicate AllTold(s: System, s': System, i: nat, op: seq<Op>)
    requires i in s.peers && s.peers[i].toServer != []
  {
    && s'.peers.Keys == s.peers.Keys
    && s'.peers[i] == s.peers[i].(toServer := s.peers[i].toServer[1..], toClient := s.peers[i].toClient + [Message.Ack(|s.log| + 1)])
    && forall j | j in s.peers && j != i ::
         s'.peers[j] == s.peers[j].(toClient := s.peers[j].toClient + [Remote(|s.log| + 1, op)])
  }

  /** A commit of the message is a commit of the protocol. */
  lemma {:induction false} CommittedHere(s: System, i: nat, op: seq<Op>, author: string, log: seq<Revision>,
        entry: Revision)
    requires s.log == Renumbered(log) && i in s.peers && s.peers[i].toServer != []
    requires entry.delta == op && entry.undo == Invert(op, s.content) && entry.author == author
    ensures var s' := Committed(s, i, op, author);
            && s'.log == Renumbered(log + [entry]) && s'.base == s.base && s'.content == Compose(s.content, op)
            && |s'.log| == |s.log| + 1 && s'.log[..|s.log|] == s.log && s'.log[|s.log|].delta == op
            && AllTold(s, s', i, op)
  {
    hide Compose, Invert;
    RenumberedGrows(log, entry);
  }

  /** A message just loaded is where the protocol starts, with nobody connected. */
  lemma {:induction false} Loaded(blip: Durable.LiveBlip)
    requires blip.Consistent() && blip.Wholesome() && blip.doc.log == []
    ensures var s := System(blip.doc.base, [], blip.doc.content, map[]);
            Initial(s) && Serves(blip, s)
  {
    hide Durable.StoreOk, Clean, Content;
  }

  lemma {:induction false} InLimits(doc: seq<Op>)
    ensures SmallEnough(doc) <==> |Content(doc)| <= 262_144 && |doc| <= 16_384
  {
    hide Content;
  }

  /** The server takes the first submission of client `i`. If it is acknowledged, that was the event of
      an accepted submission, and otherwise of a refused one, which disconnects the client; either
      way the server is where the protocol says. A submission of an op that was not committed before is
      acknowledged exactly when it is within 2048 of the newest revision there has been, its result has
      at most 262144 units in 16384 runs, and it can be written. */
  method Submit(blip: Durable.LiveBlip, at: nat, delta: seq<Op>, opId: Option<string>, author: string, now: nat,
        lookupFails: bool, commitFails: bool, ghost s: System, ghost i: nat)
      returns (reply: Durable.Reply)
    requires Serves(blip, s) && Inv(s) && i in s.peers && s.peers[i].toServer != []
    requires at >= blip.doc.first && s.peers[i].toServer[0] == Protocol.Submission(at - blip.doc.first, delta)
    requires !Durable.IdTaken(blip.store.ops, opId) && NullFreeInserts(delta)
    requires InMemory(delta) && MAX_BLIP_UNITS + InsertLen(delta) + |delta| < INFINITY
    modifies blip, blip.doc, blip.store
    ensures reply.Ack? || reply.Resync?
    ensures Enabled(s, Event.Submit(i, author, reply.Ack?))
    ensures Serves(blip, Happens(s, Event.Submit(i, author, reply.Ack?)))
    ensures blip.doc.first == old(blip.doc.first)
    ensures var sub, s' := s.peers[i].toServer[0], Happens(s, Event.Submit(i, author, reply.Ack?));
            && sub.revision <= |s.log|
            && (reply.Ack? ==>
                  && reply == Durable.Reply.Ack(blip.doc.first + |s.log| + 1, Incoming(s, sub))
                  && |s'.log| == |s.log| + 1 && s'.log[..|s.log|] == s.log && s'.log[|s.log|].delta == Incoming(s, sub)
                  && AllTold(s, s', i, Incoming(s, sub)))
            && (reply.Resync? ==> s' == s.(peers := s.peers - {i}))
            && (reply.Ack? <==>
                  && old(blip.doc.peak) <= sub.revision + 2048 && !commitFails
                  && |Content(Compose(s.content, Incoming(s, sub)))| <= 262_144 && |Compose(s.content, Incoming(s, sub))| <= 16_384)
            && old(blip.doc.peak) <= |s.log| + 1
  {
    hide Fits, Content, Replayed, Rebased, Compose, NoEmptyOp, NullFreeInserts, Sound, Inverses, Invert, Clean,
      SmallEnough, Inv, Durable.StoreOk, Durable.Harmless, InMemory, Canonical, NoNullFormatted, Serving.Numbered,
      InsertLen, Committed, AllTold, Serving.Retained, Serving.Exactly, Serving.Tracking,
      Durable.IdTaken, Durable.Contributed, Renumbered, Incoming;
    ghost var log := blip.doc.log;
    ghost var sub := s.peers[i].toServer[0];
    SubmissionHere(s, i, log);
    ghost var rebased;
    reply, rebased := blip.ApplyOp(at, delta, opId, author, true, true, now, lookupFails, commitFails);
    CommittedHere(s, i, rebased, author, log, Revision(at, rebased, Invert(rebased, s.content), author));
    InLimits(Compose(s.content, Incoming(s, sub)));
  }
}
