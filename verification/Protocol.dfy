/** The collaboration protocol as a state machine: one server document (`ServerDoc`), any number
    of clients (`BlipDoc`), and a first-in first-out queue each way between them
    (crates/gal-server/src/state.rs:1059-1166, crates/gal-server/src/web/client.js:61-120,
    crates/gal-server/src/web/app.js:1960-1978, 2388-2420). */
module Protocol {
  import opened Basics
  import opened Deltas
  import opened Composing
  import opened Transforming
  import opened Documents
  import opened Inverting
  import opened Iterating
  import opened Histories
  import opened Client
  import opened Limits
  import Serving

  /** A submission carries the revision the client was at when it sent it. */
  datatype Submission = Submission(revision: nat, delta: seq<Op>)

  /** What the server sends: someone else's op, or the confirmation of the client's own. */
  datatype Message = Remote(revision: nat, delta: seq<Op>) | Ack(revision: nat)

  datatype Peer = Peer(
    doc: seq<Op>,
    revision: nat,
    outstanding: Option<seq<Op>>,
    buffer: Option<seq<Op>>,
    toServer: seq<Submission>,
    toClient: seq<Message>)

  /** The server document, everything committed to it, and the connected clients by number. */
  datatype System = System(base: seq<Op>, log: seq<Revision>, content: seq<Op>, peers: map<nat, Peer>)

  // --- steps ------------------------------------------------------------

  /** `BlipDoc.applyLocal`, and sending what it returns. */
  function Typed(p: Peer, delta: seq<Op>): Peer {
    var q := p.(doc := Compose(p.doc, delta));
    if p.outstanding.None?
    then q.(outstanding := Some(delta), toServer := p.toServer + [Submission(p.revision, delta)])
    else q.(buffer := Some(Buffered(p.buffer, delta)))
  }

  /** `BlipDoc.applyRemote` on the first message, or `BlipDoc.acknowledge` and sending what it returns. */
  function Received(p: Peer): Peer
    requires p.toClient != []
  {
    var rest := p.toClient[1..];
    match p.toClient[0]
    case Remote(revision, delta) =>
      p.(doc := Compose(p.doc, PastPending(delta, p.outstanding, p.buffer)),
         revision := revision,
         outstanding := Moved(delta, p.outstanding),
         buffer := Moved(PastOutstanding(delta, p.outstanding), p.buffer),
         toClient := rest)
    case Ack(revision) =>
      p.(revision := revision,
         outstanding := p.buffer,
         buffer := None,
         toServer := if p.buffer.Some? then p.toServer + [Submission(revision, p.buffer.value)] else p.toServer,
         toClient := rest)
  }

  /** The op the server makes of a submission. */
  function Incoming(s: System, sub: Submission): seq<Op>
    requires sub.revision <= |s.log|
  {
    Rebased(sub.delta, s.log[sub.revision..])
  }

  function Entry(s: System, op: seq<Op>, author: string): Revision {
    Revision(|s.log| + 1, op, Invert(op, s.content), author)
  }

  /** `p` once the op of peer `author` has been committed at `revision`. */
  function Told(p: Peer, mine: bool, revision: nat, op: seq<Op>): Peer {
    if mine then p.(toServer := p.toServer[if p.toServer == [] then 0 else 1..], toClient := p.toClient + [Ack(revision)])
    else p.(toClient := p.toClient + [Remote(revision, op)])
  }

  /** The commit: the document moves on, the author is sent an ack, everyone else the op. */
  function Committed(s: System, i: nat, op: seq<Op>, author: string): System {
    System(s.base, s.log + [Entry(s, op, author)], Compose(s.content, op),
           map j | j in s.peers :: Told(s.peers[j], j == i, |s.log| + 1, op))
  }

  /** What the server checks before it commits: the submission is inside the retained window,
      the rebased op is valid, and the document it makes is not too large to keep. */
  predicate Acceptable(s: System, sub: Submission) {
    && sub.revision <= |s.log| <= sub.revision + Serving.MAX_HISTORY
    && Fits(Incoming(s, sub), Content(s.content))
    && SmallEnough(Compose(s.content, Incoming(s, sub)))
  }

  /** A refusal, for one of those reasons or because the op could not be written, tells the client
      to resynchronise: it drops what it has and opens the wave again. */
  function Refused(s: System, i: nat): System {
    s.(peers := s.peers - {i})
  }

  // What can happen next: someone types, the server takes a submission (and accepts it or not),
  // a client takes a message, opens the wave and is given the document as it stands, or leaves.

  datatype Event =
    | Edit(peer: nat, delta: seq<Op>)
    | Submit(peer: nat, author: string, accepted: bool)
    | Receive(peer: nat)
    | Join(peer: nat)
    | Leave(peer: nat)

  predicate Enabled(s: System, e: Event) {
    match e
    case Edit(i, delta) => i in s.peers && Valid(delta, s.peers[i].doc)
    case Submit(i, _, accepted) =>
      i in s.peers && s.peers[i].toServer != [] && (accepted ==> Acceptable(s, s.peers[i].toServer[0]))
    case Receive(i) => i in s.peers && s.peers[i].toClient != []
    case Join(i) => i !in s.peers
    case Leave(i) => i in s.peers
  }

  function Joined(s: System): Peer {
    Peer(s.content, |s.log|, None, None, [], [])
  }

  function Happens(s: System, e: Event): System
    requires Enabled(s, e)
  {
    match e
    case Edit(i, delta) => s.(peers := s.peers[i := Typed(s.peers[i], delta)])
    case Submit(i, author, accepted) =>
      if accepted then Committed(s, i, Incoming(s, s.peers[i].toServer[0]), author) else Refused(s, i)
    case Receive(i) => s.(peers := s.peers[i := Received(s.peers[i])])
    case Join(i) => s.(peers := s.peers[i := Joined(s)])
    case Leave(i) => s.(peers := s.peers - {i})
  }

  /** The state after a run, whatever the events; one that cannot happen changes nothing. */
  function StateAfter(s: System, events: seq<Event>): System {
    if events == [] then s
    else
      var before := StateAfter(s, Init(events));
      if Enabled(before, Last(events)) then Happens(before, Last(events)) else before
  }

  predicate Initial(s: System) {
    IsDocument(s.base) && |Content(s.base)| < INFINITY && s.log == [] && s.content == s.base && s.peers == map[]
  }

  // --- the invariant ----------------------------------------------------

  /** Every committed op was valid, and none of them is empty. */
  predicate Committable(base: seq<Op>, log: seq<Revision>) {
    Sound(base, log) && forall i | 0 <= i < |log| :: NoEmptyOp(log[i].delta)
  }

  /** The messages on their way to a client are the commits since its revision, one each. */
  predicate Stream(log: seq<Revision>, revision: nat, toClient: seq<Message>) {
    && revision + |toClient| == |log|
    && (forall k | 0 <= k < |toClient| :: toClient[k].revision == revision + k + 1)
    && (forall k | 0 <= k < |toClient| && toClient[k].Remote? :: toClient[k].delta == log[revision + k].delta)
  }

  predicate NoAck(toClient: seq<Message>) {
    forall k | 0 <= k < |toClient| :: toClient[k].Remote?
  }

  /** The op in flight has not reached the server: rebased to where the client is now, the
      submission is what the client holds. */
  predicate Unsent(base: seq<Op>, log: seq<Revision>, p: Peer) {
    && NoAck(p.toClient)
    && |p.toServer| == 1 && p.outstanding.Some?
    && var sub := p.toServer[0];
    && sub.revision <= p.revision <= |log|
    && Valid(sub.delta, Replayed(base, log[..sub.revision]))
    && p.outstanding.value == Rebased(sub.delta, log[sub.revision..p.revision])
  }

  /** The op in flight has been committed: message `k` confirms it, and the committed op is what
      the client holds, rebased over the commits before it. */
  predicate Confirmed(log: seq<Revision>, p: Peer, k: nat) {
    && k < |p.toClient| && p.revision + k < |log|
    && (forall m | 0 <= m < |p.toClient| :: p.toClient[m].Ack? <==> m == k)
    && p.toServer == [] && p.outstanding.Some?
    && log[p.revision + k].delta == Rebased(p.outstanding.value, log[p.revision..p.revision + k])
  }

  ghost predicate InFlight(base: seq<Op>, log: seq<Revision>, p: Peer) {
    if p.outstanding.None? then NoAck(p.toClient) && p.toServer == []
    else Unsent(base, log, p) || exists k: nat :: Confirmed(log, p, k)
  }

  ghost predicate PeerOk(base: seq<Op>, log: seq<Revision>, p: Peer) {
    && Stream(log, p.revision, p.toClient)
    && Follows(Replayed(base, log[..p.revision]), p.doc, p.outstanding, p.buffer)
    && InFlight(base, log, p)
  }

  ghost predicate Inv(s: System) {
    && Committable(s.base, s.log)
    && s.content == Replayed(s.base, s.log)
    && forall i | i in s.peers :: PeerOk(s.base, s.log, s.peers[i])
  }

  // --- logs -------------------------------------------------------------

  /** Rebasing over a log is rebasing over its first part and then over the rest. */
  lemma {:induction false} RebasedSplit(op: seq<Op>, x: seq<Revision>, y: seq<Revision>)
    ensures Rebased(op, x + y) == Rebased(Rebased(op, x), y)
    decreases |y|
  {
    hide Transform;
    if y == [] {
      assert x + y == x;
    } else {
      assert Init(x + y) == x + Init(y) && Last(x + y) == Last(y);
      RebasedSplit(op, x, Init(y));
    }
  }

  lemma {:induction false} RebasedOne(op: seq<Op>, entry: Revision)
    ensures Rebased(op, [entry]) == Transform(entry.delta, op, true)
  {
    hide Transform;
    assert Init([entry]) == [] && Last([entry]) == entry;
    assert Rebased(op, []) == op;
  }

  /** The server's document one commit on. */
  lemma {:induction false} PrefixStep(base: seq<Op>, log: seq<Revision>, r: nat)
    requires Committable(base, log) && r < |log|
    ensures Replayed(base, log[..r + 1]) == Compose(Replayed(base, log[..r]), log[r].delta)
    ensures Valid(log[r].delta, Replayed(base, log[..r]))
  {
    hide Fits, Content, Compose, SameSyms, Effect;
    SoundPrefix(base, log, r + 1);
    assert Init(log[..r + 1]) == log[..r] && Last(log[..r + 1]) == log[r];
  }

  lemma {:induction false} LogGrows(base: seq<Op>, log: seq<Revision>, entry: Revision, from: nat, to: nat)
    requires from <= to <= |log|
    ensures (log + [entry])[..to] == log[..to] && (log + [entry])[from..to] == log[from..to]
    ensures Init(log + [entry]) == log && Last(log + [entry]) == entry
  {
  }

  // --- one client at a time ---------------------------------------------

  /** A local edit: it goes out at the client's own revision, or into the buffer. */
  lemma {:induction false} TypedOk(base: seq<Op>, log: seq<Revision>, p: Peer, delta: seq<Op>)
    requires PeerOk(base, log, p) && Valid(delta, p.doc)
    ensures PeerOk(base, log, Typed(p, delta))
  {
    hide Follows, Replayed, Compose, Valid, Rebased;
    var q := Typed(p, delta);
    FollowsOrder(Replayed(base, log[..p.revision]), p.doc, p.outstanding, p.buffer);
    FollowsLocal(Replayed(base, log[..p.revision]), p.doc, p.outstanding, p.buffer, delta);
    if p.outstanding.None? {
      SentNow(base, log, p, delta);
    } else if !Unsent(base, log, p) {
      var k: nat :| Confirmed(log, p, k);
      assert Confirmed(log, q, k);
    } else {
      assert Unsent(base, log, q);
    }
  }

  lemma {:induction false} SentNow(base: seq<Op>, log: seq<Revision>, p: Peer, delta: seq<Op>)
    requires PeerOk(base, log, p) && p.outstanding.None? && Valid(delta, p.doc)
    ensures Unsent(base, log, Typed(p, delta))
  {
    hide Replayed, Compose, Valid;
    assert log[p.revision..p.revision] == [];
  }

  /** A submission reaches the server: rebased there it is what the client holds, rebased over
      the commits the client has not seen, and it is valid. */
  lemma {:induction false} SubmissionMeans(base: seq<Op>, log: seq<Revision>, p: Peer)
    requires Committable(base, log) && PeerOk(base, log, p) && p.toServer != []
    ensures Unsent(base, log, p)
    ensures var op := Rebased(p.toServer[0].delta, log[p.toServer[0].revision..]);
            && op == Rebased(p.outstanding.value, log[p.revision..])
            && Valid(op, Replayed(base, log))
  {
    hide Follows, Replayed, Fits, Content, Sound, NoEmptyOp, Rebased, Stream;
    var sub := p.toServer[0];
    SubmissionUnsent(base, log, p);
    RebasedFits(base, log, sub.revision, sub.delta);
    RebasedSplit(sub.delta, log[sub.revision..p.revision], log[p.revision..]);
    assert log[sub.revision..p.revision] + log[p.revision..] == log[sub.revision..];
  }

  lemma {:induction false} SubmissionUnsent(base: seq<Op>, log: seq<Revision>, p: Peer)
    requires InFlight(base, log, p) && p.toServer != []
    ensures Unsent(base, log, p)
  {
  }

  /** A commit by someone else adds one message and leaves the rest in order. */
  lemma {:induction false} ToldRemote(base: seq<Op>, log: seq<Revision>, entry: Revision, p: Peer)
    requires PeerOk(base, log, p)
    ensures PeerOk(base, log + [entry], Told(p, false, |log| + 1, entry.delta))
  {
    hide Follows, Replayed, Valid, Rebased;
    var q := Told(p, false, |log| + 1, entry.delta);
    LogGrows(base, log, entry, 0, p.revision);
    if p.outstanding.Some? {
      if Unsent(base, log, p) {
        var sub := p.toServer[0];
        LogGrows(base, log, entry, sub.revision, p.revision);
        LogGrows(base, log, entry, 0, sub.revision);
        assert Unsent(base, log + [entry], q);
      } else {
        var k: nat :| Confirmed(log, p, k);
        LogGrows(base, log, entry, p.revision, p.revision + k);
        assert Confirmed(log + [entry], q, k);
      }
    }
  }

  /** The commit of the client's own submission adds the ack. */
  lemma {:induction false} ToldAck(base: seq<Op>, log: seq<Revision>, entry: Revision, p: Peer)
    requires PeerOk(base, log, p) && Unsent(base, log, p)
    requires entry.delta == Rebased(p.outstanding.value, log[p.revision..])
    ensures PeerOk(base, log + [entry], Told(p, true, |log| + 1, entry.delta))
  {
    hide Follows, Replayed, Valid, Rebased;
    var q := Told(p, true, |log| + 1, entry.delta);
    var k := |log| - p.revision;
    LogGrows(base, log, entry, 0, p.revision);
    LogGrows(base, log, entry, p.revision, |log|);
    assert log[p.revision..|log|] == log[p.revision..];
    assert Confirmed(log + [entry], q, k);
  }

  /** Another participant's op arrives. */
  lemma {:induction false} RemoteOk(base: seq<Op>, log: seq<Revision>, p: Peer)
    requires Committable(base, log) && PeerOk(base, log, p) && p.toClient != [] && p.toClient[0].Remote?
    ensures PeerOk(base, log, Received(p))
  {
    hide Follows, Replayed, Valid, Rebased, Compose, Transform, Committable, Stream, InFlight;
    StreamHead(log, p);
    PrefixStep(base, log, p.revision);
    FollowsRemote(Replayed(base, log[..p.revision]), p.doc, p.outstanding, p.buffer, p.toClient[0].delta);
    RemoteInFlight(base, log, p);
  }

  lemma {:induction false} StreamHead(log: seq<Revision>, p: Peer)
    requires Stream(log, p.revision, p.toClient) && p.toClient != []
    ensures p.revision < |log| && p.toClient[0].revision == p.revision + 1
    ensures p.toClient[0].Remote? ==> p.toClient[0].delta == log[p.revision].delta
    ensures Stream(log, p.revision + 1, p.toClient[1..])
  {
  }

  lemma {:induction false} RemoteInFlight(base: seq<Op>, log: seq<Revision>, p: Peer)
    requires Stream(log, p.revision, p.toClient) && InFlight(base, log, p)
    requires p.toClient != [] && p.toClient[0].Remote?
    ensures InFlight(base, log, Received(p))
  {
    hide Replayed, Valid, Rebased, Compose, Transform;
    var q := Received(p);
    var r := p.revision;
    if p.outstanding.Some? {
      RebasedOne(p.outstanding.value, log[r]);
      if Unsent(base, log, p) {
        var sub := p.toServer[0];
        RebasedSplit(sub.delta, log[sub.revision..r], [log[r]]);
        assert log[sub.revision..r] + [log[r]] == log[sub.revision..r + 1];
        assert Unsent(base, log, q);
      } else {
        var k: nat :| Confirmed(log, p, k);
        assert k > 0;
        RebasedSplit(p.outstanding.value, [log[r]], log[r + 1..r + k]);
        assert [log[r]] + log[r + 1..r + k] == log[r..r + k];
        assert Confirmed(log, q, k - 1);
      }
    }
  }

  /** The ack arrives: what was committed is exactly the op the client holds in flight. */
  lemma {:induction false} AckMeans(base: seq<Op>, log: seq<Revision>, p: Peer)
    requires PeerOk(base, log, p) && p.toClient != [] && p.toClient[0].Ack?
    ensures p.outstanding.Some? && p.revision < |log| && log[p.revision].delta == p.outstanding.value
    ensures p.toServer == [] && NoAck(p.toClient[1..])
  {
    hide Follows, Replayed, Valid;
    assert !NoAck(p.toClient);
    var k: nat :| Confirmed(log, p, k);
    assert k == 0;
    assert log[p.revision..p.revision + 0] == [];
  }

  lemma {:induction false} AckOk(base: seq<Op>, log: seq<Revision>, p: Peer)
    requires Committable(base, log) && PeerOk(base, log, p) && p.toClient != [] && p.toClient[0].Ack?
    ensures PeerOk(base, log, Received(p))
  {
    hide Replayed, Valid, Rebased, Compose, Committable, Stream, InFlight, Content;
    StreamHead(log, p);
    AckMeans(base, log, p);
    PrefixStep(base, log, p.revision);
    FollowsAck(Replayed(base, log[..p.revision]), p.doc, p.outstanding, p.buffer);
    if p.buffer.Some? {
      NextSent(base, log, Received(p));
    } else {
      NothingSent(base, log, Received(p));
    }
  }

  lemma {:induction false} NextSent(base: seq<Op>, log: seq<Revision>, q: Peer)
    requires q.revision <= |log| && NoAck(q.toClient) && q.outstanding.Some?
    requires q.toServer == [Submission(q.revision, q.outstanding.value)]
    requires Valid(q.outstanding.value, Replayed(base, log[..q.revision]))
    ensures InFlight(base, log, q)
  {
    hide Replayed, Valid;
    assert log[q.revision..q.revision] == [];
    assert Unsent(base, log, q);
  }

  lemma {:induction false} NothingSent(base: seq<Op>, log: seq<Revision>, q: Peer)
    requires q.outstanding.None? && NoAck(q.toClient) && q.toServer == []
    ensures InFlight(base, log, q)
  {
  }

  // --- the whole system -------------------------------------------------

  lemma {:induction false} EditKeeps(s: System, i: nat, delta: seq<Op>)
    requires Inv(s) && i in s.peers && Valid(delta, s.peers[i].doc)
    ensures Inv(s.(peers := s.peers[i := Typed(s.peers[i], delta)]))
  {
    hide PeerOk, Committable, Replayed, Typed, Valid;
    TypedOk(s.base, s.log, s.peers[i], delta);
  }

  lemma {:induction false} ReceiveKeeps(s: System, i: nat)
    requires Inv(s) && i in s.peers && s.peers[i].toClient != []
    ensures Inv(s.(peers := s.peers[i := Received(s.peers[i])]))
  {
    hide PeerOk, Committable, Replayed, Received;
    if s.peers[i].toClient[0].Remote? {
      RemoteOk(s.base, s.log, s.peers[i]);
    } else {
      AckOk(s.base, s.log, s.peers[i]);
    }
  }

  lemma {:induction false} JoinedOk(s: System)
    requires Committable(s.base, s.log) && s.content == Replayed(s.base, s.log)
    ensures PeerOk(s.base, s.log, Joined(s))
  {
    hide Replayed, Content, Sound;
    ReplayedDocument(s.base, s.log);
    assert s.log[..|s.log|] == s.log;
  }

  lemma {:induction false} JoinKeeps(s: System, i: nat)
    requires Inv(s)
    ensures Inv(s.(peers := s.peers[i := Joined(s)]))
  {
    hide PeerOk, Committable, Replayed, Joined;
    JoinedOk(s);
  }

  /** The log and the document once a valid op has been committed. */
  lemma {:induction false} CommitOk(s: System, op: seq<Op>, author: string)
    requires Committable(s.base, s.log) && s.content == Replayed(s.base, s.log)
    requires Valid(op, s.content) && SmallEnough(Compose(s.content, op))
    ensures var entry := Entry(s, op, author);
            Committable(s.base, s.log + [entry]) && Compose(s.content, op) == Replayed(s.base, s.log + [entry])
  {
    hide Fits, Content, Effect, Compose, SameSyms, NoEmptyOp, Invert;
    var entry := Entry(s, op, author);
    LogGrows(s.base, s.log, entry, 0, 0);
    ReplayedDocument(s.base, s.log);
    ValidApplied(s.content, op);
    Serving.UndoSized(op, Content(s.content));
    AppliedDocument(s.content, op);
    InverseIsStep(s.content, op, entry);
  }

  lemma {:induction false} CommitKeeps(s: System, i: nat, author: string)
    requires Inv(s) && i in s.peers && s.peers[i].toServer != [] && Acceptable(s, s.peers[i].toServer[0])
    ensures Inv(Committed(s, i, Incoming(s, s.peers[i].toServer[0]), author))
  {
    hide PeerOk, Committable, Replayed, Fits, Valid, Content, Rebased, Compose, Told, SmallEnough, Unsent;
    var p := s.peers[i];
    var op := Incoming(s, p.toServer[0]);
    SubmissionMeans(s.base, s.log, p);
    CommitOk(s, op, author);
    var entry := Entry(s, op, author);
    var s' := Committed(s, i, op, author);
    forall j | j in s'.peers
      ensures PeerOk(s'.base, s'.log, s'.peers[j])
    {
      if j == i {
        ToldAck(s.base, s.log, entry, p);
      } else {
        ToldRemote(s.base, s.log, entry, s.peers[j]);
      }
    }
  }

  lemma {:induction false} LeaveKeeps(s: System, i: nat)
    requires Inv(s)
    ensures Inv(s.(peers := s.peers - {i}))
  {
    hide PeerOk, Committable, Replayed;
  }

  /** Everything that can happen keeps the invariant. */
  lemma {:induction false} EventKeeps(s: System, e: Event)
    requires Inv(s) && Enabled(s, e)
    ensures Inv(Happens(s, e))
  {
    hide Inv, Acceptable, Committed, Valid, Typed, Received, Incoming, Joined;
    match e
    case Edit(i, delta) => EditKeeps(s, i, delta);
    case Submit(i, author, accepted) =>
      if accepted {
        CommitKeeps(s, i, author);
      } else {
        LeaveKeeps(s, i);
      }
    case Receive(i) => ReceiveKeeps(s, i);
    case Join(i) => JoinKeeps(s, i);
    case Leave(i) => LeaveKeeps(s, i);
  }

  lemma {:induction false} InitialInv(s: System)
    requires Initial(s)
    ensures Inv(s)
  {
  }

  /** The invariant holds after every run. */
  lemma {:induction false} RunInv(s: System, events: seq<Event>)
    requires Initial(s)
    ensures Inv(StateAfter(s, events))
    decreases |events|
  {
    hide Inv, Enabled, Happens, Initial;
    if events == [] {
      InitialInv(s);
    } else {
      RunInv(s, Init(events));
      var before := StateAfter(s, Init(events));
      if Enabled(before, Last(events)) {
        EventKeeps(before, Last(events));
      }
    }
  }

  // --- what the invariant promises --------------------------------------

  /** Every queue is empty. */
  predicate Quiescent(s: System) {
    forall i | i in s.peers :: s.peers[i].toServer == [] && s.peers[i].toClient == []
  }

  /** Convergence: whenever a run comes to rest, every client shows the server's document, and
      no edit is left waiting. */
  lemma {:induction false} Convergence(start: System, events: seq<Event>, i: nat)
    requires Initial(start) && Quiescent(StateAfter(start, events)) && i in StateAfter(start, events).peers
    ensures var s := StateAfter(start, events);
            var p := s.peers[i];
            p.doc == s.content && p.revision == |s.log| && p.outstanding.None? && p.buffer.None?
  {
    hide StateAfter, Replayed, Compose, Committable, Valid, Initial;
    RunInv(start, events);
    var s := StateAfter(start, events);
    assert s.log[..|s.log|] == s.log;
  }

  /** At every moment a client shows the server's document at its revision, then its op in
      flight, then its buffer. */
  lemma {:induction false} ClientDocument(start: System, events: seq<Event>, i: nat)
    requires Initial(start) && i in StateAfter(start, events).peers
    ensures var s := StateAfter(start, events);
            var p := s.peers[i];
            && p.revision <= |s.log|
            && p.doc == Then(Then(Replayed(s.base, s.log[..p.revision]), p.outstanding), p.buffer)
  {
    hide StateAfter, Replayed, Compose, Committable, InFlight, Valid, Initial;
    RunInv(start, events);
  }

  /** A submission inside the window is never refused as invalid: the only other reason to
      refuse it is the size of the document it would make. */
  lemma {:induction false} NeverRefused(start: System, events: seq<Event>, i: nat)
    requires Initial(start) && i in StateAfter(start, events).peers && StateAfter(start, events).peers[i].toServer != []
    ensures var s := StateAfter(start, events);
            var sub := s.peers[i].toServer[0];
            && sub.revision <= |s.log| && Fits(Incoming(s, sub), Content(s.content))
            && (Acceptable(s, sub) <==>
                  && |s.log| <= sub.revision + Serving.MAX_HISTORY
                  && SmallEnough(Compose(s.content, Incoming(s, sub))))
  {
    hide StateAfter, Replayed, Compose, Committable, Follows, Fits, Content, SmallEnough, Rebased, Initial;
    RunInv(start, events);
    var s := StateAfter(start, events);
    SubmissionMeans(s.base, s.log, s.peers[i]);
  }

  /** When an ack arrives, the op the server committed is the op the client holds in flight. */
  lemma {:induction false} AckConfirmsOutstanding(start: System, events: seq<Event>, i: nat)
    requires Initial(start) && i in StateAfter(start, events).peers
    requires StateAfter(start, events).peers[i].toClient != [] && StateAfter(start, events).peers[i].toClient[0].Ack?
    ensures var s := StateAfter(start, events);
            var p := s.peers[i];
            && p.outstanding.Some? && p.revision < |s.log| && p.toClient[0].revision == p.revision + 1
            && s.log[p.revision].delta == p.outstanding.value
  {
    hide StateAfter, Replayed, Committable, Follows, InFlight, Initial;
    RunInv(start, events);
    var s := StateAfter(start, events);
    AckMeans(s.base, s.log, s.peers[i]);
  }
}
