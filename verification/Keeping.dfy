/** No work is lost: over whole runs of the protocol, what an edit and an accepted submission do, and
    where every edit ends up (crates/gal-server/src/web/client.js:52-120,
    crates/gal-server/src/state.rs:1059-1166). */
module Keeping {
  import opened Basics
  import opened Deltas
  import opened Composing
  import opened Transforming
  import opened Histories
  import opened Client
  import opened Limits
  import opened Protocol

  lemma {:induction false} RunGrows(start: System, events: seq<Event>, e: Event)
    ensures StateAfter(start, events + [e])
         == if Enabled(StateAfter(start, events), e) then Happens(StateAfter(start, events), e) else StateAfter(start, events)
  {
    hide Enabled, Happens;
    assert Init(events + [e]) == events && Last(events + [e]) == e;
  }

  /** Right after an edit the client shows what it showed, with the edit on top. */
  lemma {:induction false} EditShown(start: System, events: seq<Event>, i: nat, delta: seq<Op>)
    requires Enabled(StateAfter(start, events), Event.Edit(i, delta))
    ensures var s, s' := StateAfter(start, events), StateAfter(start, events + [Event.Edit(i, delta)]);
            i in s.peers && i in s'.peers && s'.peers[i].doc == Compose(s.peers[i].doc, delta)
  {
    hide StateAfter, Compose;
    RunGrows(start, events, Event.Edit(i, delta));
  }

  /** An accepted submission makes the log exactly one entry longer: by the op its author holds in
      flight, rebased over what the author has not seen. Nobody is disconnected; the author is sent
      the confirmation and everyone else the op. */
  lemma {:induction false} SubmitCommits(start: System, events: seq<Event>, i: nat, author: string)
    requires Initial(start) && Enabled(StateAfter(start, events), Event.Submit(i, author, true))
    ensures var s, s' := StateAfter(start, events), StateAfter(start, events + [Event.Submit(i, author, true)]);
            && i in s.peers && s.peers[i].outstanding.Some? && s.peers[i].revision <= |s.log|
            && var op := Rebased(s.peers[i].outstanding.value, s.log[s.peers[i].revision..]);
            && |s'.log| == |s.log| + 1 && s'.log[..|s.log|] == s.log
            && s'.log[|s.log|].delta == op && s'.log[|s.log|].author == author
            && s'.content == Compose(s.content, op) && s'.peers.Keys == s.peers.Keys
            && forall j | j in s.peers ::
                 s'.peers[j].toClient == s.peers[j].toClient + [if j == i then Message.Ack(|s'.log|) else Remote(|s'.log|, op)]
  {
    hide StateAfter, Replayed, Compose, Committable, Follows, Acceptable, Rebased, Initial;
    RunInv(start, events);
    RunGrows(start, events, Event.Submit(i, author, true));
    var s := StateAfter(start, events);
    SubmissionMeans(s.base, s.log, s.peers[i]);
  }

  /** Whoever leaves, or is refused, is no longer connected; nothing else changes. */
  lemma {:induction false} Departed(start: System, events: seq<Event>, e: Event)
    requires Enabled(StateAfter(start, events), e) && (e.Leave? || (e.Submit? && !e.accepted))
    ensures var s := StateAfter(start, events);
            StateAfter(start, events + [e]) == s.(peers := s.peers - {e.peer})
  {
    hide StateAfter;
    RunGrows(start, events, e);
  }

  // --- where edits end up -----------------------------------------------

  /** How an op came to be: typed, two merged into one, or moved past a commit of someone else's. */
  datatype Origin = Keyed(delta: seq<Op>) | Merged(earlier: Origin, later: Origin) | Carried(over: seq<Op>, origin: Origin)

  function OpOf(o: Origin): seq<Op> {
    match o
    case Keyed(delta) => delta
    case Merged(earlier, later) => Compose(OpOf(earlier), OpOf(later))
    case Carried(over, origin) => Transform(over, OpOf(origin), true)
  }

  /** The edits that went into it, in the order they were typed. */
  function EditsOf(o: Origin): seq<seq<Op>> {
    match o
    case Keyed(delta) => [delta]
    case Merged(earlier, later) => EditsOf(earlier) + EditsOf(later)
    case Carried(_, origin) => EditsOf(origin)
  }

  /** A committed op: its place in the log, and how it came to be. */
  datatype Settled = Settled(index: nat, origin: Origin)

  function SettledEdits(settled: seq<Settled>): seq<seq<Op>> {
    if settled == [] then [] else SettledEdits(Init(settled)) + EditsOf(Last(settled).origin)
  }

  /** The entries named are in the log, in this order, and are what they are said to be. */
  predicate InLog(log: seq<Revision>, settled: seq<Settled>) {
    && (forall k | 0 <= k < |settled| :: settled[k].index < |log| && log[settled[k].index].delta == OpOf(settled[k].origin))
    && (forall j, k | 0 <= j < k < |settled| :: settled[j].index < settled[k].index)
  }

  /** Everything a client has typed: committed, in flight, or waiting behind it. */
  datatype Story = Story(settled: seq<Settled>, flight: Option<Origin>, buffered: Option<Origin>)

  function PendingEdits(o: Option<Origin>): seq<seq<Op>> {
    if o.None? then [] else EditsOf(o.value)
  }

  function StoryEdits(story: Story): seq<seq<Op>> {
    SettledEdits(story.settled) + PendingEdits(story.flight) + PendingEdits(story.buffered)
  }

  predicate Explains(o: Option<Origin>, pending: Option<seq<Op>>) {
    (o.Some? <==> pending.Some?) && (o.Some? ==> OpOf(o.value) == pending.value)
  }

  predicate Tells(log: seq<Revision>, p: Peer, story: Story) {
    && InLog(log, story.settled) && (forall k | 0 <= k < |story.settled| :: story.settled[k].index < p.revision)
    && Explains(story.flight, p.outstanding) && Explains(story.buffered, p.buffer)
  }

  /** What a client has typed since it opened the wave. */
  function EditsBy(start: System, events: seq<Event>, i: nat): seq<seq<Op>> {
    if events == [] then []
    else
      var earlier := EditsBy(start, Init(events), i);
      var e := Last(events);
      if !Enabled(StateAfter(start, Init(events)), e) || e.peer != i then earlier
      else match e
        case Edit(_, delta) => earlier + [delta]
        case Join(_) => []
        case _ => earlier
  }

  // --- one event at a time ----------------------------------------------

  function StoryTyped(story: Story, delta: seq<Op>): Story {
    if story.flight.None? then story.(flight := Some(Keyed(delta)))
    else story.(buffered := Some(if story.buffered.None? then Keyed(delta) else Merged(story.buffered.value, Keyed(delta))))
  }

  lemma {:induction false} TellsTyped(log: seq<Revision>, p: Peer, story: Story, delta: seq<Op>)
    requires Tells(log, p, story) && (p.buffer.Some? ==> p.outstanding.Some?)
    ensures Tells(log, Typed(p, delta), StoryTyped(story, delta))
    ensures StoryEdits(StoryTyped(story, delta)) == StoryEdits(story) + [delta]
  {
    hide Compose, SettledEdits;
    assert OpOf(Keyed(delta)) == delta && EditsOf(Keyed(delta)) == [delta];
    if story.flight.Some? && story.buffered.Some? {
      var both := Merged(story.buffered.value, Keyed(delta));
      assert OpOf(both) == Compose(OpOf(story.buffered.value), delta);
      assert EditsOf(both) == EditsOf(story.buffered.value) + [delta];
    }
  }

  function CarriedOver(delta: seq<Op>, o: Option<Origin>): Option<Origin> {
    if o.None? then None else Some(Carried(delta, o.value))
  }

  lemma {:induction false} TellsRemote(log: seq<Revision>, p: Peer, story: Story)
      returns (story': Story)
    requires Tells(log, p, story) && p.toClient != [] && p.toClient[0].Remote? && p.toClient[0].revision >= p.revision
    ensures Tells(log, Received(p), story') && StoryEdits(story') == StoryEdits(story)
  {
    hide Compose, Transform, SettledEdits;
    var delta := p.toClient[0].delta;
    story' := Story(story.settled, CarriedOver(delta, story.flight),
                    CarriedOver(PastOutstanding(delta, p.outstanding), story.buffered));
  }

  lemma {:induction false} TellsAck(log: seq<Revision>, p: Peer, story: Story)
      returns (story': Story)
    requires Tells(log, p, story) && p.toClient != [] && p.toClient[0].Ack? && p.toClient[0].revision == p.revision + 1
    requires p.outstanding.Some? && p.revision < |log| && log[p.revision].delta == p.outstanding.value
    ensures Tells(log, Received(p), story') && StoryEdits(story') == StoryEdits(story)
  {
    hide Compose;
    var one := Settled(p.revision, story.flight.value);
    story' := Story(story.settled + [one], story.buffered, None);
    assert Init(story.settled + [one]) == story.settled && Last(story.settled + [one]) == one;
  }

  /** A commit leaves what has been told of a client as it was. */
  lemma {:induction false} TellsCommitted(log: seq<Revision>, entry: Revision, p: Peer, mine: bool, story: Story)
    requires Tells(log, p, story)
    ensures Tells(log + [entry], Told(p, mine, |log| + 1, entry.delta), story)
  {
  }

  lemma {:induction false} TellsJoined(s: System)
    ensures Tells(s.log, Joined(s), Story([], None, None)) && StoryEdits(Story([], None, None)) == []
  {
  }

  /** One event, seen from client `i`. */
  lemma {:induction false} StoryStep(s: System, e: Event, i: nat, story: Story) returns (story': Story)
    requires Inv(s) && Enabled(s, e) && i in Happens(s, e).peers
    requires !(e.Join? && e.peer == i) ==> i in s.peers && Tells(s.log, s.peers[i], story)
    ensures Tells(Happens(s, e).log, Happens(s, e).peers[i], story')
    ensures StoryEdits(story') == if e.peer != i then StoryEdits(story)
                                  else match e
                                    case Edit(_, delta) => StoryEdits(story) + [delta]
                                    case Join(_) => []
                                    case _ => StoryEdits(story)
  {
    hide Tells, StoryEdits, PeerOk, Committable, Replayed, Compose, Valid, Fits, Content, SmallEnough, Rebased, Typed,
      Received, Told, Joined;
    story' := story;
    match e
    case Edit(j, delta) =>
      if j == i {
        PendingOrder(s, i);
        TellsTyped(s.log, s.peers[i], story, delta);
        story' := StoryTyped(story, delta);
      }
    case Submit(j, author, accepted) =>
      if accepted {
        TellsCommitted(s.log, Entry(s, Incoming(s, s.peers[j].toServer[0]), author), s.peers[i], i == j, story);
      }
    case Receive(j) =>
      if j == i {
        story' := StoryReceived(s, i, story);
      }
    case Join(j) =>
      if j == i {
        TellsJoined(s);
        story' := Story([], None, None);
      }
    case Leave(_) =>
  }

  lemma {:induction false} PendingOrder(s: System, i: nat)
    requires Inv(s) && i in s.peers
    ensures s.peers[i].buffer.Some? ==> s.peers[i].outstanding.Some?
  {
    hide Replayed, Committable, Valid, Compose;
    assert PeerOk(s.base, s.log, s.peers[i]);
  }

  lemma {:induction false} StoryReceived(s: System, i: nat, story: Story) returns (story': Story)
    requires Inv(s) && i in s.peers && s.peers[i].toClient != [] && Tells(s.log, s.peers[i], story)
    ensures Tells(s.log, Received(s.peers[i]), story') && StoryEdits(story') == StoryEdits(story)
  {
    hide Tells, StoryEdits, Committable, Replayed, Follows, InFlight, Received, Stream;
    var p := s.peers[i];
    assert PeerOk(s.base, s.log, p);
    StreamHead(s.log, p);
    if p.toClient[0].Remote? {
      story' := TellsRemote(s.log, p, story);
    } else {
      AckMeans(s.base, s.log, p);
      story' := TellsAck(s.log, p, story);
    }
  }

  // --- whole runs -------------------------------------------------------

  /** At every moment of every run, everything a connected client has typed since it opened the wave,
      in order and each edit once, is committed, in flight, or waiting behind that. */
  lemma {:induction false} EditsKept(start: System, events: seq<Event>, i: nat) returns (story: Story)
    requires Initial(start) && i in StateAfter(start, events).peers
    ensures Tells(StateAfter(start, events).log, StateAfter(start, events).peers[i], story)
    ensures StoryEdits(story) == EditsBy(start, events, i)
    decreases |events|
  {
    hide Tells, StoryEdits, Inv, Enabled, Happens;
    if events == [] {
      NobodyAtFirst(start);
      story := Story([], None, None);
    } else {
      var before := StateAfter(start, Init(events));
      var e := Last(events);
      RunInv(start, Init(events));
      var known := Story([], None, None);
      if i in before.peers {
        known := EditsKept(start, Init(events), i);
      }
      if Enabled(before, e) {
        if i !in before.peers {
          OnlyJoinAdds(before, e, i);
        }
        story := StoryStep(before, e, i, known);
      } else {
        story := known;
      }
    }
  }

  lemma {:induction false} NobodyAtFirst(start: System)
    requires Initial(start)
    ensures start.peers == map[]
  {
  }

  lemma {:induction false} OnlyJoinAdds(s: System, e: Event, i: nat)
    requires Enabled(s, e) && i in Happens(s, e).peers && i !in s.peers
    ensures e.Join? && e.peer == i
  {
  }

  /** When a run has come to rest, every edit of every client still connected is in the log: the ops
      that the client's edits went into, in the order they were typed, none left out. */
  lemma {:induction false} NothingLost(start: System, events: seq<Event>, i: nat) returns (settled: seq<Settled>)
    requires Initial(start) && i in StateAfter(start, events).peers && Quiescent(StateAfter(start, events))
    ensures InLog(StateAfter(start, events).log, settled) && SettledEdits(settled) == EditsBy(start, events, i)
  {
    hide StateAfter, InLog, SettledEdits, Initial, Quiescent, OpOf;
    var story := EditsKept(start, events, i);
    Convergence(start, events, i);
    settled := story.settled;
    assert SettledEdits(settled) + [] + [] == SettledEdits(settled);
  }
}
