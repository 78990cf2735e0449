/** Fanning a commit out to the connections watching a wave (crates/gal-server/src/state.rs:295-363,
    1142-1166, contract at crates/gal-core/src/protocol.rs:6-18) while people join and leave
    (crates/gal-server/src/ws.rs:568-637, 1129-1314). A connection that misses a message is gone in
    the same step; one that stays may still miss commits, when its user is out of the wavelet for
    a while, and what follows says exactly when. */
module Delivery {
  import opened Basics

  datatype Message = Op(revision: nat) | Ack(revision: nat)

  /** A connection: who it is, the revision of the snapshot it was given, and everything that
      has been put on its queue since, for one message of the wave. */
  datatype Subscriber = Subscriber(user: string, joined: nat, sent: seq<Message>)

  type Subscribers = map<nat, Subscriber>

  /** One message for each commit since the snapshot, in order. */
  predicate NoGaps(sub: Subscriber, revision: nat) {
    && sub.joined + |sub.sent| == revision
    && forall k | 0 <= k < |sub.sent| :: sub.sent[k].revision == sub.joined + k + 1
  }

  predicate Addressed(sub: Subscriber, conn: nat, skip: Option<nat>, allowed: set<string>) {
    skip != Some(conn) && sub.user in allowed
  }

  /** A broadcast: those it is for and whose queue has room get the message, those whose queue is
      full are dropped, the others are left alone. */
  function Broadcasted(subs: Subscribers, message: Message, skip: Option<nat>, allowed: set<string>,
        full: set<nat>): Subscribers {
    map c | c in subs && !(Addressed(subs[c], c, skip, allowed) && c in full) ::
      if Addressed(subs[c], c, skip, allowed) then subs[c].(sent := subs[c].sent + [message]) else subs[c]
  }

  /** A message to one connection. */
  function SentTo(subs: Subscribers, conn: nat, message: Message, full: set<nat>): Subscribers {
    if conn !in subs then subs
    else if conn in full then subs - {conn}
    else subs[conn := subs[conn].(sent := subs[conn].sent + [message])]
  }

  // --- a message, its audience and its connections ----------------------

  /** One message, in the conversation of a wave or in a private reply to it: who is in either, who
      is watching, the revision it is at, and who could see each commit since it was loaded at
      revision `first`. */
  datatype Hub = Hub(isPrivate: bool, conversation: set<string>, invited: set<string>, subscribers: Subscribers,
                     revision: nat, first: nat, rosters: seq<set<string>>)

  /** Who may see the message. */
  function Audience(h: Hub): set<string> {
    if h.isPrivate then h.invited else h.conversation
  }

  /** What can happen: a connection opens the wave or closes it, a queue overflows on something
      else, an op is committed, someone is added to the conversation or the private reply, or is
      taken out of it. */
  datatype Event =
    | Open(conn: nat, user: string, overflows: bool)
    | Close(conn: nat)
    | Overflow(conns: set<nat>)
    | Commit(conn: nat, user: string, full: set<nat>)
    | Add(user: string, toReply: bool)
    | Remove(user: string, fromReply: bool)

  /** A connection belongs to one user. */
  predicate Enabled(h: Hub, e: Event) {
    e.Commit? && e.conn in h.subscribers ==> h.subscribers[e.conn].user == e.user
  }

  /** Everyone who may see the message and is connected is told of one commit. */
  function Told(subs: Subscribers, conn: nat, allowed: set<string>, revision: nat, full: set<nat>): Subscribers {
    SentTo(Broadcasted(subs, Op(revision), Some(conn), allowed, full), conn, Ack(revision), full)
  }

  function WithoutUser(subs: Subscribers, user: string): Subscribers {
    map c | c in subs && subs[c].user != user :: subs[c]
  }

  function Happens(h: Hub, e: Event): Hub {
    match e
    case Open(conn, user, overflows) =>
      if user !in h.conversation then h
      else if overflows then h.(subscribers := h.subscribers - {conn})
      else h.(subscribers := h.subscribers[conn := Subscriber(user, h.revision, [])])
    case Close(conn) => h.(subscribers := h.subscribers - {conn})
    case Overflow(conns) => h.(subscribers := h.subscribers - conns)
    case Commit(conn, user, full) =>
      if user !in Audience(h) then h
      else h.(subscribers := Told(h.subscribers, conn, Audience(h), h.revision + 1, full),
              revision := h.revision + 1,
              rosters := h.rosters + [Audience(h)])
    case Add(user, toReply) =>
      if !toReply then h.(conversation := h.conversation + {user})
      else if h.isPrivate && user in h.conversation then h.(invited := h.invited + {user})
      else h
    case Remove(user, fromReply) =>
      if fromReply then
        if h.isPrivate && h.invited != {user} then h.(invited := h.invited - {user}) else h
      else if h.conversation == {user} then h
      else h.(conversation := h.conversation - {user}, invited := h.invited - {user},
              subscribers := WithoutUser(h.subscribers, user))
  }

  /** The state after a run; an event that cannot happen changes nothing. */
  function StateAfter(h: Hub, events: seq<Event>): Hub {
    if events == [] then h
    else
      var before := StateAfter(h, events[..|events| - 1]);
      if Enabled(before, events[|events| - 1]) then Happens(before, events[|events| - 1]) else before
  }

  /** A message just loaded: nobody is watching it. */
  predicate Loaded(h: Hub) {
    h.invited <= h.conversation && h.subscribers == map[] && h.first == h.revision && h.rosters == []
  }

  // --- what a connection is sent ----------------------------------------

  /** The revisions, after `from`, of the commits that `user` could see. */
  function Seen(user: string, rosters: seq<set<string>>, from: nat): seq<nat> {
    if rosters == [] then []
    else
      var last := |rosters| - 1;
      Seen(user, rosters[..last], from) + if user in rosters[last] then [from + |rosters|] else []
  }

  function Revisions(sent: seq<Message>): (r: seq<nat>)
    ensures |r| == |sent| && forall k | 0 <= k < |sent| :: r[k] == sent[k].revision
  {
    seq(|sent|, k requires 0 <= k < |sent| => sent[k].revision)
  }

  /** Who could see each commit since the snapshot of `sub`. */
  function Since(h: Hub, sub: Subscriber): seq<set<string>>
    requires h.first <= sub.joined <= h.first + |h.rosters|
  {
    h.rosters[sub.joined - h.first..]
  }

  /** `sub` has been sent exactly the commits since its snapshot that its user could see, and in a
      conversation those are all of them. */
  predicate Followed(h: Hub, sub: Subscriber) {
    && sub.user in h.conversation
    && h.first <= sub.joined <= h.first + |h.rosters|
    && Revisions(sub.sent) == Seen(sub.user, Since(h, sub), sub.joined)
    && (!h.isPrivate ==> forall i | 0 <= i < |Since(h, sub)| :: sub.user in Since(h, sub)[i])
  }

  predicate Inv(h: Hub) {
    && h.invited <= h.conversation && h.revision == h.first + |h.rosters|
    && forall c | c in h.subscribers :: Followed(h, h.subscribers[c])
  }

  /** One more commit, seen or not. */
  lemma {:induction false} SeenGrows(user: string, rosters: seq<set<string>>, from: nat, allowed: set<string>)
    ensures Seen(user, rosters + [allowed], from)
         == Seen(user, rosters, from) + if user in allowed then [from + |rosters| + 1] else []
  {
    assert (rosters + [allowed])[..|rosters|] == rosters;
  }

  /** All commits have been seen exactly when there is one for each revision. */
  lemma {:induction false} SeenAllIff(user: string, rosters: seq<set<string>>, from: nat)
    ensures |Seen(user, rosters, from)| <= |rosters|
    ensures |Seen(user, rosters, from)| == |rosters| <==> forall i | 0 <= i < |rosters| :: user in rosters[i]
    ensures |Seen(user, rosters, from)| == |rosters| ==> forall k | 0 <= k < |rosters| :: Seen(user, rosters, from)[k] == from + k + 1
  {
    if rosters != [] {
      var init := rosters[..|rosters| - 1];
      SeenAllIff(user, init, from);
      assert forall i | 0 <= i < |init| :: init[i] == rosters[i];
    }
  }

  lemma {:induction false} RevisionsGrow(sent: seq<Message>, message: Message)
    ensures Revisions(sent + [message]) == Revisions(sent) + [message.revision]
  {
  }

  /** A commit by `conn` reaches a connection exactly when its user may see it, and drops it when its
      queue is full. */
  predicate EachTold(before: Subscribers, after: Subscribers, conn: nat, allowed: set<string>, revision: nat,
        full: set<nat>) {
    && (forall c | c in after ::
          && c in before
          && after[c] == if before[c].user !in allowed then before[c]
                         else before[c].(sent := before[c].sent + [if c == conn then Ack(revision) else Op(revision)]))
    && (forall c | c in before :: c in after <==> c !in full || before[c].user !in allowed)
  }

  lemma {:induction false} ToldEach(subs: Subscribers, conn: nat, allowed: set<string>, revision: nat, full: set<nat>)
    requires conn in subs ==> subs[conn].user in allowed
    ensures EachTold(subs, Told(subs, conn, allowed, revision, full), conn, allowed, revision, full)
  {
  }

  lemma {:induction false} CommitFollowed(h: Hub, sub: Subscriber, message: Message, allowed: set<string>, h': Hub)
    requires Followed(h, sub) && h.revision == h.first + |h.rosters| && message.revision == h.revision + 1
    requires h'.rosters == h.rosters + [allowed] && h'.first == h.first && h'.conversation == h.conversation
    requires h'.isPrivate == h.isPrivate && (!h.isPrivate ==> allowed == h.conversation)
    ensures Followed(h', if sub.user in allowed then sub.(sent := sub.sent + [message]) else sub)
  {
    hide Seen;
    var rosters := Since(h, sub);
    assert h'.rosters[sub.joined - h.first..] == rosters + [allowed];
    SeenGrows(sub.user, rosters, sub.joined, allowed);
    RevisionsGrow(sub.sent, message);
  }

  /** Nothing that happens to the roster changes what has been sent. */
  lemma {:induction false} SameFollowed(h: Hub, sub: Subscriber, h': Hub)
    requires Followed(h, sub) && h'.rosters == h.rosters && h'.first == h.first && h'.isPrivate == h.isPrivate
    requires sub.user in h'.conversation
    ensures Followed(h', sub)
  {
  }

  /** Everything that can happen keeps the invariant. */
  lemma {:induction false} EventKeeps(h: Hub, e: Event)
    requires Inv(h) && Enabled(h, e)
    ensures Inv(Happens(h, e))
  {
    hide Followed, Told;
    var h' := Happens(h, e);
    if e.Commit? && e.user in Audience(h) {
      ToldEach(h.subscribers, e.conn, Audience(h), h.revision + 1, e.full);
      forall c | c in h'.subscribers
        ensures Followed(h', h'.subscribers[c])
      {
        CommitFollowed(h, h.subscribers[c], if c == e.conn then Ack(h.revision + 1) else Op(h.revision + 1), Audience(h), h');
      }
    } else {
      forall c | c in h'.subscribers
        ensures Followed(h', h'.subscribers[c])
      {
        if c in h.subscribers && h'.subscribers[c] == h.subscribers[c] {
          StillMember(h, e, c);
          SameFollowed(h, h.subscribers[c], h');
        } else {
          OpenedFollowed(h', e.user);
        }
      }
    }
  }

  lemma {:induction false} StillMember(h: Hub, e: Event, c: nat)
    requires Inv(h) && !(e.Commit? && e.user in Audience(h)) && c in h.subscribers && c in Happens(h, e).subscribers
    requires Happens(h, e).subscribers[c] == h.subscribers[c]
    ensures h.subscribers[c].user in Happens(h, e).conversation
  {
  }

  /** A snapshot starts afresh. */
  lemma {:induction false} OpenedFollowed(h: Hub, user: string)
    requires h.revision == h.first + |h.rosters| && user in h.conversation
    ensures Followed(h, Subscriber(user, h.revision, []))
  {
  }

  lemma {:induction false} RunInv(h: Hub, events: seq<Event>)
    requires Loaded(h)
    ensures Inv(StateAfter(h, events))
    decreases |events|
  {
    hide Inv, Enabled, Happens;
    if events == [] {
      LoadedInv(h);
    } else {
      RunInv(h, events[..|events| - 1]);
      var before := StateAfter(h, events[..|events| - 1]);
      if Enabled(before, events[|events| - 1]) {
        EventKeeps(before, events[|events| - 1]);
      }
    }
  }

  lemma {:induction false} LoadedInv(h: Hub)
    requires Loaded(h)
    ensures Inv(h)
  {
  }

  /** In every run, a connection still there has been sent exactly the commits since its snapshot
      that its user could see, in order: so it has missed none if and only if its user was in
      the wavelet at every one of them. */
  lemma {:induction false} NoGapsIff(start: Hub, events: seq<Event>, conn: nat)
    requires Loaded(start) && conn in StateAfter(start, events).subscribers
    ensures var h := StateAfter(start, events);
            var sub := h.subscribers[conn];
            && h.first <= sub.joined <= h.first + |h.rosters|
            && Revisions(sub.sent) == Seen(sub.user, Since(h, sub), sub.joined)
            && (NoGaps(sub, h.revision) <==> forall i | 0 <= i < |Since(h, sub)| :: sub.user in Since(h, sub)[i])
  {
    hide StateAfter, Loaded, Seen;
    RunInv(start, events);
    var h := StateAfter(start, events);
    var sub := h.subscribers[conn];
    SeenAllIff(sub.user, Since(h, sub), sub.joined);
    RevisionsLength(sub, h);
  }

  lemma {:induction false} RevisionsLength(sub: Subscriber, h: Hub)
    requires Followed(h, sub) && h.revision == h.first + |h.rosters|
    ensures NoGaps(sub, h.revision) <==>
              && |Seen(sub.user, Since(h, sub), sub.joined)| == |Since(h, sub)|
              && forall k | 0 <= k < |Since(h, sub)| :: Seen(sub.user, Since(h, sub), sub.joined)[k] == sub.joined + k + 1
  {
    hide Seen;
    var seen := Seen(sub.user, Since(h, sub), sub.joined);
    assert forall k | 0 <= k < |seen| :: seen[k] == Revisions(sub.sent)[k];
  }

  /** In the conversation of a wave nobody ever misses a commit: whoever leaves it stops watching
      the wave, and is given a snapshot when they come back. */
  lemma {:induction false} ConversationNoGaps(start: Hub, events: seq<Event>, conn: nat)
    requires Loaded(start) && !start.isPrivate && conn in StateAfter(start, events).subscribers
    ensures NoGaps(StateAfter(start, events).subscribers[conn], StateAfter(start, events).revision)
  {
    hide StateAfter, Loaded, Seen, NoGaps;
    RunInv(start, events);
    SameKind(start, events);
    NoGapsIff(start, events, conn);
  }

  lemma {:induction false} SameKind(h: Hub, events: seq<Event>)
    ensures StateAfter(h, events).isPrivate == h.isPrivate
    decreases |events|
  {
    hide Told, WithoutUser, Enabled;
    if events != [] {
      SameKind(h, events[..|events| - 1]);
    }
  }

  /** In a private reply someone can: b leaves it, a commit goes by, and b is let back in. The
      connection was kept all along, and the next commit it is told of is not the next one. */
  lemma {:induction false} LeaveAndReturn() returns (start: Hub, events: seq<Event>)
    ensures Loaded(start) && start.isPrivate
    ensures var h := StateAfter(start, events);
            && 0 in h.subscribers && h.subscribers[0] == Subscriber("b", 0, [Op(2)])
            && h.revision == 2 && "b" in h.invited && !NoGaps(h.subscribers[0], h.revision)
  {
    hide StateAfter, Told, WithoutUser, NoGaps;
    var both := {"a", "b"};
    start := Hub(true, both, both, map[], 0, 0, []);
    events := [Open(0, "b", false), Remove("b", true), Commit(1, "a", {}), Add("b", true), Commit(1, "a", {})];
    var b := Subscriber("b", 0, []);
    var h1 := Hub(true, both, both, map[0 := b], 0, 0, []);
    var h2 := Hub(true, both, {"a"}, map[0 := b], 0, 0, []);
    var h3 := Hub(true, both, {"a"}, map[0 := b], 1, 0, [{"a"}]);
    var h4 := Hub(true, both, both, map[0 := b], 1, 0, [{"a"}]);
    var h5 := Hub(true, both, both, map[0 := b.(sent := [Op(2)])], 2, 0, [{"a"}, both]);
    NothingYet(start, events);
    RunStep(start, events, 0, start, h1);
    assert "a" in both && both - {"b"} == {"a"} && {"a"} + {"b"} == both;
    RunStep(start, events, 1, h1, h2);
    PassedBy(b, {"a"}, 1);
    assert h2.rosters + [{"a"}] == [{"a"}];
    RunStep(start, events, 2, h2, h3);
    RunStep(start, events, 3, h3, h4);
    Reached(b, both, 2);
    assert b.sent + [Op(2)] == [Op(2)];
    assert h4.rosters + [both] == [{"a"}, both];
    RunStep(start, events, 4, h4, h5);
    assert events[..5] == events;
    Gap(h5.subscribers[0]);
  }

  lemma {:induction false} Gap(sub: Subscriber)
    requires sub.joined == 0 && |sub.sent| == 1
    ensures !NoGaps(sub, 2)
  {
  }

  lemma {:induction false} PassedBy(b: Subscriber, allowed: set<string>, revision: nat)
    requires b.user !in allowed
    ensures Told(map[0 := b], 1, allowed, revision, {}) == map[0 := b]
  {
  }

  lemma {:induction false} Reached(b: Subscriber, allowed: set<string>, revision: nat)
    requires b.user in allowed
    ensures Told(map[0 := b], 1, allowed, revision, {}) == map[0 := b.(sent := b.sent + [Op(revision)])]
  {
    assert Addressed(b, 0, Some(1), allowed);
  }

  lemma {:induction false} NothingYet(h: Hub, events: seq<Event>)
    ensures StateAfter(h, events[..0]) == h
  {
  }

  lemma {:induction false} RunStep(start: Hub, events: seq<Event>, i: nat, h: Hub, h': Hub)
    requires i < |events| && StateAfter(start, events[..i]) == h && Enabled(h, events[i]) && Happens(h, events[i]) == h'
    ensures StateAfter(start, events[..i + 1]) == h'
  {
    hide Happens, Enabled;
    assert events[..i + 1][..i] == events[..i];
  }

  // --- the same, as the server does it ----------------------------------

  class Fanout {
    const isPrivate: bool
    var conversation: set<string>
    var invited: set<string>
    var subscribers: Subscribers
    var revision: nat
    ghost const first: nat
    ghost var rosters: seq<set<string>>

    ghost function State(): Hub
      reads this
    {
      Hub(isPrivate, conversation, invited, subscribers, revision, first, rosters)
    }

    constructor (isPrivate: bool, conversation: set<string>, invited: set<string>, revision: nat)
      requires invited <= conversation
      ensures Loaded(State()) && Inv(State())
      ensures this.isPrivate == isPrivate && this.conversation == conversation && this.invited == invited
      ensures this.revision == revision
    {
      this.isPrivate, this.conversation, this.invited := isPrivate, conversation, invited;
      this.subscribers, this.revision := map[], revision;
      this.first, this.rosters := revision, [];
    }

    /** A connection opens the wave and is given the document as it stands. */
    method Open(conn: nat, user: string, overflows: bool)
      requires Inv(State())
      modifies this
      ensures Inv(State()) && State() == Happens(old(State()), Event.Open(conn, user, overflows))
    {
      hide Inv;
      EventKeeps(State(), Event.Open(conn, user, overflows));
      if user !in conversation {
        return;
      }
      ghost var before := subscribers;
      subscribers := subscribers[conn := Subscriber(user, revision, [])];
      if overflows {
        Disconnect({conn});
        assert subscribers == before - {conn};
      }
    }

    method Close(conn: nat)
      requires Inv(State())
      modifies this
      ensures Inv(State()) && State() == Happens(old(State()), Event.Close(conn))
    {
      hide Inv;
      EventKeeps(State(), Event.Close(conn));
      subscribers := subscribers - {conn};
    }

    /** Drop these connections. */
    method Disconnect(conns: set<nat>)
      modifies this`subscribers
      ensures subscribers == old(subscribers) - conns
    {
      var todo := conns;
      ghost var before := subscribers;
      while todo != {}
        invariant todo <= conns
        invariant subscribers == before - (conns - todo)
        decreases todo
      {
        var conn :| conn in todo;
        todo := todo - {conn};
        subscribers := subscribers - {conn};
      }
    }

    method Broadcast(message: Message, skip: Option<nat>, allowed: set<string>, full: set<nat>)
      modifies this`subscribers
      ensures subscribers == Broadcasted(old(subscribers), message, skip, allowed, full)
    {
      hide Offered, Broadcasted;
      ghost var before := subscribers;
      var failed := {};
      var todo := subscribers.Keys;
      OfferedFirst(before, message, skip, allowed, full);
      while todo != {}
        invariant todo <= before.Keys == subscribers.Keys
        invariant Offered(before, subscribers, failed, todo, message, skip, allowed, full)
        decreases todo
      {
        var c :| c in todo;
        OfferedNext(before, subscribers, failed, todo, message, skip, allowed, full, c);
        todo := todo - {c};
        if Addressed(subscribers[c], c, skip, allowed) {
          if c in full {
            failed := failed + {c};
          } else {
            subscribers := subscribers[c := subscribers[c].(sent := subscribers[c].sent + [message])];
          }
        }
      }
      OfferedLast(before, subscribers, failed, message, skip, allowed, full);
      Disconnect(failed);
    }

    method SendTo(conn: nat, message: Message, full: set<nat>)
      modifies this`subscribers
      ensures subscribers == SentTo(old(subscribers), conn, message, full)
    {
      if conn in subscribers {
        if conn in full {
          Disconnect({conn});
        } else {
          subscribers := subscribers[conn := subscribers[conn].(sent := subscribers[conn].sent + [message])];
        }
      }
    }

    /** One commit: the op to everyone else who may see it, the ack to its author. Whoever may see
        it is sent it or dropped, and nobody else is touched. */
    method Commit(conn: nat, user: string, full: set<nat>) returns (ok: bool)
      requires Inv(State()) && Enabled(State(), Event.Commit(conn, user, full))
      modifies this
      ensures Inv(State()) && State() == Happens(old(State()), Event.Commit(conn, user, full))
      ensures ok <==> user in Audience(old(State()))
      ensures ok ==> EachTold(old(subscribers), subscribers, conn, Audience(old(State())), revision, full)
    {
      hide Broadcasted, SentTo, Inv;
      EventKeeps(State(), Event.Commit(conn, user, full));
      var allowed := if isPrivate then invited else conversation;
      if user !in allowed {
        return false;
      }
      ToldEach(subscribers, conn, allowed, revision + 1, full);
      Broadcast(Op(revision + 1), Some(conn), allowed, full);
      SendTo(conn, Ack(revision + 1), full);
      revision := revision + 1;
      rosters := rosters + [allowed];
      ok := true;
    }

    /** Into the conversation, or from the conversation into the private reply. No snapshot is sent. */
    method Join(user: string, toReply: bool)
      requires Inv(State())
      modifies this
      ensures Inv(State()) && State() == Happens(old(State()), Event.Add(user, toReply))
    {
      hide Inv;
      EventKeeps(State(), Event.Add(user, toReply));
      if !toReply {
        conversation := conversation + {user};
      } else if isPrivate && user in conversation {
        invited := invited + {user};
      }
    }

    /** Out of the private reply, where the connection stays; or out of the conversation, which
        takes the private reply along and ends the user's connections. The last one stays. */
    method Leave(user: string, fromReply: bool)
      requires Inv(State())
      modifies this
      ensures Inv(State()) && State() == Happens(old(State()), Event.Remove(user, fromReply))
    {
      hide Inv;
      EventKeeps(State(), Event.Remove(user, fromReply));
      if fromReply {
        if isPrivate && invited != {user} {
          invited := invited - {user};
        }
      } else if conversation != {user} {
        conversation := conversation - {user};
        invited := invited - {user};
        subscribers := map c | c in subscribers && subscribers[c].user != user :: subscribers[c];
      }
    }
  }

  /** Part of the way through a broadcast: all but `todo` have been offered the message. */
  ghost predicate Offered(before: Subscribers, now: Subscribers, failed: set<nat>, todo: set<nat>, message: Message,
        skip: Option<nat>, allowed: set<string>, full: set<nat>) {
    && now.Keys == before.Keys
    && (forall c :: c in failed <==> c in before && c !in todo && Addressed(before[c], c, skip, allowed) && c in full)
    && (forall c | c in before ::
          now[c] == if c !in todo && Addressed(before[c], c, skip, allowed) && c !in full
                    then before[c].(sent := before[c].sent + [message]) else before[c])
  }

  lemma {:induction false} OfferedFirst(before: Subscribers, message: Message, skip: Option<nat>,
        allowed: set<string>, full: set<nat>)
    ensures Offered(before, before, {}, before.Keys, message, skip, allowed, full)
  {
  }

  lemma {:induction false} OfferedNext(before: Subscribers, now: Subscribers, failed: set<nat>, todo: set<nat>,
        message: Message, skip: Option<nat>, allowed: set<string>, full: set<nat>, c: nat)
    requires Offered(before, now, failed, todo, message, skip, allowed, full) && c in todo && c in now
    ensures if !Addressed(now[c], c, skip, allowed) then Offered(before, now, failed, todo - {c}, message, skip, allowed, full)
            else if c in full then Offered(before, now, failed + {c}, todo - {c}, message, skip, allowed, full)
            else Offered(before, now[c := now[c].(sent := now[c].sent + [message])], failed, todo - {c}, message, skip, allowed, full)
  {
  }

  lemma {:induction false} OfferedLast(before: Subscribers, now: Subscribers, failed: set<nat>, message: Message,
        skip: Option<nat>, allowed: set<string>, full: set<nat>)
    requires Offered(before, now, failed, {}, message, skip, allowed, full)
    ensures now - failed == Broadcasted(before, message, skip, allowed, full)
  {
  }
}
