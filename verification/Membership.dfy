/** Who is in a wave (crates/gal-server/src/ws.rs:568-615, 1129-1427, crates/gal-server/src/db.rs:717-726,
    841-875, crates/gal-server/src/state.rs:277-294): a conversation and its private replies, in
    memory and in the tables, with any write allowed to fail. */
module Membership {

  datatype Kind = Conversation | PrivateReply

  datatype Wavelet = Wavelet(kind: Kind, participants: set<string>)

  datatype WaveletRow = WaveletRow(wave: string, kind: Kind)

  type Wavelets = map<string, Wavelet>

  // --- the tables -------------------------------------------------------

  function Members(participants: set<(string, string)>, wavelet: string): set<string> {
    set p | p in participants && p.0 == wavelet :: p.1
  }

  /** The wavelets of one wave as the tables have them. */
  function Stored(rows: map<string, WaveletRow>, participants: set<(string, string)>, wave: string): Wavelets {
    map w | w in rows && rows[w].wave == wave :: Wavelet(rows[w].kind, Members(participants, w))
  }

  class Database {
    var rows: map<string, WaveletRow>
    var participants: set<(string, string)>

    method AddParticipant(wavelet: string, user: string, fails: bool) returns (ok: bool)
      modifies this
      ensures ok <==> !fails
      ensures !ok ==> unchanged(this)
      ensures ok ==> rows == old(rows) && participants == old(participants) + {(wavelet, user)}
    {
      ok := !fails;
      if ok {
        participants := participants + {(wavelet, user)};
      }
    }

    /** Leaving the conversation takes the private replies of the same wave along, in one
        transaction. */
    method RemoveParticipant(wavelet: string, user: string, fails: bool) returns (ok: bool)
      modifies this
      ensures ok <==> !fails
      ensures !ok ==> unchanged(this)
      ensures rows == old(rows)
      ensures ok ==> participants == set p | p in old(participants) && !(p.1 == user && Touched(rows, wavelet, p.0))
    {
      var was := participants;
      participants := set p | p in participants && !(p.1 == user && Child(rows, wavelet, p.0));
      participants := set p | p in participants && !(p.1 == user && p.0 == wavelet);
      ok := !fails;
      if !ok {
        participants := was;
      }
    }

    method CreatePrivateReply(wavelet: string, wave: string, ids: set<string>, fails: bool) returns (ok: bool)
      modifies this
      ensures ok <==> !fails && wavelet !in old(rows)
      ensures !ok ==> unchanged(this)
      ensures ok ==>
                && rows == old(rows)[wavelet := WaveletRow(wave, PrivateReply)]
                && participants == old(participants) + set u | u in ids :: (wavelet, u)
    {
      ok := !fails && wavelet !in rows;
      if ok {
        rows := rows[wavelet := WaveletRow(wave, PrivateReply)];
        participants := participants + set u | u in ids :: (wavelet, u);
      }
    }
  }

  /** `child` is a private reply in the wave that `wavelet` is the conversation of. */
  predicate Child(rows: map<string, WaveletRow>, wavelet: string, child: string) {
    && wavelet in rows && rows[wavelet].kind == Conversation
    && child in rows && rows[child].kind == PrivateReply && rows[child].wave == rows[wavelet].wave
  }

  predicate Touched(rows: map<string, WaveletRow>, wavelet: string, other: string) {
    other == wavelet || Child(rows, wavelet, other)
  }

  // --- the wave in memory -----------------------------------------------

  /** `user` taken out of `wavelet`, and out of every private reply if that is the conversation. */
  function Left(wavelets: Wavelets, wavelet: string, user: string): Wavelets
    requires wavelet in wavelets
  {
    map w | w in wavelets ::
      if w == wavelet || (wavelets[wavelet].kind == Conversation && wavelets[w].kind == PrivateReply)
      then wavelets[w].(participants := wavelets[w].participants - {user})
      else wavelets[w]
  }

  /** One conversation, not empty, and every private reply within it. */
  ghost predicate WaveOk(wavelets: Wavelets) {
    exists c :: ConversationIs(wavelets, c)
  }

  predicate ConversationIs(wavelets: Wavelets, c: string) {
    && c in wavelets && wavelets[c].kind == Conversation && wavelets[c].participants != {}
    && (forall w | w in wavelets && wavelets[w].kind == Conversation :: w == c)
    && (forall w | w in wavelets :: wavelets[w].participants <= wavelets[c].participants)
  }

  predicate MayView(wavelets: Wavelets, user: string) {
    exists w | w in wavelets :: user in wavelets[w].participants
  }

  /** Whoever is in any wavelet is in the conversation. */
  lemma {:induction false} MayViewIff(wavelets: Wavelets, c: string, user: string)
    requires ConversationIs(wavelets, c)
    ensures MayView(wavelets, user) <==> user in wavelets[c].participants
  {
  }

  lemma {:induction false} StoredAdded(rows: map<string, WaveletRow>, participants: set<(string, string)>,
        wave: string, wavelet: string, user: string)
    requires wavelet in rows && rows[wavelet].wave == wave
    ensures Stored(rows, participants + {(wavelet, user)}, wave)
         == Stored(rows, participants, wave)[wavelet := Wavelet(rows[wavelet].kind, Members(participants, wavelet) + {user})]
  {
    forall w | w in rows && rows[w].wave == wave
      ensures Members(participants + {(wavelet, user)}, w) == if w == wavelet then Members(participants, w) + {user} else Members(participants, w)
    {
      MembersAdded(participants, wavelet, user, w);
    }
  }

  lemma {:induction false} MembersAdded(participants: set<(string, string)>, wavelet: string, user: string, w: string)
    ensures Members(participants + {(wavelet, user)}, w) == if w == wavelet then Members(participants, w) + {user} else Members(participants, w)
  {
    var more := participants + {(wavelet, user)};
    forall u
      ensures u in Members(more, w) <==> u in Members(participants, w) || (w == wavelet && u == user)
    {
      MemberIff(more, w, u);
      MemberIff(participants, w, u);
    }
  }

  lemma {:induction false} MemberIff(participants: set<(string, string)>, w: string, u: string)
    ensures u in Members(participants, w) <==> (w, u) in participants
  {
    if u in Members(participants, w) {
      var p :| p in participants && p.0 == w && p.1 == u;
      assert p == (w, u);
    }
  }

  /** The two deletions in the tables do what memory does one wavelet at a time. */
  lemma {:induction false} StoredRemoved(rows: map<string, WaveletRow>, participants: set<(string, string)>,
        fewer: set<(string, string)>, wave: string, wavelet: string, user: string)
    requires wavelet in rows && rows[wavelet].wave == wave
    requires fewer == set p | p in participants && !(p.1 == user && Touched(rows, wavelet, p.0))
    ensures Stored(rows, fewer, wave) == Left(Stored(rows, participants, wave), wavelet, user)
  {
    forall w | w in rows && rows[w].wave == wave
      ensures Members(fewer, w) == if Touched(rows, wavelet, w) then Members(participants, w) - {user} else Members(participants, w)
    {
      forall u
        ensures u in Members(fewer, w) <==> u in Members(participants, w) && !(u == user && Touched(rows, wavelet, w))
      {
        MemberIff(fewer, w, u);
        MemberIff(participants, w, u);
      }
    }
  }

  lemma {:induction false} StoredReply(rows: map<string, WaveletRow>, participants: set<(string, string)>,
        wave: string, wavelet: string, ids: set<string>)
    requires wavelet !in rows && Members(participants, wavelet) == {}
    ensures Stored(rows[wavelet := WaveletRow(wave, PrivateReply)], participants + (set u | u in ids :: (wavelet, u)), wave)
         == Stored(rows, participants, wave)[wavelet := Wavelet(PrivateReply, ids)]
  {
    var more := participants + set u | u in ids :: (wavelet, u);
    forall w
      ensures Members(more, w) == if w == wavelet then ids else Members(participants, w)
    {
      forall u
        ensures u in Members(more, w) <==> if w == wavelet then u in ids else u in Members(participants, w)
      {
        MemberIff(more, w, u);
        MemberIff(participants, w, u);
      }
    }
  }

  lemma {:induction false} AddedOk(wavelets: Wavelets, wavelet: string, user: string)
    requires WaveOk(wavelets) && wavelet in wavelets
    requires wavelets[wavelet].kind == PrivateReply ==>
               exists c | c in wavelets :: wavelets[c].kind == Conversation && user in wavelets[c].participants
    ensures WaveOk(wavelets[wavelet := wavelets[wavelet].(participants := wavelets[wavelet].participants + {user})])
  {
    var c :| ConversationIs(wavelets, c);
    assert ConversationIs(wavelets[wavelet := wavelets[wavelet].(participants := wavelets[wavelet].participants + {user})], c);
  }

  lemma {:induction false} RemovedOk(wavelets: Wavelets, wavelet: string, user: string)
    requires WaveOk(wavelets) && wavelet in wavelets && |wavelets[wavelet].participants| > 1
    ensures WaveOk(Left(wavelets, wavelet, user))
  {
    var c :| ConversationIs(wavelets, c);
    if wavelet == c {
      SomeoneStays(wavelets[c].participants, user);
    }
    assert ConversationIs(Left(wavelets, wavelet, user), c);
  }

  lemma {:induction false} SomeoneStays(s: set<string>, user: string)
    requires |s| > 1
    ensures s - {user} != {}
  {
    if user in s {
      assert |s - {user}| == |s| - 1;
    } else {
      assert s - {user} == s;
    }
  }

  lemma {:induction false} RepliedOk(wavelets: Wavelets, parent: string, wavelet: string, ids: set<string>)
    requires WaveOk(wavelets) && parent in wavelets && ids <= wavelets[parent].participants && wavelet !in wavelets
    ensures WaveOk(wavelets[wavelet := Wavelet(PrivateReply, ids)])
  {
    var c :| ConversationIs(wavelets, c);
    assert ConversationIs(wavelets[wavelet := Wavelet(PrivateReply, ids)], c);
  }

  datatype Reply = NotFound | Forbidden | BadRequest | Internal | Done

  class LiveWave {
    const id: string
    const creator: string
    const db: Database
    var wavelets: Wavelets
    var subscribers: map<nat, string>

    /** Memory is what the tables say, the wave is in order, and only its members are watching. */
    ghost predicate Inv()
      reads this, db
    {
      && wavelets == Stored(db.rows, db.participants, id)
      && WaveOk(wavelets)
      && (forall conn | conn in subscribers :: MayView(wavelets, subscribers[conn]))
      && (forall p | p in db.participants :: p.0 in db.rows)
    }

    /** Load a wave nobody is watching yet. */
    constructor (id: string, creator: string, db: Database)
      requires WaveOk(Stored(db.rows, db.participants, id))
      requires forall p | p in db.participants :: p.0 in db.rows
      ensures Inv() && this.db == db && this.id == id && this.creator == creator && subscribers == map[]
    {
      this.id, this.creator, this.db := id, creator, db;
      wavelets := Stored(db.rows, db.participants, id);
      subscribers := map[];
    }

    predicate MayAccess(user: string, wavelet: string)
      reads this
    {
      wavelet in wavelets && user in wavelets[wavelet].participants
    }

    method Subscribe(conn: nat, user: string) returns (reply: Reply)
      requires Inv()
      modifies this
      ensures Inv() && unchanged(db) && wavelets == old(wavelets)
      ensures reply == if MayView(wavelets, user) then Done else NotFound
      ensures subscribers == if reply.Done? then old(subscribers)[conn := user] else old(subscribers)
    {
      if !MayView(wavelets, user) {
        return NotFound;
      }
      subscribers := subscribers[conn := user];
      reply := Done;
    }

    method AddParticipant(actor: string, wavelet: string, user: string, fails: bool) returns (reply: Reply)
      requires Inv()
      modifies this, db
      ensures Inv() && subscribers == old(subscribers)
      ensures reply.NotFound? <==> wavelet !in old(wavelets) || actor !in old(wavelets)[wavelet].participants
      ensures reply.Forbidden? ==> !MayView(wavelets, user)
      ensures reply.Done? <==>
                && wavelet in old(wavelets) && actor in old(wavelets)[wavelet].participants
                && (old(wavelets)[wavelet].kind == PrivateReply ==> MayView(old(wavelets), user))
                && (user in old(wavelets)[wavelet].participants || !fails)
      ensures reply.Done? ==>
                && wavelet in old(wavelets)
                && wavelets == old(wavelets)[wavelet := old(wavelets)[wavelet].(participants := old(wavelets)[wavelet].participants + {user})]
      ensures !reply.Done? ==> unchanged(this, db)
    {
      hide Stored, WaveOk;
      if !MayAccess(actor, wavelet) {
        return NotFound;
      }
      if wavelets[wavelet].kind == PrivateReply {
        if !exists c | c in wavelets :: wavelets[c].kind == Conversation && user in wavelets[c].participants {
          NotInConversation(wavelets, user);
          return Forbidden;
        }
      }
      ghost var before := wavelets;
      if user in wavelets[wavelet].participants {
        assert wavelets[wavelet].participants + {user} == wavelets[wavelet].participants;
        return Done;
      }
      StoredHas(db.rows, db.participants, id, wavelet);
      StoredAdded(db.rows, db.participants, id, wavelet, user);
      AddedOk(wavelets, wavelet, user);
      var ok := db.AddParticipant(wavelet, user, fails);
      if !ok {
        return Internal;
      }
      wavelets := wavelets[wavelet := wavelets[wavelet].(participants := wavelets[wavelet].participants + {user})];
      StillViewing(before, wavelets, subscribers);
      reply := Done;
    }

    /** Out of the wavelet, and out of every private reply if that was the conversation. */
    method TakeOut(wavelet: string, user: string)
      requires wavelet in wavelets
      modifies this`wavelets
      ensures wavelets == Left(old(wavelets), wavelet, user)
    {
      var cascade := wavelets[wavelet].kind == Conversation;
      wavelets := wavelets[wavelet := wavelets[wavelet].(participants := wavelets[wavelet].participants - {user})];
      if cascade {
        wavelets := map w | w in wavelets ::
          if wavelets[w].kind == PrivateReply then wavelets[w].(participants := wavelets[w].participants - {user}) else wavelets[w];
      }
    }

    /** Whoever is in no wavelet any more has their connections ended. */
    method StopWatching(user: string)
      modifies this`subscribers
      ensures subscribers == map conn | conn in old(subscribers) && (old(subscribers)[conn] != user || MayView(wavelets, user)) :: old(subscribers)[conn]
    {
      if !MayView(wavelets, user) {
        subscribers := map conn | conn in subscribers && subscribers[conn] != user :: subscribers[conn];
      }
    }

    method RemoveParticipant(actor: string, wavelet: string, user: string, fails: bool) returns (reply: Reply)
      requires Inv()
      modifies this, db
      ensures Inv()
      ensures reply.NotFound? <==> wavelet !in old(wavelets) || actor !in old(wavelets)[wavelet].participants
      ensures !reply.NotFound? ==> (reply.Forbidden? <==> user != actor && creator != actor)
      ensures reply.BadRequest? ==> old(wavelets)[wavelet].participants == {user}
      ensures reply.Done? <==>
                && wavelet in old(wavelets) && actor in old(wavelets)[wavelet].participants
                && (user == actor || creator == actor)
                && (user !in old(wavelets)[wavelet].participants || (old(wavelets)[wavelet].participants != {user} && !fails))
      ensures reply.Done? ==>
                && wavelet in old(wavelets) && wavelets == Left(old(wavelets), wavelet, user)
                && subscribers == (map conn | conn in old(subscribers) && (old(subscribers)[conn] != user || MayView(wavelets, user)) :: old(subscribers)[conn])
      ensures !reply.Done? ==> unchanged(this, db)
    {
      hide Stored, WaveOk, Left, MayView;
      if !MayAccess(actor, wavelet) {
        return NotFound;
      }
      if user != actor && creator != actor {
        return Forbidden;
      }
      ghost var before := wavelets;
      if user !in wavelets[wavelet].participants {
        NothingLeft(wavelets, wavelet, user);
        AllViewing(wavelets, subscribers, user);
        return Done;
      }
      if |wavelets[wavelet].participants| <= 1 {
        OnlyOne(wavelets[wavelet].participants, user);
        return BadRequest;
      }
      StoredHas(db.rows, db.participants, id, wavelet);
      RemovedOk(wavelets, wavelet, user);
      ghost var was := db.participants;
      var ok := db.RemoveParticipant(wavelet, user, fails);
      if !ok {
        return Internal;
      }
      StoredRemoved(db.rows, was, db.participants, id, wavelet, user);
      TakeOut(wavelet, user);
      StopWatching(user);
      OthersViewing(before, wavelet, user, old(subscribers));
      reply := Done;
    }

    method StartPrivateReply(actor: string, wavelet: string, permitted: bool, anchored: bool, ids: set<string>,
          newId: string, fails: bool)
        returns (reply: Reply)
      requires Inv()
      modifies this, db
      ensures Inv() && subscribers == old(subscribers)
      ensures reply.Done? <==>
                && wavelet in old(wavelets) && actor in old(wavelets)[wavelet].participants
                && permitted && anchored && ids <= old(wavelets)[wavelet].participants
                && !fails && newId !in old(db.rows)
      ensures reply.Done? ==>
                && wavelet in old(wavelets) && ids + {actor} <= old(wavelets)[wavelet].participants
                && wavelets == old(wavelets)[newId := Wavelet(PrivateReply, ids + {actor})]
      ensures !reply.Done? ==> unchanged(this, db)
    {
      hide Stored, WaveOk;
      if !MayAccess(actor, wavelet) {
        return NotFound;
      }
      if !permitted {
        return Forbidden;
      }
      if !anchored {
        return NotFound;
      }
      if !(ids <= wavelets[wavelet].participants) {
        return Forbidden;
      }
      ghost var before := wavelets;
      StoredHas(db.rows, db.participants, id, newId);
      if newId !in db.rows {
        NoMembers(db.rows, db.participants, newId);
        StoredReply(db.rows, db.participants, id, newId, ids + {actor});
        RepliedOk(wavelets, wavelet, newId, ids + {actor});
      }
      var ok := db.CreatePrivateReply(newId, id, ids + {actor}, fails);
      if !ok {
        return Internal;
      }
      wavelets := wavelets[newId := Wavelet(PrivateReply, ids + {actor})];
      StillViewing(before, wavelets, subscribers);
      reply := Done;
    }
  }

  lemma {:induction false} StoredHas(rows: map<string, WaveletRow>, participants: set<(string, string)>,
        wave: string, wavelet: string)
    ensures wavelet in Stored(rows, participants, wave) <==> wavelet in rows && rows[wavelet].wave == wave
    ensures wavelet in Stored(rows, participants, wave) ==>
              Stored(rows, participants, wave)[wavelet] == Wavelet(rows[wavelet].kind, Members(participants, wavelet))
  {
  }

  lemma {:induction false} NoMembers(rows: map<string, WaveletRow>, participants: set<(string, string)>,
        wavelet: string)
    requires wavelet !in rows && forall p | p in participants :: p.0 in rows
    ensures Members(participants, wavelet) == {}
  {
  }

  lemma {:induction false} NotInConversation(wavelets: Wavelets, user: string)
    requires WaveOk(wavelets)
    requires !exists c | c in wavelets :: wavelets[c].kind == Conversation && user in wavelets[c].participants
    ensures !MayView(wavelets, user)
  {
    var c :| ConversationIs(wavelets, c);
    MayViewIff(wavelets, c, user);
  }

  /** Wavelets that only gain people lose no viewer. */
  lemma {:induction false} StillViewing(before: Wavelets, after: Wavelets, subscribers: map<nat, string>)
    requires forall conn | conn in subscribers :: MayView(before, subscribers[conn])
    requires forall w | w in before :: w in after && before[w].participants <= after[w].participants
    ensures forall conn | conn in subscribers :: MayView(after, subscribers[conn])
  {
    forall conn | conn in subscribers
      ensures MayView(after, subscribers[conn])
    {
      var w :| w in before && subscribers[conn] in before[w].participants;
      assert subscribers[conn] in after[w].participants;
    }
  }

  lemma {:induction false} NothingLeft(wavelets: Wavelets, wavelet: string, user: string)
    requires WaveOk(wavelets) && wavelet in wavelets && user !in wavelets[wavelet].participants
    ensures Left(wavelets, wavelet, user) == wavelets
  {
    var c :| ConversationIs(wavelets, c);
    forall w | w in wavelets && (w == wavelet || (wavelets[wavelet].kind == Conversation && wavelets[w].kind == PrivateReply))
      ensures wavelets[w].participants - {user} == wavelets[w].participants
    {
      if w != wavelet {
        assert wavelet == c && wavelets[w].participants <= wavelets[c].participants;
      }
    }
  }

  lemma {:induction false} AllViewing(wavelets: Wavelets, subscribers: map<nat, string>, user: string)
    requires forall conn | conn in subscribers :: MayView(wavelets, subscribers[conn])
    ensures subscribers == map conn | conn in subscribers && (subscribers[conn] != user || MayView(wavelets, user)) :: subscribers[conn]
  {
  }

  lemma {:induction false} OnlyOne(s: set<string>, user: string)
    requires |s| <= 1 && user in s
    ensures s == {user}
  {
    assert |s - {user}| == |s| - 1;
    assert s == {user} + (s - {user});
  }

  /** Taking one person out takes nobody else's view away. */
  lemma {:induction false} OthersViewing(before: Wavelets, wavelet: string, user: string, subscribers: map<nat, string>)
    requires wavelet in before && forall conn | conn in subscribers :: MayView(before, subscribers[conn])
    ensures forall conn | conn in subscribers && subscribers[conn] != user :: MayView(Left(before, wavelet, user), subscribers[conn])
  {
    forall conn | conn in subscribers && subscribers[conn] != user
      ensures MayView(Left(before, wavelet, user), subscribers[conn])
    {
      var w :| w in before && subscribers[conn] in before[w].participants;
      assert subscribers[conn] in Left(before, wavelet, user)[w].participants;
    }
  }
}
