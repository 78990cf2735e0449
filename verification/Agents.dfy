/** Replies by headless agents (crates/gal-server/src/agent.rs:394-475, crates/gal-server/src/db.rs:411-477,
    1936-1944): a request that is retried, refused, interrupted or sent again with other content still
    produces at most one message, and one receipt. */
module Agents {
  import opened Basics

  /** Which request: an agent token and the id the agent chose. */
  datatype Key = Key(token: string, request: string)

  datatype Receipt = Receipt(key: Key, blip: string)

  /** What is kept of a request that succeeded: the digest of its body, and the receipt. */
  datatype StoredReply = StoredReply(hash: string, receipt: Receipt)

  datatype Response =
    | Created(receipt: Receipt)
    | Replayed(receipt: Receipt)
    | Conflict
    | Unauthorised
    | NotFound
    | Refused
    | ServerError {
    function Receipts(): Option<Receipt> {
      match this
      case Created(r) => Some(r)
      case Replayed(r) => Some(r)
      case _ => None
    }
  }

  /** The answers the rest of the server gives while one request is handled. */
  datatype Verdicts = Verdicts(access: bool, known: bool, stillValid: bool, permitted: bool, lookupFails: bool, writeFails: bool)

  type Replies = map<Key, StoredReply>

  class Storage {
    var replies: Replies
    /** The messages written for agents, and the request each was written for. */
    var messages: map<string, Key>

    /** Every receipt is for a message that is there, and no message is there for another request. */
    predicate Valid()
      reads this
    {
      && (forall k | k in replies :: replies[k].receipt.key == k && replies[k].receipt.blip in messages && messages[replies[k].receipt.blip] == k)
      && (forall b | b in messages :: messages[b] in replies && replies[messages[b]].receipt.blip == b)
    }

    constructor ()
      ensures Valid() && replies == map[]
    {
      replies, messages := map[], map[];
    }

    /** The message and the receipt in one transaction. The primary key of the receipts and the
        key of the messages make it fail if either is there already. */
    method CreateAgentReply(key: Key, hash: string, blip: string, fails: bool) returns (ok: bool)
      requires Valid()
      modifies this
      ensures Valid()
      ensures ok <==> !fails && key !in old(replies) && blip !in old(messages)
      ensures !ok ==> unchanged(this)
      ensures ok ==> replies == old(replies)[key := StoredReply(hash, Receipt(key, blip))] && messages == old(messages)[blip := key]
    {
      var was := messages;
      if blip in messages {
        return false;
      }
      messages := messages[blip := key];
      if fails || key in replies {
        messages := was;
        return false;
      }
      replies := replies[key := StoredReply(hash, Receipt(key, blip))];
      ok := true;
    }

    /** No request has two messages. */
    lemma {:induction false} OneMessage(b: string, c: string)
      requires Valid() && b in messages && c in messages && messages[b] == messages[c]
      ensures b == c
    {
    }

    /** Handle one request; `blip` is the id its message would get. */
    method CreateReply(key: Key, hash: string, blip: string, v: Verdicts) returns (response: Response)
      requires Valid()
      modifies this
      ensures Valid()
      ensures (response, replies) == Handled(old(replies), key, hash, blip, blip in old(messages), v)
      ensures response.Created? <==> Fulfilled(old(replies), key, v) && blip !in old(messages)
      ensures response == Refused <==> v.access && v.known && !v.lookupFails && key !in old(replies) && !v.permitted
      ensures response.Created? ==> messages == old(messages)[blip := key]
      ensures !response.Created? ==> unchanged(this)
    {
      if !v.access {
        return NotFound;
      }
      if !v.known {
        return Unauthorised;
      }
      if v.lookupFails {
        return ServerError;
      }
      if key in replies {
        if replies[key].hash == hash {
          return Replayed(replies[key].receipt);
        }
        return Conflict;
      }
      if !v.permitted {
        return Refused;
      }
      if !v.stillValid {
        return Unauthorised;
      }
      var ok := CreateAgentReply(key, hash, blip, v.writeFails);
      response := if ok then Created(Receipt(key, blip)) else ServerError;
    }
  }

  /** Nothing stands in the way of a request that has not succeeded before. */
  predicate Fulfilled(replies: Replies, key: Key, v: Verdicts) {
    key !in replies && v.access && v.known && !v.lookupFails && v.permitted && v.stillValid && !v.writeFails
  }

  /** What one request leads to. A receipt that is there is looked at before anything that may
      have changed since; a new one is written only if nothing stands in the way. */
  function Handled(replies: Replies, key: Key, hash: string, blip: string, taken: bool, v: Verdicts): (Response,
        Replies) {
    if !v.access then (NotFound, replies)
    else if !v.known then (Unauthorised, replies)
    else if v.lookupFails then (ServerError, replies)
    else if key in replies then (if replies[key].hash == hash then Replayed(replies[key].receipt) else Conflict, replies)
    else if !v.permitted then (Refused, replies)
    else if !v.stillValid then (Unauthorised, replies)
    else if v.writeFails || taken then (ServerError, replies)
    else (Created(Receipt(key, blip)), replies[key := StoredReply(hash, Receipt(key, blip))])
  }

  // --- runs -------------------------------------------------------------

  datatype Request = Request(key: Key, hash: string, blip: string, taken: bool, verdicts: Verdicts)

  function Step(replies: Replies, r: Request): (Response, Replies) {
    Handled(replies, r.key, r.hash, r.blip, r.taken, r.verdicts)
  }

  function Responses(replies: Replies, requests: seq<Request>): seq<Response>
    decreases |requests|
    ensures |Responses(replies, requests)| == |requests|
  {
    if requests == [] then []
    else [Step(replies, requests[0]).0] + Responses(Step(replies, requests[0]).1, requests[1..])
  }

  /** A receipt, once stored, stays: it is all that any later success for its request returns. */
  lemma {:induction false} StoredForGood(replies: Replies, requests: seq<Request>, k: nat, key: Key)
    requires key in replies && k < |requests| && requests[k].key == key
    ensures var response := Responses(replies, requests)[k];
            response.Receipts().Some? ==> response == Replayed(replies[key].receipt) && requests[k].hash == replies[key].hash
    decreases |requests|
  {
    if k > 0 {
      StoredForGood(Step(replies, requests[0]).1, requests[1..], k - 1, key);
    }
  }

  /** A success leaves its receipt in the table. */
  lemma {:induction false} SuccessIsStored(replies: Replies, r: Request)
    requires Step(replies, r).0.Receipts().Some?
    ensures var after := Step(replies, r).1;
            r.key in after && after[r.key].hash == r.hash && Some(after[r.key].receipt) == Step(replies, r).0.Receipts()
  {
  }

  /** However requests are retried and interleaved: all successes for one request carry the same
      receipt, were asked for with the same content, and only the first of them writes a message. */
  lemma {:induction false} RepliesOnce(replies: Replies, requests: seq<Request>, i: nat, j: nat)
    requires i < j < |requests| && requests[i].key == requests[j].key
    requires Responses(replies, requests)[i].Receipts().Some? && Responses(replies, requests)[j].Receipts().Some?
    ensures Responses(replies, requests)[i].Receipts() == Responses(replies, requests)[j].Receipts()
    ensures requests[i].hash == requests[j].hash && Responses(replies, requests)[j].Replayed?
    decreases |requests|
  {
    hide Handled;
    var after := Step(replies, requests[0]).1;
    if i > 0 {
      RepliesOnce(after, requests[1..], i - 1, j - 1);
    } else {
      SuccessIsStored(replies, requests[0]);
      StoredForGood(after, requests[1..], j - 1, requests[0].key);
    }
  }

  /** The table of receipts before request `k`. */
  function Before(replies: Replies, requests: seq<Request>, k: nat): Replies
    requires k <= |requests|
    decreases |requests|
  {
    if k == 0 then replies else Before(Step(replies, requests[0]).1, requests[1..], k - 1)
  }

  lemma {:induction false} ResponseAt(replies: Replies, requests: seq<Request>, k: nat)
    requires k < |requests|
    ensures Responses(replies, requests)[k] == Step(Before(replies, requests, k), requests[k]).0
    decreases |requests|
  {
    if k > 0 {
      ResponseAt(Step(replies, requests[0]).1, requests[1..], k - 1);
    }
  }

  /** A receipt, once stored, is never replaced. */
  lemma {:induction false} StaysStored(replies: Replies, requests: seq<Request>, k: nat, key: Key)
    requires key in replies && k <= |requests|
    ensures key in Before(replies, requests, k) && Before(replies, requests, k)[key] == replies[key]
    decreases |requests|
  {
    if k > 0 {
      StaysStored(Step(replies, requests[0]).1, requests[1..], k - 1, key);
    }
  }

  /** After a success, every later request under the same key that may be answered is: the same content
      gets the same receipt again, other content is a conflict, and nothing is written. */
  lemma {:induction false} RetryAnswered(replies: Replies, requests: seq<Request>, i: nat, j: nat)
    requires i < j < |requests| && requests[i].key == requests[j].key
    requires Responses(replies, requests)[i].Receipts().Some?
    requires requests[j].verdicts.access && requests[j].verdicts.known && !requests[j].verdicts.lookupFails
    ensures Responses(replies, requests)[j]
         == if requests[i].hash == requests[j].hash then Replayed(Responses(replies, requests)[i].Receipts().value) else Conflict
    ensures Step(Before(replies, requests, j), requests[j]).1 == Before(replies, requests, j)
    decreases |requests|
  {
    hide Before;
    var after := Step(replies, requests[0]).1;
    ResponseAt(replies, requests, j);
    BeforeStep(replies, requests, j);
    if i > 0 {
      RetryAnswered(after, requests[1..], i - 1, j - 1);
    } else {
      SuccessIsStored(replies, requests[0]);
      StaysStored(after, requests[1..], j - 1, requests[0].key);
    }
  }

  lemma {:induction false} BeforeStep(replies: Replies, requests: seq<Request>, k: nat)
    requires 0 < k <= |requests|
    ensures Before(replies, requests, k) == Before(Step(replies, requests[0]).1, requests[1..], k - 1)
  {
  }

  /** A key gets its receipt from a success and from nothing else. */
  lemma {:induction false} StoredBySuccess(replies: Replies, requests: seq<Request>, k: nat, key: Key)
    requires k <= |requests| && key !in replies
    requires forall i | 0 <= i < k && requests[i].key == key :: Responses(replies, requests)[i].Receipts().None?
    ensures key !in Before(replies, requests, k)
    decreases |requests|
  {
    if k > 0 {
      var r := requests[0];
      assert Responses(replies, requests)[0] == Step(replies, r).0;
      assert key !in Step(replies, r).1;
      forall i | 0 <= i < k - 1 && requests[1..][i].key == key
        ensures Responses(Step(replies, r).1, requests[1..])[i].Receipts().None?
      {
        assert requests[i + 1].key == key;
      }
      StoredBySuccess(Step(replies, r).1, requests[1..], k - 1, key);
    }
  }

  /** In any run, a request that has not succeeded before writes its message if and only if every
      verdict is in its favour, the write succeeds and its id is free; without permission it writes
      nothing. */
  lemma {:induction false} CreatedIff(replies: Replies, requests: seq<Request>, k: nat)
    requires k < |requests| && requests[k].key !in replies
    requires forall i | 0 <= i < k && requests[i].key == requests[k].key :: Responses(replies, requests)[i].Receipts().None?
    ensures var r, v := requests[k], requests[k].verdicts;
            && (Responses(replies, requests)[k].Created? <==>
                  v.access && v.known && !v.lookupFails && v.permitted && v.stillValid && !v.writeFails && !r.taken)
            && (!v.permitted ==> Step(Before(replies, requests, k), r).1 == Before(replies, requests, k))
  {
    StoredBySuccess(replies, requests, k, requests[k].key);
    ResponseAt(replies, requests, k);
  }
}
