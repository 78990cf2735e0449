/** Comment threads (crates/gal-server/src/ws.rs:709-935, 937-1041, crates/gal-server/src/db.rs:891-932,
    1043-1075, crates/gal-server/src/state.rs:202-251): messages, the threads that annotate them and
    the remarks in those threads, in memory and in the tables, with any write allowed to fail. */
module Comments {
  import opened Basics

  /** A message of the wave; a remark is one that names the thread it belongs to. */
  datatype Blip = Blip(wavelet: string, parent: Option<string>, comment: Option<string>, author: string)

  datatype Thread = Thread(wavelet: string, blip: string, resolved: bool)

  datatype BlipRow = BlipRow(wave: string, blip: Blip, deleted: bool)

  datatype ThreadRow = ThreadRow(wave: string, thread: Thread)

  type Blips = map<string, Blip>

  type Threads = map<string, Thread>

  // --- the structure ----------------------------------------------------

  /** The message a thread annotates is there and is not itself a remark. */
  predicate Anchored(blips: Blips, t: Thread) {
    t.blip in blips && blips[t.blip].comment.None? && blips[t.blip].wavelet == t.wavelet
  }

  /** A remark's thread is there, and the remark hangs off the message the thread annotates. */
  predicate InThread(threads: Threads, b: Blip) {
    b.comment.Some? ==>
      && b.comment.value in threads
      && b.parent == Some(threads[b.comment.value].blip) && b.wavelet == threads[b.comment.value].wavelet
  }

  predicate HasRemark(blips: Blips, c: string) {
    exists b | b in blips :: blips[b].comment == Some(c)
  }

  predicate ThreadsOk(blips: Blips, threads: Threads) {
    && (forall c | c in threads :: Anchored(blips, threads[c]) && HasRemark(blips, c))
    && (forall b | b in blips :: InThread(threads, blips[b]))
  }

  lemma {:induction false} MessageAdded(blips: Blips, threads: Threads, id: string, blip: Blip)
    requires ThreadsOk(blips, threads) && id !in blips && InThread(threads, blip)
    ensures ThreadsOk(blips[id := blip], threads)
  {
    forall c | c in threads
      ensures HasRemark(blips[id := blip], c)
    {
      assert HasRemark(blips, c);
      var b :| b in blips && blips[b].comment == Some(c);
      assert blips[id := blip][b].comment == Some(c);
    }
  }

  lemma {:induction false} ThreadAdded(blips: Blips, threads: Threads, c: string, t: Thread, id: string, blip: Blip)
    requires ThreadsOk(blips, threads) && id !in blips && c !in threads && Anchored(blips, t)
    requires blip.comment == Some(c) && blip.parent == Some(t.blip) && blip.wavelet == t.wavelet
    ensures ThreadsOk(blips[id := blip], threads[c := t])
  {
    var more := blips[id := blip];
    assert more[id].comment == Some(c);
    forall k | k in threads
      ensures HasRemark(more, k)
    {
      assert HasRemark(blips, k);
      var b :| b in blips && blips[b].comment == Some(k);
      assert more[b].comment == Some(k);
    }
    forall b | b in more
      ensures InThread(threads[c := t], more[b])
    {
      if b != id {
        assert InThread(threads, blips[b]);
      }
    }
  }

  // --- the tables -------------------------------------------------------

  type BlipTable = map<string, BlipRow>

  type ThreadTable = map<string, ThreadRow>

  function StoredBlips(rows: BlipTable, wave: string): Blips {
    map b | b in rows && rows[b].wave == wave && !rows[b].deleted :: rows[b].blip
  }

  function StoredThreads(rows: ThreadTable, wave: string): Threads {
    map c | c in rows && rows[c].wave == wave :: rows[c].thread
  }

  /** Every wave in the tables is in order. */
  ghost predicate TablesOk(blips: BlipTable, threads: ThreadTable) {
    forall wave :: ThreadsOk(StoredBlips(blips, wave), StoredThreads(threads, wave))
  }

  /** A remark in one of the threads on message `id`. */
  predicate RemarkOn(threads: ThreadTable, id: string, blip: Blip) {
    blip.comment.Some? && blip.comment.value in threads && threads[blip.comment.value].thread.blip == id
  }

  function MarkDeleted(rows: BlipTable, which: set<string>): BlipTable {
    map b | b in rows :: if b in which then rows[b].(deleted := true) else rows[b]
  }

  class Database {
    var blips: BlipTable
    var threads: ThreadTable

    method CreateBlip(id: string, wave: string, blip: Blip, fails: bool) returns (ok: bool)
      modifies this
      ensures ok <==> !fails && id !in old(blips)
      ensures !ok ==> unchanged(this)
      ensures ok ==> blips == old(blips)[id := BlipRow(wave, blip, false)] && threads == old(threads)
    {
      ok := !fails && id !in blips;
      if ok {
        blips := blips[id := BlipRow(wave, blip, false)];
      }
    }

    /** A thread and the remark that opens it are stored together or not at all. */
    method CreateComment(c: string, thread: Thread, id: string, wave: string, blip: Blip,
          fails: bool) returns (ok: bool)
      modifies this
      ensures ok <==> !fails && c !in old(threads) && id !in old(blips)
      ensures !ok ==> unchanged(this)
      ensures ok ==>
                && blips == old(blips)[id := BlipRow(wave, blip, false)]
                && threads == old(threads)[c := ThreadRow(wave, thread)]
    {
      var was := threads;
      if c in threads {
        return false;
      }
      threads := threads[c := ThreadRow(wave, thread)];
      ok := CreateBlip(id, wave, blip, fails);
      if !ok {
        threads := was;
      }
    }

    method SetResolved(c: string, resolved: bool, fails: bool) returns (ok: bool)
      modifies this
      ensures ok <==> !fails
      ensures !ok || c !in old(threads) ==> unchanged(this)
      ensures ok && c in old(threads) ==>
                && blips == old(blips)
                && threads == old(threads)[c := old(threads)[c].(thread := old(threads)[c].thread.(resolved := resolved))]
    {
      ok := !fails;
      if ok && c in threads {
        threads := threads[c := threads[c].(thread := threads[c].thread.(resolved := resolved))];
      }
    }

    /** The remarks on the message, its threads, and the message itself, in one transaction. */
    method DeleteBlip(id: string, fails: bool) returns (ok: bool)
      modifies this
      ensures ok <==> !fails
      ensures !ok ==> unchanged(this)
      ensures ok ==> blips == BlipsWithout(old(blips), old(threads), id) && threads == ThreadsWithout(old(threads), id)
    {
      var wasBlips, wasThreads := blips, threads;
      blips := MarkDeleted(blips, set b | b in blips && RemarkOn(threads, id, blips[b].blip));
      threads := map c | c in threads && threads[c].thread.blip != id :: threads[c];
      blips := MarkDeleted(blips, {id});
      ok := !fails;
      if !ok {
        blips, threads := wasBlips, wasThreads;
      }
    }
  }

  function BlipsWithout(blips: BlipTable, threads: ThreadTable, id: string): BlipTable {
    MarkDeleted(blips, {id} + set b | b in blips && RemarkOn(threads, id, blips[b].blip))
  }

  function ThreadsWithout(threads: ThreadTable, id: string): ThreadTable {
    map c | c in threads && threads[c].thread.blip != id :: threads[c]
  }

  // --- deleting in memory -----------------------------------------------

  function ThreadsOn(threads: Threads, id: string): set<string> {
    set c | c in threads && threads[c].blip == id
  }

  function RemarksIn(blips: Blips, threads: set<string>): set<string> {
    set b | b in blips && blips[b].comment.Some? && blips[b].comment.value in threads
  }

  /** The cascade the tables run removes from the wave exactly what memory removes. */
  lemma {:induction false} CascadesAgree(blips: BlipTable, threads: ThreadTable, wave: string, id: string)
    requires TablesOk(blips, threads) && id in StoredBlips(blips, wave)
    ensures var live, open := StoredBlips(blips, wave), StoredThreads(threads, wave);
            && StoredBlips(BlipsWithout(blips, threads, id), wave) == live - {id} - RemarksIn(live, ThreadsOn(open, id))
            && StoredThreads(ThreadsWithout(threads, id), wave) == open - ThreadsOn(open, id)
  {
    hide ThreadsOk;
    var live := StoredBlips(blips, wave);
    forall b | b in live
      ensures RemarkOn(threads, id, live[b]) <==> b in RemarksIn(live, ThreadsOn(StoredThreads(threads, wave), id))
    {
      RemarkHere(blips, threads, wave, b);
    }
  }

  /** A remark and its thread are in the same wave. */
  lemma {:induction false} RemarkHere(blips: BlipTable, threads: ThreadTable, wave: string, b: string)
    requires TablesOk(blips, threads) && b in StoredBlips(blips, wave)
    ensures var blip := StoredBlips(blips, wave)[b];
            blip.comment.Some? ==> blip.comment.value in threads && threads[blip.comment.value].wave == wave
  {
    assert ThreadsOk(StoredBlips(blips, wave), StoredThreads(threads, wave));
    assert InThread(StoredThreads(threads, wave), StoredBlips(blips, wave)[b]);
  }

  /** No other wave loses anything. */
  lemma {:induction false} CascadeStaysHome(blips: BlipTable, threads: ThreadTable, wave: string, other: string,
        id: string)
    requires TablesOk(blips, threads) && id in StoredBlips(blips, wave) && other != wave
    ensures StoredBlips(BlipsWithout(blips, threads, id), other) == StoredBlips(blips, other)
    ensures StoredThreads(ThreadsWithout(threads, id), other) == StoredThreads(threads, other)
  {
    hide ThreadsOk;
    forall c | c in threads && threads[c].wave == other
      ensures threads[c].thread.blip != id
    {
      ThreadHere(blips, threads, other, c);
    }
    forall b | b in StoredBlips(blips, other)
      ensures !RemarkOn(threads, id, blips[b].blip)
    {
      RemarkHere(blips, threads, other, b);
    }
  }

  lemma {:induction false} ThreadHere(blips: BlipTable, threads: ThreadTable, wave: string, c: string)
    requires TablesOk(blips, threads) && c in threads && threads[c].wave == wave
    ensures threads[c].thread.blip in StoredBlips(blips, wave)
  {
    assert ThreadsOk(StoredBlips(blips, wave), StoredThreads(threads, wave));
    assert Anchored(StoredBlips(blips, wave), StoredThreads(threads, wave)[c]);
  }

  lemma {:induction false} DeletedOk(blips: Blips, threads: Threads, id: string)
    requires ThreadsOk(blips, threads) && id in blips && blips[id].comment.None?
    ensures ThreadsOk(blips - {id} - RemarksIn(blips, ThreadsOn(threads, id)), threads - ThreadsOn(threads, id))
  {
    var left, open := blips - {id} - RemarksIn(blips, ThreadsOn(threads, id)), threads - ThreadsOn(threads, id);
    forall c | c in open
      ensures Anchored(left, open[c]) && HasRemark(left, c)
    {
      assert Anchored(blips, threads[c]) && HasRemark(blips, c);
      var b :| b in blips && blips[b].comment == Some(c);
      assert b in left && left[b].comment == Some(c);
    }
    forall b | b in left
      ensures InThread(open, left[b])
    {
      assert InThread(threads, blips[b]);
    }
  }

  /** After a deletion every wave is still in order. */
  lemma {:induction false} TablesAfterDelete(blips: BlipTable, threads: ThreadTable, wave: string, id: string)
    requires TablesOk(blips, threads) && id in StoredBlips(blips, wave) && StoredBlips(blips, wave)[id].comment.None?
    ensures TablesOk(BlipsWithout(blips, threads, id), ThreadsWithout(threads, id))
  {
    hide ThreadsOk, BlipsWithout, ThreadsWithout, StoredBlips, StoredThreads;
    forall other
      ensures ThreadsOk(StoredBlips(BlipsWithout(blips, threads, id), other), StoredThreads(ThreadsWithout(threads, id), other))
    {
      assert ThreadsOk(StoredBlips(blips, other), StoredThreads(threads, other));
      if other == wave {
        CascadesAgree(blips, threads, wave, id);
        DeletedOk(StoredBlips(blips, wave), StoredThreads(threads, wave), id);
      } else {
        CascadeStaysHome(blips, threads, wave, other, id);
      }
    }
  }

  // --- inserting rows ---------------------------------------------------

  lemma {:induction false} BlipStored(blips: BlipTable, id: string, wave: string, blip: Blip, other: string)
    requires id !in blips
    ensures id !in StoredBlips(blips, other)
    ensures StoredBlips(blips[id := BlipRow(wave, blip, false)], other)
         == if other == wave then StoredBlips(blips, other)[id := blip] else StoredBlips(blips, other)
  {
  }

  lemma {:induction false} ThreadKnown(threads: ThreadTable, wave: string, c: string)
    ensures c in StoredThreads(threads, wave) ==> c in threads
  {
  }

  lemma {:induction false} ThreadStored(threads: ThreadTable, c: string, wave: string, t: Thread, other: string)
    requires c in threads ==> threads[c].wave == wave
    ensures StoredThreads(threads[c := ThreadRow(wave, t)], other)
         == if other == wave then StoredThreads(threads, other)[c := t] else StoredThreads(threads, other)
    ensures c !in threads ==> c !in StoredThreads(threads, other)
  {
  }

  lemma {:induction false} TablesWithBlip(blips: BlipTable, threads: ThreadTable, id: string, wave: string, blip: Blip)
    requires TablesOk(blips, threads) && id !in blips && InThread(StoredThreads(threads, wave), blip)
    ensures TablesOk(blips[id := BlipRow(wave, blip, false)], threads)
  {
    hide ThreadsOk, StoredBlips, StoredThreads, InThread;
    forall other
      ensures ThreadsOk(StoredBlips(blips[id := BlipRow(wave, blip, false)], other), StoredThreads(threads, other))
    {
      assert ThreadsOk(StoredBlips(blips, other), StoredThreads(threads, other));
      BlipStored(blips, id, wave, blip, other);
      if other == wave {
        MessageAdded(StoredBlips(blips, wave), StoredThreads(threads, wave), id, blip);
      }
    }
  }

  lemma {:induction false} TablesWithThread(blips: BlipTable, threads: ThreadTable, c: string, t: Thread, id: string,
        wave: string, blip: Blip)
    requires TablesOk(blips, threads) && id !in blips && c !in threads && Anchored(StoredBlips(blips, wave), t)
    requires blip.comment == Some(c) && blip.parent == Some(t.blip) && blip.wavelet == t.wavelet
    ensures TablesOk(blips[id := BlipRow(wave, blip, false)], threads[c := ThreadRow(wave, t)])
  {
    hide ThreadsOk, StoredBlips, StoredThreads, Anchored;
    var moreBlips, moreThreads := blips[id := BlipRow(wave, blip, false)], threads[c := ThreadRow(wave, t)];
    forall other
      ensures ThreadsOk(StoredBlips(moreBlips, other), StoredThreads(moreThreads, other))
    {
      assert ThreadsOk(StoredBlips(blips, other), StoredThreads(threads, other));
      BlipStored(blips, id, wave, blip, other);
      ThreadStored(threads, c, wave, t, other);
      if other == wave {
        ThreadAdded(StoredBlips(blips, wave), StoredThreads(threads, wave), c, t, id, blip);
      }
    }
  }

  lemma {:induction false} ResolvedOk(blips: Blips, threads: Threads, c: string, resolved: bool)
    requires ThreadsOk(blips, threads) && c in threads
    ensures ThreadsOk(blips, threads[c := threads[c].(resolved := resolved)])
  {
    forall b | b in blips
      ensures InThread(threads[c := threads[c].(resolved := resolved)], blips[b])
    {
      assert InThread(threads, blips[b]);
    }
  }

  lemma {:induction false} TablesResolved(blips: BlipTable, threads: ThreadTable, c: string, resolved: bool)
    requires TablesOk(blips, threads) && c in threads
    ensures TablesOk(blips, threads[c := threads[c].(thread := threads[c].thread.(resolved := resolved))])
  {
    hide ThreadsOk, StoredBlips;
    var wave, t := threads[c].wave, threads[c].thread.(resolved := resolved);
    forall other
      ensures ThreadsOk(StoredBlips(blips, other), StoredThreads(threads[c := ThreadRow(wave, t)], other))
    {
      assert ThreadsOk(StoredBlips(blips, other), StoredThreads(threads, other));
      ThreadStored(threads, c, wave, t, other);
      if other == wave {
        ResolvedOk(StoredBlips(blips, wave), StoredThreads(threads, wave), c, resolved);
      }
    }
  }

  // --- the wave in memory -----------------------------------------------

  datatype Reply = NotFound | Forbidden | BadRequest | Internal | Done

  class LiveWave {
    const id: string
    const db: Database
    var blips: Blips
    var comments: Threads

    /** Memory is what the tables say, and the threads of every wave are in order. */
    ghost predicate Inv()
      reads this, db
    {
      && blips == StoredBlips(db.blips, id) && comments == StoredThreads(db.threads, id)
      && TablesOk(db.blips, db.threads)
    }

    constructor (id: string, db: Database)
      requires TablesOk(db.blips, db.threads)
      ensures Inv() && this.db == db && this.id == id
    {
      this.id, this.db := id, db;
      blips, comments := StoredBlips(db.blips, id), StoredThreads(db.threads, id);
    }

    lemma {:induction false} InOrder()
      requires Inv()
      ensures ThreadsOk(blips, comments)
    {
    }

    /** A message, or a reply to one in the same wavelet. */
    method CreateBlip(actor: string, wavelet: string, access: bool, permitted: bool, parent: Option<string>,
          newId: string, fails: bool)
        returns (reply: Reply)
      requires Inv()
      modifies this, db
      ensures Inv() && ThreadsOk(blips, comments) && comments == old(comments)
      ensures reply.Done? <==>
                && access && permitted && !fails && newId !in old(db.blips)
                && (parent.Some? ==> parent.value in old(blips) && old(blips)[parent.value].wavelet == wavelet)
      ensures reply.Done? ==>
                && newId !in old(blips) && blips == old(blips)[newId := Blip(wavelet, parent, None, actor)]
                && (parent.Some? ==> parent.value in old(blips) && old(blips)[parent.value].wavelet == wavelet)
      ensures !reply.Done? ==> unchanged(this, db)
    {
      hide TablesOk, StoredBlips, StoredThreads, ThreadsOk;
      InOrder();
      if !access {
        return NotFound;
      }
      if !permitted {
        return Forbidden;
      }
      if parent.Some? && !(parent.value in blips && blips[parent.value].wavelet == wavelet) {
        return BadRequest;
      }
      var blip := Blip(wavelet, parent, None, actor);
      if newId !in db.blips {
        TablesWithBlip(db.blips, db.threads, newId, id, blip);
        BlipStored(db.blips, newId, id, blip, id);
      }
      var ok := db.CreateBlip(newId, id, blip, fails);
      if !ok {
        return Internal;
      }
      blips := blips[newId := blip];
      InOrder();
      reply := Done;
    }

    /** Open a thread on a message, with its first remark. */
    method CreateComment(actor: string, wavelet: string, access: bool, permitted: bool, target: string, c: string,
          newId: string, fails: bool)
        returns (reply: Reply)
      requires Inv()
      modifies this, db
      ensures Inv() && ThreadsOk(blips, comments)
      ensures reply.Done? <==>
                && access && permitted && !fails && newId !in old(db.blips) && c !in old(db.threads)
                && target in old(blips) && old(blips)[target].wavelet == wavelet && old(blips)[target].comment.None?
      ensures reply.Done? ==>
                && c !in old(comments) && newId !in old(blips)
                && comments == old(comments)[c := Thread(wavelet, target, false)]
                && blips == old(blips)[newId := Blip(wavelet, Some(target), Some(c), actor)]
      ensures target in old(blips) && old(blips)[target].comment.Some? ==> !reply.Done?
      ensures !reply.Done? ==> unchanged(this, db)
    {
      hide TablesOk, StoredBlips, StoredThreads, ThreadsOk;
      InOrder();
      if !access {
        return NotFound;
      }
      if !permitted {
        return Forbidden;
      }
      ThreadKnown(db.threads, id, c);
      if c in comments {
        return BadRequest;
      }
      if target !in blips || blips[target].wavelet != wavelet {
        return NotFound;
      }
      if blips[target].comment.Some? {
        return BadRequest;
      }
      var thread := Thread(wavelet, target, false);
      var blip := Blip(wavelet, Some(target), Some(c), actor);
      if newId !in db.blips && c !in db.threads {
        TablesWithThread(db.blips, db.threads, c, thread, newId, id, blip);
        BlipStored(db.blips, newId, id, blip, id);
        ThreadStored(db.threads, c, id, thread, id);
      }
      var ok := db.CreateComment(c, thread, newId, id, blip, fails);
      if !ok {
        return Internal;
      }
      comments := comments[c := thread];
      blips := blips[newId := blip];
      InOrder();
      reply := Done;
    }

    /** Add a remark to an open thread. */
    method ReplyToComment(actor: string, access: bool, permitted: bool, c: string, newId: string,
          fails: bool) returns (reply: Reply)
      requires Inv()
      modifies this, db
      ensures Inv() && ThreadsOk(blips, comments) && comments == old(comments)
      ensures reply.Done? <==>
                && access && permitted && !fails && newId !in old(db.blips)
                && c in old(comments) && !old(comments)[c].resolved
      ensures reply.Done? ==>
                && c in comments && !comments[c].resolved && newId !in old(blips)
                && blips == old(blips)[newId := Blip(comments[c].wavelet, Some(comments[c].blip), Some(c), actor)]
      ensures !reply.Done? ==> unchanged(this, db)
    {
      hide TablesOk, StoredBlips, StoredThreads, ThreadsOk;
      InOrder();
      if c !in comments || !access {
        return NotFound;
      }
      if !permitted {
        return Forbidden;
      }
      if comments[c].resolved {
        return BadRequest;
      }
      var blip := Blip(comments[c].wavelet, Some(comments[c].blip), Some(c), actor);
      if newId !in db.blips {
        TablesWithBlip(db.blips, db.threads, newId, id, blip);
        BlipStored(db.blips, newId, id, blip, id);
      }
      var ok := db.CreateBlip(newId, id, blip, fails);
      if !ok {
        return Internal;
      }
      blips := blips[newId := blip];
      InOrder();
      reply := Done;
    }

    /** Close a thread, or reopen it. */
    method ResolveComment(access: bool, permitted: bool, c: string, resolved: bool, fails: bool) returns (reply: Reply)
      requires Inv()
      modifies this, db
      ensures Inv() && ThreadsOk(blips, comments) && blips == old(blips)
      ensures reply.Done? <==>
                access && permitted && c in old(comments) && (old(comments)[c].resolved == resolved || !fails)
      ensures reply.Done? ==> c in old(comments) && comments == old(comments)[c := old(comments)[c].(resolved := resolved)]
      ensures !reply.Done? ==> unchanged(this, db)
    {
      hide TablesOk, StoredBlips, ThreadsOk;
      InOrder();
      if c !in comments || !access {
        return NotFound;
      }
      if !permitted {
        return Forbidden;
      }
      if comments[c].resolved == resolved {
        return Done;
      }
      TablesResolved(db.blips, db.threads, c, resolved);
      ThreadStored(db.threads, c, id, comments[c].(resolved := resolved), id);
      var ok := db.SetResolved(c, resolved, fails);
      if !ok {
        return Internal;
      }
      comments := comments[c := comments[c].(resolved := resolved)];
      InOrder();
      reply := Done;
    }

    /** Delete a message that has no replies; the threads on it go with it. */
    method DeleteBlip(actor: string, access: bool, permitted: bool, target: string, fails: bool) returns (reply: Reply)
      requires Inv()
      modifies this, db
      ensures Inv() && ThreadsOk(blips, comments)
      ensures target in old(blips) && old(blips)[target].comment.Some? ==> !reply.Done?
      ensures reply.Done? <==>
                && access && permitted && !fails && target in old(blips)
                && old(blips)[target].comment.None? && old(blips)[target].author == actor
                && forall b | b in old(blips) && old(blips)[b].parent == Some(target) :: old(blips)[b].comment.Some?
      ensures reply.Done? ==>
                && target in old(blips) && old(blips)[target].author == actor
                && (forall b | b in old(blips) && old(blips)[b].parent == Some(target) :: old(blips)[b].comment.Some?)
                && comments == old(comments) - ThreadsOn(old(comments), target)
                && blips == old(blips) - {target} - RemarksIn(old(blips), ThreadsOn(old(comments), target))
      ensures !reply.Done? ==> unchanged(this, db)
    {
      hide TablesOk, StoredBlips, StoredThreads, ThreadsOk, BlipsWithout, ThreadsWithout;
      InOrder();
      if target !in blips || !access {
        return NotFound;
      }
      if blips[target].comment.Some? || blips[target].author != actor || !permitted {
        return Forbidden;
      }
      if exists b | b in blips :: blips[b].parent == Some(target) && blips[b].comment.None? {
        return BadRequest;
      }
      var threads := ThreadsOn(comments, target);
      var remarks := RemarksIn(blips, threads);
      CascadesAgree(db.blips, db.threads, id, target);
      TablesAfterDelete(db.blips, db.threads, id, target);
      var ok := db.DeleteBlip(target, fails);
      if !ok {
        return Internal;
      }
      blips := blips - {target};
      blips := blips - remarks;
      comments := comments - threads;
      InOrder();
      reply := Done;
    }
  }
}
