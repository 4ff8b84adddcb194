/** Direct-message threads: one per unordered pair of users, whoever opens it and however the
    requests interleave. Also who the other member of a thread is. */
module DmThreads {
  import opened Text

  type User = string
  datatype ThreadId = ThreadId(id: string)

  /** A thread's two members, as the table stores them. */
  datatype Thread = Thread(a: User, b: User)

  datatype Failure = BadRequest | NotFound | Forbidden
  datatype Result<+T> = Ok(value: T) | Err(error: Failure)

  function CanonicalPair(x: User, y: User): Thread {
    if Less(y, x) then Thread(y, x) else Thread(x, y)
  }

  predicate SamePair(x: User, y: User, x': User, y': User) {
    (x == x' && y == y') || (x == y' && y == x')
  }

  /** The stored order forgets who asked, and nothing else. */
  lemma CanonicalIffSamePair(x: User, y: User, x': User, y': User)
    ensures CanonicalPair(x, y) == CanonicalPair(x', y') <==> SamePair(x, y, x', y')
  {
    LessTotal(x, y);
    LessTotal(x', y');
  }

  /** The other member of a thread. */
  function PeerIn(t: Thread, me: User): Result<User> {
    if t.a == me then Ok(t.b) else if t.b == me then Ok(t.a) else Err(Forbidden)
  }

  predicate Has(threads: map<ThreadId, Thread>, t: Thread) {
    exists id :: id in threads && threads[id] == t
  }

  /** The table's UNIQUE constraint on the pair. */
  predicate Unique(threads: map<ThreadId, Thread>) {
    forall i, j :: i in threads && j in threads && threads[i] == threads[j] ==> i == j
  }

  /** What one `get_or_create_thread` answers and leaves behind; an id that is taken makes the
      insert do nothing, and the lookup then finds no row. */
  ghost predicate Outcome(users: set<User>, before: map<ThreadId, Thread>, after: map<ThreadId, Thread>,
                          me: User, other: User, newId: ThreadId, r: Result<ThreadId>) {
    var t := CanonicalPair(me, other);
    if me == other then r == Err(BadRequest) && after == before
    else if other !in users then r == Err(NotFound) && after == before
    else if Has(before, t) then r.Ok? && r.value in before && before[r.value] == t && after == before
    else if newId in before then r == Err(NotFound) && after == before
    else r == Ok(newId) && after == before[newId := t]
  }

  class ThreadTable {
    var users: set<User>
    var threads: map<ThreadId, Thread>

    method GetOrCreate(me: User, other: User, newId: ThreadId) returns (r: Result<ThreadId>)
      requires Unique(threads)
      modifies this`threads
      ensures Unique(threads)
      ensures Outcome(users, old(threads), threads, me, other, newId, r)
    {
      if me == other { return Err(BadRequest); }
      if other !in users { return Err(NotFound); }
      var t := CanonicalPair(me, other);
      var found := set id | id in threads && threads[id] == t;
      assert Has(threads, t) <==> found != {} by {
        if id :| id in threads && threads[id] == t { assert id in found; }
      }
      if found == {} && newId !in threads {
        threads := threads[newId := t];
        return Ok(newId);
      }
      if found == {} { return Err(NotFound); }
      var id :| id in found;
      r := Ok(id);
    }
  }

  // ---------- histories ----------

  datatype Call = Call(me: User, other: User, newId: ThreadId, users: set<User>, r: Result<ThreadId>)

  /** The table before, between and after a run of calls. */
  ghost predicate History(tables: seq<map<ThreadId, Thread>>, calls: seq<Call>) {
    && |tables| == |calls| + 1 && Unique(tables[0])
    && forall n :: 0 <= n < |calls| ==>
         Outcome(calls[n].users, tables[n], tables[n + 1], calls[n].me, calls[n].other, calls[n].newId, calls[n].r)
  }

  lemma {:induction false} ThreadsStay(tables: seq<map<ThreadId, Thread>>, calls: seq<Call>, i: nat, n: nat)
    requires History(tables, calls) && i <= n < |tables|
    ensures Unique(tables[n])
    ensures forall id :: id in tables[i] ==> id in tables[n] && tables[n][id] == tables[i][id]
    decreases n
  {
    if n > 0 {
      assert Outcome(calls[n - 1].users, tables[n - 1], tables[n], calls[n - 1].me, calls[n - 1].other,
                     calls[n - 1].newId, calls[n - 1].r);
      ThreadsStay(tables, calls, if i < n then i else n - 1, n - 1);
    }
  }

  lemma AnswerIsStored(tables: seq<map<ThreadId, Thread>>, calls: seq<Call>, i: nat, n: nat)
    requires History(tables, calls) && i < n < |tables| && calls[i].r.Ok?
    ensures calls[i].r.value in tables[n]
    ensures tables[n][calls[i].r.value] == CanonicalPair(calls[i].me, calls[i].other)
  {
    assert Outcome(calls[i].users, tables[i], tables[i + 1], calls[i].me, calls[i].other, calls[i].newId, calls[i].r);
    ThreadsStay(tables, calls, i + 1, n);
  }

  /** Two requests get the same thread exactly when they are about the same two people, in
      either order; and from then on each of the two finds the other as the peer. */
  lemma OneThreadPerPair(tables: seq<map<ThreadId, Thread>>, calls: seq<Call>, i: nat, j: nat)
    requires History(tables, calls) && i < |calls| && j < |calls| && calls[i].r.Ok? && calls[j].r.Ok?
    ensures calls[i].r == calls[j].r <==> SamePair(calls[i].me, calls[i].other, calls[j].me, calls[j].other)
    ensures forall n :: i < n < |tables| ==>
      && calls[i].r.value in tables[n]
      && PeerIn(tables[n][calls[i].r.value], calls[i].me) == Ok(calls[i].other)
      && PeerIn(tables[n][calls[i].r.value], calls[i].other) == Ok(calls[i].me)
  {
    var last := |calls|;
    AnswerIsStored(tables, calls, i, last);
    AnswerIsStored(tables, calls, j, last);
    ThreadsStay(tables, calls, 0, last);
    CanonicalIffSamePair(calls[i].me, calls[i].other, calls[j].me, calls[j].other);
    forall n | i < n < |tables|
      ensures calls[i].r.value in tables[n] && tables[n][calls[i].r.value] == CanonicalPair(calls[i].me, calls[i].other)
    {
      AnswerIsStored(tables, calls, i, n);
    }
    LessTotal(calls[i].me, calls[i].other);
  }

  // ---------- who gets what answer ----------

  /** Exactly the two members have a peer in a thread, each the other. */
  lemma PeerIff(t: Thread, me: User)
    ensures PeerIn(t, me).Ok? <==> me == t.a || me == t.b
    ensures me == t.a ==> PeerIn(t, me) == Ok(t.b)
    ensures me == t.b && t.a != t.b ==> PeerIn(t, me) == Ok(t.a)
    ensures me != t.a && me != t.b ==> PeerIn(t, me) == Err(Forbidden)
  {
  }

  /** A request fails exactly for oneself, for an unknown user, or when the pair has no thread
      and the new id is taken; a thread is stored exactly when it succeeds for a pair without
      one, and then for these two. */
  lemma AnswerRule(users: set<User>, before: map<ThreadId, Thread>, after: map<ThreadId, Thread>,
                   me: User, other: User, newId: ThreadId, r: Result<ThreadId>)
    requires Outcome(users, before, after, me, other, newId, r)
    ensures var known := exists id :: id in before && (before[id] == Thread(me, other) || before[id] == Thread(other, me))
                                      && before[id] == CanonicalPair(me, other);
      && (r.Err? <==> me == other || other !in users || (!known && newId in before))
      && (r.Err? || known ==> after == before)
      && (r.Ok? && !known ==> r.value == newId && after.Keys == before.Keys + {newId})
      && (r.Ok? && !known ==> after[newId] == Thread(me, other) || after[newId] == Thread(other, me))
      && (r == Err(BadRequest) <==> me == other)
  {
  }

  predicate StoredBy(c: Call, t: Thread) {
    c.me != c.other && c.other in c.users && (t == Thread(c.me, c.other) || t == Thread(c.other, c.me))
  }

  /** Every thread stored in the course of a history joins two different users, one of whom
      asked for it while the other existed. */
  lemma {:induction false} NewThreadsAreProper(tables: seq<map<ThreadId, Thread>>, calls: seq<Call>, n: nat, id: ThreadId)
    requires History(tables, calls) && n < |tables| && id in tables[n] && id !in tables[0]
    ensures exists k: nat :: k < n && StoredBy(calls[k], tables[n][id])
    decreases n
  {
    var k := n - 1;
    assert Outcome(calls[k].users, tables[k], tables[k + 1], calls[k].me, calls[k].other, calls[k].newId, calls[k].r);
    if id in tables[k] {
      NewThreadsAreProper(tables, calls, k, id);
    } else {
      assert StoredBy(calls[k], tables[n][id]);
    }
  }
}
