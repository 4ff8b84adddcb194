/** The batched like/comment counters as a transition system.

    A handler changes a like or comment row in one writer job and sends the counter delta
    later, as a separate message. The writer coalesces deltas per counter and applies them
    with a clamp at zero whenever it flushes. Everything between two awaits may interleave,
    so a run is an arbitrary sequence of events. */
module Counters {
  import opened Common

  type Id = int

  const MAX_PENDING_DELTAS := 500

  datatype Column = LikeCount | CommentCount

  /** One counter: a column of one row of `posts`. */
  datatype Key = Key(column: Column, post: Id)

  /** What a counter counts: a like row, or a comment that is not deleted. */
  datatype Cell = LikeOf(user: Id, post: Id) | CommentOf(comment: Id, post: Id)

  function KeyOf(c: Cell): Key {
    Key(if c.LikeOf? then LikeCount else CommentCount, c.post)
  }

  datatype PostRow = PostRow(author: Id, deleted: bool)
  datatype CommentRow = CommentRow(post: Id, author: Id, deleted: bool)

  /** The tables; `counts` holds the two counter columns of `posts`. */
  datatype Db = Db(
    posts: map<Id, PostRow>,
    likes: set<Cell>,
    comments: map<Id, CommentRow>,
    counts: map<Key, int>)

  datatype Job =
    | CreatePost(post: Id, me: Id)
    | SoftDeletePost(me: Id, post: Id)
    | Like(me: Id, post: Id)
    | Unlike(me: Id, post: Id)
    | CreateComment(comment: Id, me: Id, post: Id, parent: Option<Id>)
    | DeleteComment(me: Id, comment: Id)

  /** A counter delta in flight. The writer reads only `KeyOf(cell)` and `amount`;
      the rest of `cell` records which row change the delta belongs to. */
  datatype Delta = Delta(cell: Cell, amount: int)

  datatype Reply = Rejected | Unchanged | Changed(delta: Delta)

  predicate PostVisible(db: Db, post: Id) {
    post in db.posts && !db.posts[post].deleted
  }

  predicate ParentOk(db: Db, post: Id, parent: Option<Id>) {
    parent.Some? ==>
      && parent.value in db.comments
      && db.comments[parent.value].post == post
      && !db.comments[parent.value].deleted
  }

  /** One writer job: the row change and what the waiting handler is told. */
  function ExecJob(db: Db, job: Job): (Db, Reply) {
    match job
    case CreatePost(post, me) =>
      if post in db.posts then (db, Rejected) else
      (db.(posts := db.posts[post := PostRow(me, false)],
           counts := db.counts[Key(LikeCount, post) := 0][Key(CommentCount, post) := 0]),
       Unchanged)
    case SoftDeletePost(me, post) =>
      if !PostVisible(db, post) || db.posts[post].author != me then (db, Rejected) else
      (db.(posts := db.posts[post := PostRow(me, true)]), Unchanged)
    case Like(me, post) =>
      if !PostVisible(db, post) then (db, Rejected) else
      if LikeOf(me, post) in db.likes then (db, Unchanged) else
      (db.(likes := db.likes + {LikeOf(me, post)}), Changed(Delta(LikeOf(me, post), 1)))
    case Unlike(me, post) =>
      if LikeOf(me, post) !in db.likes then (db, Unchanged) else
      (db.(likes := db.likes - {LikeOf(me, post)}), Changed(Delta(LikeOf(me, post), -1)))
    case CreateComment(id, me, post, parent) =>
      if !PostVisible(db, post) || !ParentOk(db, post, parent) || id in db.comments then (db, Rejected) else
      (db.(comments := db.comments[id := CommentRow(post, me, false)]), Changed(Delta(CommentOf(id, post), 1)))
    case DeleteComment(me, id) =>
      if id !in db.comments || db.comments[id].deleted then (db, Rejected) else
      var row := db.comments[id];
      if row.post !in db.posts || (me != row.author && me != db.posts[row.post].author) then (db, Rejected) else
      (db.(comments := db.comments[id := row.(deleted := true)]), Changed(Delta(CommentOf(id, row.post), -1)))
  }

  // ---------- the live rows ----------

  function LiveCells(db: Db): set<Cell> {
    db.likes +
    (set id | id in db.comments && !db.comments[id].deleted :: CommentOf(id, db.comments[id].post))
  }

  function ForKey(cells: set<Cell>, k: Key): set<Cell> {
    set c | c in cells && KeyOf(c) == k
  }

  /** The number of like rows, or of undeleted comments, of a post. */
  function Rows(db: Db, k: Key): nat {
    |ForKey(LiveCells(db), k)|
  }

  ghost predicate ValidDb(db: Db) {
    && (forall c :: c in db.likes ==> c.LikeOf?)
    && (forall c :: c in LiveCells(db) ==> c.post in db.posts)
    && (forall k :: k in db.counts <==> k.post in db.posts)
    && (forall k :: k in db.counts ==> db.counts[k] >= 0)
  }

  predicate IsLive(db: Db, c: Cell) {
    match c
    case LikeOf(_, _) => c in db.likes
    case CommentOf(id, post) => id in db.comments && db.comments[id] == CommentRow(post, db.comments[id].author, false)
  }

  lemma LiveIff(db: Db)
    requires forall c :: c in db.likes ==> c.LikeOf?
    ensures forall c :: c in LiveCells(db) <==> IsLive(db, c)
  {
    forall c ensures c in LiveCells(db) <==> IsLive(db, c) {
      if c.CommentOf? && IsLive(db, c) {
        assert c == CommentOf(c.comment, db.comments[c.comment].post);
      }
    }
  }

  /** A job flips at most the one cell it reports, in the direction it reports, and
      leaves every existing counter alone. */
  lemma JobEffect(db: Db, job: Job)
    requires ValidDb(db)
    ensures var (db', reply) := ExecJob(db, job);
      && ValidDb(db')
      && (forall k :: k in db.counts ==> k in db'.counts && db'.counts[k] == db.counts[k])
      && (forall k :: k in db'.counts && k !in db.counts ==> db'.counts[k] == 0 && Rows(db', k) == 0)
      && (reply.Changed? ==>
            var Delta(c, d) := reply.delta;
            && c.post in db.posts
            && (d == 1 || d == -1)
            && (d == 1 ==> c !in LiveCells(db) && LiveCells(db') == LiveCells(db) + {c})
            && (d == -1 ==> c in LiveCells(db) && LiveCells(db') == LiveCells(db) - {c}))
      && (!reply.Changed? ==> LiveCells(db') == LiveCells(db))
  {
    var (db', reply) := ExecJob(db, job);
    LiveIff(db);
    if job.CreatePost? && !reply.Rejected? {
      forall k ensures k in db'.counts <==> k.post in db'.posts {
        match k.column { case LikeCount => case CommentCount => }
      }
      forall k | k in db'.counts && k !in db.counts ensures db'.counts[k] == 0 && Rows(db', k) == 0 {
        assert ForKey(LiveCells(db'), k) == {};
      }
    } else if reply.Changed? {
      var Delta(c, d) := reply.delta;
      assert c.post in db.posts;
      forall x ensures IsLive(db', x) <==> if x == c then d == 1 else IsLive(db, x) {}
      LiveIff(db');
      assert d == 1 ==> LiveCells(db') == LiveCells(db) + {c};
      assert d == -1 ==> LiveCells(db') == LiveCells(db) - {c};
    }
  }

  // ---------- the running system ----------

  datatype Msg = JobMsg(job: Job) | DeltaMsg(delta: Delta) | FlushMsg

  /** `inbox` is the writer's channel, `batch` its delta map, and `owed` the handlers that
      were told of a row change and have not sent its delta yet, in the order their jobs ran. */
  datatype Sys = Sys(db: Db, batch: map<Key, int>, inbox: seq<Msg>, owed: seq<Delta>)

  /** Request: a handler starts and posts its job. Recv: the writer takes one message.
      Resume(i): the i-th owing handler sends its delta. Tick: the flush timer fires. */
  datatype Event = Request(job: Job) | FlushNow | Recv | Resume(i: nat) | Tick

  function Batched(batch: map<Key, int>, k: Key): int {
    if k in batch then batch[k] else 0
  }

  /** The flush transaction: a zero delta and a row that is gone change nothing. */
  function FlushCounts(counts: map<Key, int>, batch: map<Key, int>): map<Key, int> {
    map k | k in counts :: if Batched(batch, k) == 0 then counts[k] else Clamp(counts[k] + Batched(batch, k))
  }

  function Clamp(n: int): int { if n < 0 then 0 else n }

  function Flush(s: Sys): Sys {
    s.(db := s.db.(counts := FlushCounts(s.db.counts, s.batch)), batch := map[])
  }

  function Coalesce(s: Sys, d: Delta): Sys {
    s.(batch := s.batch[KeyOf(d.cell) := Batched(s.batch, KeyOf(d.cell)) + d.amount])
  }

  function Receive(s: Sys): Sys {
    if s.inbox == [] then s else
    var s1 := s.(inbox := s.inbox[1..]);
    match s.inbox[0]
    case JobMsg(job) =>
      var (db, reply) := ExecJob(s.db, job);
      s1.(db := db, owed := if reply.Changed? then s.owed + [reply.delta] else s.owed)
    case DeltaMsg(d) =>
      var s2 := Coalesce(s1, d);
      if |s2.batch| >= MAX_PENDING_DELTAS then Flush(s2) else s2
    case FlushMsg => Flush(s1)
  }

  function Step(s: Sys, e: Event): Sys {
    match e
    case Request(job) => s.(inbox := s.inbox + [JobMsg(job)])
    case FlushNow => s.(inbox := s.inbox + [FlushMsg])
    case Recv => Receive(s)
    case Resume(i) =>
      if i >= |s.owed| then s else
      s.(inbox := s.inbox + [DeltaMsg(s.owed[i])], owed := RemoveAt(s.owed, i))
    case Tick => Flush(s)
  }

  function Run(s: Sys, es: seq<Event>): Sys
    decreases |es|
  {
    if es == [] then s else Run(Step(s, es[0]), es[1..])
  }

  /** A writer that has just started: nothing in flight and every counter exact. */
  ghost predicate Settled(s: Sys) {
    && ValidDb(s.db)
    && s.batch == map[] && s.inbox == [] && s.owed == []
    && forall k :: k in s.db.counts ==> s.db.counts[k] == Rows(s.db, k)
  }

  // ---------- deltas in flight ----------

  function Deltas(inbox: seq<Msg>): seq<Delta> {
    if inbox == [] then []
    else if inbox[0].DeltaMsg? then [inbox[0].delta] + Deltas(inbox[1..])
    else Deltas(inbox[1..])
  }

  function Sum(ds: seq<Delta>, k: Key): int {
    if ds == [] then 0
    else (if KeyOf(ds[0].cell) == k then ds[0].amount else 0) + Sum(ds[1..], k)
  }

  lemma {:induction false} DeltasConcat(a: seq<Msg>, b: seq<Msg>)
    ensures Deltas(a + b) == Deltas(a) + Deltas(b)
  {
    if a == [] {
      assert a + b == b;
    } else {
      var head := if a[0].DeltaMsg? then [a[0].delta] else [];
      DeltasConcat(a[1..], b);
      assert (a + b)[0] == a[0] && (a + b)[1..] == a[1..] + b;
      assert head + (Deltas(a[1..]) + Deltas(b)) == head + Deltas(a[1..]) + Deltas(b);
    }
  }

  /** The deltas for `k` that the writer has not taken yet. */
  function InFlight(s: Sys, k: Key): int {
    Sum(Deltas(s.inbox), k) + Sum(s.owed, k)
  }

  lemma {:induction false} SumConcat(a: seq<Delta>, b: seq<Delta>, k: Key)
    ensures Sum(a + b, k) == Sum(a, k) + Sum(b, k)
  {
    if a == [] {
      assert a + b == b;
    } else {
      SumConcat(a[1..], b, k);
      assert (a + b)[1..] == a[1..] + b;
    }
  }

  // ---------- drift: what the counter will show minus what it should ----------

  /** The stored count; a counter whose post does not exist counts as zero. */
  function Stored(db: Db, k: Key): int {
    if k in db.counts then db.counts[k] else 0
  }

  /** Stored count plus every delta still on its way, minus the rows that exist. */
  function Drift(s: Sys, k: Key): int {
    Stored(s.db, k) + Batched(s.batch, k) + InFlight(s, k) - Rows(s.db, k)
  }

  /** The writer state a flush in this step starts from, if the step flushes. */
  function FlushPoint(s: Sys, e: Event): Option<Sys> {
    match e
    case Tick => Some(s)
    case Recv =>
      if s.inbox == [] then None else
      (match s.inbox[0]
       case FlushMsg => Some(s)
       case DeltaMsg(d) => if |Coalesce(s, d).batch| >= MAX_PENDING_DELTAS then Some(Coalesce(s, d)) else None
       case JobMsg(_) => None)
    case _ => None
  }

  /** How far below zero this step's flush would have taken counter `k`. */
  function Lost(s: Sys, e: Event, k: Key): nat {
    match FlushPoint(s, e)
    case None => 0
    case Some(f) => if k in f.db.counts && f.db.counts[k] + Batched(f.batch, k) < 0
                    then -(f.db.counts[k] + Batched(f.batch, k)) else 0
  }

  ghost predicate Valid(s: Sys) {
    && ValidDb(s.db)
    && (forall d :: d in Deltas(s.inbox) ==> d.cell.post in s.db.posts)
    && (forall d :: d in s.owed ==> d.cell.post in s.db.posts)
    && (forall k :: k in s.batch ==> k in s.db.counts)
  }

  lemma RowsAfter(db: Db, db': Db, c: Cell, k: Key)
    requires LiveCells(db') == LiveCells(db) + {c} && c !in LiveCells(db)
    ensures Rows(db', k) == Rows(db, k) + if KeyOf(c) == k then 1 else 0
  {
    var m := ForKey(LiveCells(db), k);
    assert ForKey(LiveCells(db'), k) == if KeyOf(c) == k then m + {c} else m;
  }

  lemma InboxAfterSend(inbox: seq<Msg>, m: Msg)
    ensures Deltas(inbox + [m]) == if m.DeltaMsg? then Deltas(inbox) + [m.delta] else Deltas(inbox)
  {
    DeltasConcat(inbox, [m]);
  }

  lemma InboxAfterRecv(inbox: seq<Msg>)
    requires inbox != []
    ensures Deltas(inbox) == if inbox[0].DeltaMsg? then [inbox[0].delta] + Deltas(inbox[1..]) else Deltas(inbox[1..])
  {
  }

  lemma SumRemoveAt(ds: seq<Delta>, i: nat, k: Key)
    requires i < |ds|
    ensures Sum(RemoveAt(ds, i), k) + Sum([ds[i]], k) == Sum(ds, k)
  {
    SumConcat(ds[..i], ds[i + 1..], k);
    SumConcat([ds[i]], ds[i + 1..], k);
    SumConcat(ds[..i], [ds[i]] + ds[i + 1..], k);
    assert ds == ds[..i] + ([ds[i]] + ds[i + 1..]);
  }

  lemma JobKeepsPosts(db: Db, job: Job)
    ensures forall p :: p in db.posts ==> p in ExecJob(db, job).0.posts
  {
  }

  lemma FlushValid(s: Sys)
    requires Valid(s)
    ensures Valid(Flush(s)) && Flush(s).db.counts.Keys == s.db.counts.Keys
  {
    assert LiveCells(Flush(s).db) == LiveCells(s.db);
  }

  lemma ReceiveJobValid(s: Sys)
    requires Valid(s) && s.inbox != [] && s.inbox[0].JobMsg?
    ensures Valid(Receive(s))
    ensures forall k :: k in s.db.counts ==> k in Receive(s).db.counts
  {
    InboxAfterRecv(s.inbox);
    JobEffect(s.db, s.inbox[0].job);
    JobKeepsPosts(s.db, s.inbox[0].job);
  }

  lemma ReceiveValid(s: Sys)
    requires Valid(s) && s.inbox != []
    ensures Valid(Receive(s))
    ensures forall k :: k in s.db.counts ==> k in Receive(s).db.counts
  {
    InboxAfterRecv(s.inbox);
    match s.inbox[0] {
      case JobMsg(_) => ReceiveJobValid(s);
      case DeltaMsg(d) =>
        assert d in Deltas(s.inbox);
        FlushValid(Coalesce(s.(inbox := s.inbox[1..]), d));
      case FlushMsg => FlushValid(s.(inbox := s.inbox[1..]));
    }
  }

  lemma StepValid(s: Sys, e: Event)
    requires Valid(s)
    ensures Valid(Step(s, e))
    ensures forall k :: k in s.db.counts ==> k in Step(s, e).db.counts
  {
    match e {
      case Recv => if s.inbox != [] { ReceiveValid(s); }
      case Resume(i) => if i < |s.owed| { InboxAfterSend(s.inbox, DeltaMsg(s.owed[i])); }
      case Request(job) => InboxAfterSend(s.inbox, JobMsg(job));
      case FlushNow => InboxAfterSend(s.inbox, FlushMsg);
      case Tick => FlushValid(s);
    }
  }

  lemma FlushDrift(s: Sys, k: Key)
    requires Valid(s)
    ensures Drift(Flush(s), k) == Drift(s, k) + Lost(s, Tick, k)
  {
    assert LiveCells(Flush(s).db) == LiveCells(s.db);
  }

  lemma JobDrift(s: Sys, k: Key)
    requires Valid(s) && s.inbox != [] && s.inbox[0].JobMsg?
    ensures Drift(Receive(s), k) == Drift(s, k)
  {
    var s' := Receive(s);
    var reply := ExecJob(s.db, s.inbox[0].job).1;
    JobEffect(s.db, s.inbox[0].job);
    InboxAfterRecv(s.inbox);
    if reply.Changed? {
      SumConcat(s.owed, [reply.delta], k);
      if reply.delta.amount == 1 {
        RowsAfter(s.db, s'.db, reply.delta.cell, k);
      } else {
        assert LiveCells(s.db) == LiveCells(s'.db) + {reply.delta.cell};
        RowsAfter(s'.db, s.db, reply.delta.cell, k);
      }
    }
  }

  /** Taking a delta off the channel and into the batch changes no drift. */
  lemma CoalesceDrift(s: Sys, k: Key)
    requires Valid(s) && s.inbox != [] && s.inbox[0].DeltaMsg?
    ensures var c := Coalesce(s.(inbox := s.inbox[1..]), s.inbox[0].delta); Valid(c) && Drift(c, k) == Drift(s, k)
  {
    var d := s.inbox[0].delta;
    InboxAfterRecv(s.inbox);
    SumConcat([d], Deltas(s.inbox[1..]), k);
    assert d in Deltas(s.inbox);
  }

  lemma DeltaDrift(s: Sys, k: Key)
    requires Valid(s) && s.inbox != [] && s.inbox[0].DeltaMsg?
    ensures Drift(Receive(s), k) == Drift(s, k) + Lost(s, Recv, k)
  {
    var c := Coalesce(s.(inbox := s.inbox[1..]), s.inbox[0].delta);
    CoalesceDrift(s, k);
    if |c.batch| >= MAX_PENDING_DELTAS {
      FlushDrift(c, k);
    }
  }

  lemma ReceiveDrift(s: Sys, k: Key)
    requires Valid(s)
    ensures Drift(Receive(s), k) == Drift(s, k) + Lost(s, Recv, k)
  {
    if s.inbox != [] {
      match s.inbox[0] {
        case JobMsg(_) => JobDrift(s, k);
        case DeltaMsg(_) => DeltaDrift(s, k);
        case FlushMsg =>
          InboxAfterRecv(s.inbox);
          FlushDrift(s.(inbox := s.inbox[1..]), k);
      }
    }
  }

  lemma ResumeDrift(s: Sys, i: nat, k: Key)
    requires Valid(s) && i < |s.owed|
    ensures Drift(Step(s, Resume(i)), k) == Drift(s, k)
  {
    InboxAfterSend(s.inbox, DeltaMsg(s.owed[i]));
    SumConcat(Deltas(s.inbox), [s.owed[i]], k);
    SumRemoveAt(s.owed, i, k);
  }

  /** One step of any run, the creation of a post included: the drift of every counter grows
      by exactly what a clamp discards. */
  lemma DriftStep(s: Sys, e: Event, k: Key)
    requires Valid(s)
    ensures Valid(Step(s, e))
    ensures Drift(Step(s, e), k) == Drift(s, k) + Lost(s, e, k)
  {
    StepValid(s, e);
    match e {
      case Recv => ReceiveDrift(s, k);
      case Resume(i) => if i < |s.owed| { ResumeDrift(s, i, k); }
      case Tick => FlushDrift(s, k);
      case Request(job) => InboxAfterSend(s.inbox, JobMsg(job));
      case FlushNow => InboxAfterSend(s.inbox, FlushMsg);
    }
  }

  function TotalLost(s: Sys, es: seq<Event>, k: Key): nat
    decreases |es|
  {
    if es == [] then 0 else Lost(s, es[0], k) + TotalLost(Step(s, es[0]), es[1..], k)
  }

  lemma {:induction false} DriftRun(s: Sys, es: seq<Event>, k: Key)
    requires Valid(s)
    ensures Valid(Run(s, es))
    ensures Drift(Run(s, es), k) == Drift(s, k) + TotalLost(s, es, k)
    decreases |es|
  {
    if es != [] {
      DriftStep(s, es[0], k);
      DriftRun(Step(s, es[0]), es[1..], k);
    }
  }

  lemma SettledHasNoDrift(s: Sys, k: Key)
    requires Settled(s)
    ensures Valid(s) && Drift(s, k) == 0
  {
    if k !in s.db.counts { assert ForKey(LiveCells(s.db), k) == {}; }
  }

  /** With no assumption on ordering: a counter, of a post that was there before or was created
      on the way, never falls short of its rows once everything in flight is added, and
      exceeds them by exactly what the clamps discarded. */
  lemma DriftIsWhatClampsDiscard(s: Sys, es: seq<Event>, k: Key)
    requires Settled(s)
    ensures Drift(Run(s, es), k) == TotalLost(s, es, k) >= 0
    ensures k in Run(s, es).db.counts ==> var t := Run(s, es);
      t.db.counts[k] + Batched(t.batch, k) + InFlight(t, k) == Rows(t.db, k) + TotalLost(s, es, k)
    ensures Drift(Run(s, es), k) == 0 <==> forall n :: 0 <= n < |es| ==> Lost(Run(s, es[..n]), es[n], k) == 0
  {
    SettledHasNoDrift(s, k);
    DriftRun(s, es, k);
    TotalLostZero(s, es, k);
  }

  lemma {:induction false} TotalLostZero(s: Sys, es: seq<Event>, k: Key)
    ensures TotalLost(s, es, k) == 0 <==> forall n :: 0 <= n < |es| ==> Lost(Run(s, es[..n]), es[n], k) == 0
    decreases |es|
  {
    if es != [] {
      var s1, rest := Step(s, es[0]), es[1..];
      TotalLostZero(s1, rest, k);
      assert Run(s, es[..0]) == s;
      forall n | 0 <= n < |rest| ensures Run(s1, rest[..n]) == Run(s, es[..n + 1]) && rest[n] == es[n + 1] {
        assert es[..n + 1][1..] == rest[..n];
      }
      if forall n :: 0 <= n < |es| ==> Lost(Run(s, es[..n]), es[n], k) == 0 {
        forall n | 0 <= n < |rest| ensures Lost(Run(s1, rest[..n]), rest[n], k) == 0 {
          assert Lost(Run(s, es[..n + 1]), es[n + 1], k) == 0;
        }
      }
      if TotalLost(s, es, k) == 0 {
        forall n | 0 <= n < |es| ensures Lost(Run(s, es[..n]), es[n], k) == 0 {
          if n > 0 { assert Lost(Run(s1, rest[..n - 1]), rest[n - 1], k) == 0; }
        }
      }
    }
  }
}
