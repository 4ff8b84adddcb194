/** Who may change which row: what decides the reply of each job, and over runs, whose request
    made a like or a comment appear or disappear. Also when the writer flushes unasked. */
module CounterRules {
  import opened Common
  import opened Counters

  // ---------- one job ----------

  /** A like is stored exactly for a visible post that the user does not like yet; it is an
      error exactly for a post that is missing or deleted. */
  lemma LikeRule(db: Db, me: Id, post: Id)
    ensures var (db', reply) := ExecJob(db, Like(me, post));
      && (reply.Changed? <==> post in db.posts && !db.posts[post].deleted && LikeOf(me, post) !in db.likes)
      && (reply.Rejected? <==> post !in db.posts || db.posts[post].deleted)
      && (reply.Changed? ==> reply.delta == Delta(LikeOf(me, post), 1))
      && db' == db.(likes := if reply.Changed? then db.likes + {LikeOf(me, post)} else db.likes)
  {
  }

  /** Taking back a like never fails, not even on a deleted post. */
  lemma UnlikeRule(db: Db, me: Id, post: Id)
    ensures var (db', reply) := ExecJob(db, Unlike(me, post));
      && (reply.Changed? <==> LikeOf(me, post) in db.likes) && !reply.Rejected?
      && (reply.Changed? ==> reply.delta == Delta(LikeOf(me, post), -1))
      && db' == db.(likes := db.likes - {LikeOf(me, post)})
  {
    if LikeOf(me, post) !in db.likes { assert db.likes - {LikeOf(me, post)} == db.likes; }
  }

  /** A comment is stored exactly under a new id, on a visible post, answering nothing or a
      live comment on that same post; otherwise it is an error. */
  lemma CommentRule(db: Db, id: Id, me: Id, post: Id, parent: Option<Id>)
    ensures var (db', reply) := ExecJob(db, CreateComment(id, me, post, parent));
      && (reply.Changed? <==>
            && post in db.posts && !db.posts[post].deleted && id !in db.comments
            && (parent.None? || (parent.value in db.comments && db.comments[parent.value].post == post
                                 && !db.comments[parent.value].deleted)))
      && (reply.Changed? || reply.Rejected?)
      && (reply.Changed? ==> reply.delta == Delta(CommentOf(id, post), 1))
      && db' == db.(comments := if reply.Changed? then db.comments[id := CommentRow(post, me, false)] else db.comments)
  {
  }

  /** The user may delete the comment: as its author, or as the author of its post. */
  predicate MayDelete(db: Db, me: Id, id: Id) {
    && id in db.comments && db.comments[id].post in db.posts
    && (me == db.comments[id].author || me == db.posts[db.comments[id].post].author)
  }

  /** A comment is deleted exactly when it is live and the user is its author or the author of
      its post; nothing else of it, and no other comment, changes. */
  lemma DeleteRule(db: Db, me: Id, id: Id)
    requires ValidDb(db)
    ensures var (db', reply) := ExecJob(db, DeleteComment(me, id));
      && (reply.Changed? <==>
            && id in db.comments && !db.comments[id].deleted && db.comments[id].post in db.posts
            && (me == db.comments[id].author || me == db.posts[db.comments[id].post].author))
      && (reply.Changed? || reply.Rejected?)
      && (reply.Changed? ==> reply.delta == Delta(CommentOf(id, db.comments[id].post), -1))
      && (reply.Changed? ==> db' == db.(comments := db.comments[id := CommentRow(db.comments[id].post, db.comments[id].author, true)]))
      && (reply.Rejected? ==> db' == db)
  {
    LiveCommentHasPost(db, id);
  }

  lemma LiveCommentHasPost(db: Db, id: Id)
    requires ValidDb(db)
    ensures id in db.comments && !db.comments[id].deleted ==> db.comments[id].post in db.posts
  {
    if id in db.comments && !db.comments[id].deleted {
      assert CommentOf(id, db.comments[id].post) in LiveCells(db);
    }
  }

  /** A post is created under a new id with both counters at zero, and is deleted exactly by
      its author while visible. */
  lemma PostRule(db: Db, me: Id, post: Id)
    ensures var (db', reply) := ExecJob(db, CreatePost(post, me));
      && (reply.Rejected? <==> post in db.posts) && (reply.Rejected? ==> db' == db)
      && (!reply.Rejected? ==> db' == db.(posts := db.posts[post := PostRow(me, false)],
            counts := db.counts[Key(LikeCount, post) := 0][Key(CommentCount, post) := 0]))
    ensures var (db', reply) := ExecJob(db, SoftDeletePost(me, post));
      && (reply.Rejected? <==> post !in db.posts || db.posts[post].deleted || db.posts[post].author != me)
      && db' == db.(posts := if reply.Rejected? then db.posts else db.posts[post := PostRow(me, true)])
  {
  }

  // ---------- one step ----------

  /** The step is the writer taking this job. */
  predicate Takes(s: Sys, e: Event, job: Job) {
    e.Recv? && s.inbox != [] && s.inbox[0] == JobMsg(job)
  }

  predicate TakesDelete(s: Sys, e: Event, id: Id) {
    e.Recv? && s.inbox != [] && s.inbox[0].JobMsg? && s.inbox[0].job.DeleteComment? && s.inbox[0].job.comment == id
    && MayDelete(s.db, s.inbox[0].job.me, id)
  }

  /** A step that is not a job leaves all rows alone. */
  lemma RowsStay(s: Sys, e: Event)
    requires !(e.Recv? && s.inbox != [] && s.inbox[0].JobMsg?)
    ensures Step(s, e).db.posts == s.db.posts && Step(s, e).db.likes == s.db.likes && Step(s, e).db.comments == s.db.comments
  {
  }

  /** After a step the user likes the post exactly if the step took their own like of a visible
      post, or they liked it before and the step did not take their own unlike. */
  lemma LikesAreOwn(s: Sys, e: Event, u: Id, p: Id)
    ensures LikeOf(u, p) in Step(s, e).db.likes <==>
      || (Takes(s, e, Like(u, p)) && p in s.db.posts && !s.db.posts[p].deleted)
      || (LikeOf(u, p) in s.db.likes && !Takes(s, e, Unlike(u, p)))
  {
    if !(e.Recv? && s.inbox != [] && s.inbox[0].JobMsg?) { RowsStay(s, e); }
  }

  /** A comment keeps its post and author, and a post its author. */
  lemma RowsKeepOwners(s: Sys, e: Event)
    ensures forall id :: id in s.db.comments ==>
      && id in Step(s, e).db.comments
      && Step(s, e).db.comments[id].author == s.db.comments[id].author
      && Step(s, e).db.comments[id].post == s.db.comments[id].post
    ensures forall p :: p in s.db.posts ==> p in Step(s, e).db.posts && Step(s, e).db.posts[p].author == s.db.posts[p].author
  {
    if !(e.Recv? && s.inbox != [] && s.inbox[0].JobMsg?) { RowsStay(s, e); }
  }

  predicate CommentLive(db: Db, id: Id) {
    id in db.comments && !db.comments[id].deleted
  }

  /** A live comment is gone after a step exactly if the step took a delete of it by its author
      or its post's author. */
  lemma CommentGoesIff(s: Sys, e: Event, id: Id)
    requires Valid(s) && CommentLive(s.db, id)
    ensures !CommentLive(Step(s, e).db, id) <==> TakesDelete(s, e, id)
  {
    LiveCommentHasPost(s.db, id);
    if !(e.Recv? && s.inbox != [] && s.inbox[0].JobMsg?) { RowsStay(s, e); }
  }

  // ---------- runs ----------

  /** The n-th step takes a delete of the comment by one of the two users. */
  predicate DeletedBy(s: Sys, es: seq<Event>, n: nat, id: Id, author: Id, host: Id) {
    && n < |es| && es[n].Recv? && Run(s, es[..n]).inbox != []
    && (Run(s, es[..n]).inbox[0] == JobMsg(DeleteComment(author, id)) || Run(s, es[..n]).inbox[0] == JobMsg(DeleteComment(host, id)))
  }

  lemma DeletedLater(s: Sys, es: seq<Event>, n: nat, id: Id, author: Id, host: Id)
    requires es != [] && DeletedBy(Step(s, es[0]), es[1..], n, id, author, host)
    ensures DeletedBy(s, es, n + 1, id, author, host)
  {
    assert es[..n + 1][1..] == es[1..][..n];
  }

  /** Over every run: a comment that was live and is not any more was deleted by its author or
      by the author of its post. */
  lemma {:induction false} GoneCommentWasDeleted(s: Sys, es: seq<Event>, id: Id)
    requires Valid(s) && CommentLive(s.db, id) && !CommentLive(Run(s, es).db, id)
    ensures s.db.comments[id].post in s.db.posts
    ensures exists n: nat :: DeletedBy(s, es, n, id, s.db.comments[id].author, s.db.posts[s.db.comments[id].post].author)
    decreases |es|
  {
    var author := s.db.comments[id].author;
    LiveCommentHasPost(s.db, id);
    var host := s.db.posts[s.db.comments[id].post].author;
    CommentGoesIff(s, es[0], id);
    if TakesDelete(s, es[0], id) {
      assert Run(s, es[..0]) == s;
      assert DeletedBy(s, es, 0, id, author, host);
    } else {
      var s' := Step(s, es[0]);
      StepValid(s, es[0]);
      RowsKeepOwners(s, es[0]);
      GoneCommentWasDeleted(s', es[1..], id);
      var n: nat :| DeletedBy(s', es[1..], n, id, author, host);
      DeletedLater(s, es, n, id, author, host);
    }
  }

  // ---------- the threshold ----------

  /** A delta makes the writer flush at once exactly when its batch then holds five hundred
      distinct counters, however many deltas that is. */
  lemma FlushesAtThreshold(s: Sys)
    requires s.inbox != [] && s.inbox[0].DeltaMsg?
    ensures var all := s.batch.Keys + {KeyOf(s.inbox[0].delta.cell)};
      && (|all| >= 500 ==> Receive(s).batch == map[])
      && (|all| < 500 ==> Receive(s).batch.Keys == all && Receive(s).db == s.db)
  {
    var d := s.inbox[0].delta;
    var c := Coalesce(s.(inbox := s.inbox[1..]), d);
    assert c.batch.Keys == s.batch.Keys + {KeyOf(d.cell)};
    assert |c.batch| == |c.batch.Keys|;
  }

  lemma BatchStep(s: Sys, e: Event)
    requires |s.batch| < 500
    ensures |Step(s, e).batch| < 500
  {
  }

  /** The delta map never holds five hundred counters between steps. */
  lemma {:induction false} BatchStaysSmall(s: Sys, es: seq<Event>)
    requires |s.batch| < 500
    ensures |Run(s, es).batch| < 500
    decreases |es|
  {
    if es != [] {
      BatchStep(s, es[0]);
      BatchStaysSmall(Step(s, es[0]), es[1..]);
    }
  }

  // ---------- what the counters count ----------

  /** The undeleted comments of a post, with their ids. */
  function CommentsOn(db: Db, p: Id): set<(Id, CommentRow)> {
    set item | item in db.comments.Items && item.1.post == p && !item.1.deleted
  }

  /** The like counter of a post is about its like rows, the comment counter about its
      undeleted comments. */
  lemma RowsAre(db: Db, p: Id)
    requires ValidDb(db)
    ensures Rows(db, Key(LikeCount, p)) == |set c | c in db.likes && c.post == p|
    ensures Rows(db, Key(CommentCount, p)) == |set item | item in db.comments.Items && item.1.post == p && !item.1.deleted|
  {
    LiveIff(db);
    assert ForKey(LiveCells(db), Key(LikeCount, p)) == set c | c in db.likes && c.post == p;
    var items, cells := CommentsOn(db, p), ForKey(LiveCells(db), Key(CommentCount, p));
    forall c ensures c in cells <==> c in CellsOf(items, p) {
      if c in cells {
        assert (c.comment, db.comments[c.comment]) in items;
        assert c == CommentOf(c.comment, p);
      }
      if c in CellsOf(items, p) {
        var item :| item in items && c == CommentOf(item.0, p);
        assert IsLive(db, c);
      }
    }
    assert cells == CellsOf(items, p);
    CellsCount(items, p);
  }

  function CellsOf(items: set<(Id, CommentRow)>, p: Id): set<Cell> {
    set item | item in items :: CommentOf(item.0, p)
  }

  lemma {:induction false} CellsCount(items: set<(Id, CommentRow)>, p: Id)
    requires forall x, y :: x in items && y in items && x.0 == y.0 ==> x == y
    ensures |CellsOf(items, p)| == |items|
    decreases |items|
  {
    if item :| item in items {
      CellsCount(items - {item}, p);
      assert CellsOf(items, p) == CellsOf(items - {item}, p) + {CommentOf(item.0, p)};
    } else {
      assert items == {} && CellsOf(items, p) == {};
    }
  }
}
