/** The writer actor and the handlers' jobs as the code runs them: state updated in place,
    one message at a time, with the batch flushed in whatever order its map yields. */
module CounterWriter {
  import opened Common
  import opened Counters

  class Writer {
    var posts: map<Id, PostRow>
    var likes: set<Cell>
    var comments: map<Id, CommentRow>
    var counts: map<Key, int>
    var deltas: map<Key, int>
    var inbox: seq<Msg>
    var owed: seq<Delta>

    function View(): Sys
      reads this
    {
      Sys(Db(posts, likes, comments, counts), deltas, inbox, owed)
    }

    constructor (db: Db)
      ensures View() == Sys(db, map[], [], [])
    {
      posts, likes, comments, counts := db.posts, db.likes, db.comments, db.counts;
      deltas, inbox, owed := map[], [], [];
    }

    /** Applies the batch counter by counter, in an arbitrary order. */
    method FlushBatch()
      modifies this
      ensures View() == Flush(old(View()))
    {
      var left := deltas.Keys;
      while left != {}
        invariant left <= deltas.Keys
        invariant posts == old(posts) && likes == old(likes) && comments == old(comments)
        invariant deltas == old(deltas) && inbox == old(inbox) && owed == old(owed)
        invariant counts.Keys == old(counts).Keys
        invariant forall k :: k in counts ==>
          counts[k] == if k in left then old(counts)[k] else FlushCounts(old(counts), deltas)[k]
        decreases |left|
      {
        var k :| k in left;
        left := left - {k};
        if deltas[k] != 0 && k in counts {
          counts := counts[k := if counts[k] + deltas[k] < 0 then 0 else counts[k] + deltas[k]];
        }
      }
      deltas := map[];
    }

    method RunLike(me: Id, post: Id) returns (reply: Reply)
      modifies this`likes
      ensures (View().db, reply) == ExecJob(old(View()).db, Like(me, post))
    {
      if post !in posts || posts[post].deleted {
        return Rejected;
      }
      var before := |likes|;
      likes := likes + {LikeOf(me, post)};
      reply := if |likes| > before then Changed(Delta(LikeOf(me, post), 1)) else Unchanged;
      assert LikeOf(me, post) in old(likes) ==> likes == old(likes);
    }

    method RunUnlike(me: Id, post: Id) returns (reply: Reply)
      modifies this`likes
      ensures (View().db, reply) == ExecJob(old(View()).db, Unlike(me, post))
    {
      var before := |likes|;
      likes := likes - {LikeOf(me, post)};
      reply := if |likes| < before then Changed(Delta(LikeOf(me, post), -1)) else Unchanged;
      assert LikeOf(me, post) !in old(likes) ==> likes == old(likes);
    }

    method RunCreateComment(id: Id, me: Id, post: Id, parent: Option<Id>) returns (reply: Reply)
      modifies this`comments
      ensures (View().db, reply) == ExecJob(old(View()).db, CreateComment(id, me, post, parent))
    {
      if post !in posts || posts[post].deleted {
        return Rejected;
      }
      if parent.Some? {
        var p := parent.value;
        if p !in comments || comments[p].post != post || comments[p].deleted {
          return Rejected;
        }
      }
      if id in comments {
        return Rejected;
      }
      comments := comments[id := CommentRow(post, me, false)];
      reply := Changed(Delta(CommentOf(id, post), 1));
    }

    method RunDeleteComment(me: Id, id: Id) returns (reply: Reply)
      modifies this`comments
      ensures (View().db, reply) == ExecJob(old(View()).db, DeleteComment(me, id))
    {
      if id !in comments || comments[id].deleted {
        return Rejected;
      }
      var row := comments[id];
      if row.post !in posts {
        return Rejected;
      }
      if me != row.author && me != posts[row.post].author {
        return Rejected;
      }
      comments := comments[id := row.(deleted := true)];
      reply := Changed(Delta(CommentOf(id, row.post), -1));
    }

    method RunJob(job: Job) returns (reply: Reply)
      modifies this`posts, this`likes, this`comments, this`counts
      ensures (View().db, reply) == ExecJob(old(View()).db, job)
    {
      match job {
        case CreatePost(post, me) =>
          if post in posts { return Rejected; }
          posts := posts[post := PostRow(me, false)];
          counts := counts[Key(LikeCount, post) := 0][Key(CommentCount, post) := 0];
          reply := Unchanged;
        case SoftDeletePost(me, post) =>
          if post !in posts || posts[post].deleted || posts[post].author != me { return Rejected; }
          posts := posts[post := posts[post].(deleted := true)];
          reply := Unchanged;
        case Like(me, post) => reply := RunLike(me, post);
        case Unlike(me, post) => reply := RunUnlike(me, post);
        case CreateComment(id, me, post, parent) => reply := RunCreateComment(id, me, post, parent);
        case DeleteComment(me, id) => reply := RunDeleteComment(me, id);
      }
    }

    /** One turn of the actor loop on the channel side. */
    method ReceiveOne()
      modifies this
      ensures View() == Receive(old(View()))
    {
      if inbox == [] { return; }
      var msg := inbox[0];
      inbox := inbox[1..];
      match msg {
        case JobMsg(job) =>
          var reply := RunJob(job);
          if reply.Changed? { owed := owed + [reply.delta]; }
        case DeltaMsg(d) =>
          var k := KeyOf(d.cell);
          deltas := deltas[k := (if k in deltas then deltas[k] else 0) + d.amount];
          if |deltas| >= MAX_PENDING_DELTAS { FlushBatch(); }
        case FlushMsg =>
          FlushBatch();
      }
    }

    /** A waiting handler sends the delta it owes. */
    method AddDelta(i: nat)
      requires i < |owed|
      modifies this
      ensures View() == Step(old(View()), Resume(i))
    {
      inbox := inbox + [DeltaMsg(owed[i])];
      owed := owed[..i] + owed[i + 1..];
    }

    /** Any schedule of requests, resumed handlers, channel turns and timer ticks. */
    method Serve(schedule: seq<Event>)
      modifies this
      ensures View() == Run(old(View()), schedule)
    {
      var n := 0;
      assert schedule[0..] == schedule;
      while n < |schedule|
        invariant n <= |schedule|
        invariant Run(View(), schedule[n..]) == Run(old(View()), schedule)
      {
        assert schedule[n..][1..] == schedule[n + 1..];
        match schedule[n] {
          case Request(job) => inbox := inbox + [JobMsg(job)];
          case FlushNow => inbox := inbox + [FlushMsg];
          case Recv => ReceiveOne();
          case Resume(i) => if i < |owed| { AddDelta(i); }
          case Tick => FlushBatch();
        }
        n := n + 1;
      }
    }
  }
}
