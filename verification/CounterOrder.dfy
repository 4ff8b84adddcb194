/** When the counters are exact: the deltas of one row reach the writer in the order in
    which the row changes happened. */
module CounterOrder {
  import opened Common
  import opened Counters

  /** The handler that resumes is the oldest one owing a delta for its row. */
  predicate InOrder(s: Sys, e: Event) {
    e.Resume? && e.i < |s.owed| ==> forall j :: 0 <= j < e.i ==> s.owed[j].cell != s.owed[e.i].cell
  }

  predicate Ordered(s: Sys, es: seq<Event>)
    decreases |es|
  {
    es == [] || (InOrder(s, es[0]) && Ordered(Step(s, es[0]), es[1..]))
  }

  // ---------- one row's deltas alternate ----------

  function Proj(ds: seq<Delta>, c: Cell): seq<int> {
    if ds == [] then []
    else if ds[0].cell == c then [ds[0].amount] + Proj(ds[1..], c)
    else Proj(ds[1..], c)
  }

  /** The amounts are +1, -1, ... (starting with -1 if `on`), and end in state `last`. */
  predicate Alternates(on: bool, amounts: seq<int>, last: bool)
    decreases |amounts|
  {
    if amounts == [] then on == last
    else amounts[0] == (if on then -1 else 1) && Alternates(!on, amounts[1..], last)
  }

  lemma {:induction false} AlternatesAppend(on: bool, amounts: seq<int>, last: bool)
    requires Alternates(on, amounts, last)
    ensures Alternates(on, amounts + [if last then -1 else 1], !last)
    decreases |amounts|
  {
    var x := [if last then -1 else 1];
    if amounts == [] {
      assert amounts + x == x;
    } else {
      AlternatesAppend(!on, amounts[1..], last);
      assert (amounts + x)[1..] == amounts[1..] + x;
    }
  }

  lemma {:induction false} ProjConcat(a: seq<Delta>, b: seq<Delta>, c: Cell)
    ensures Proj(a + b, c) == Proj(a, c) + Proj(b, c)
  {
    if a == [] {
      assert a + b == b;
    } else {
      var head := if a[0].cell == c then [a[0].amount] else [];
      ProjConcat(a[1..], b, c);
      assert (a + b)[0] == a[0] && (a + b)[1..] == a[1..] + b;
      assert head + (Proj(a[1..], c) + Proj(b, c)) == head + Proj(a[1..], c) + Proj(b, c);
    }
  }

  lemma {:induction false} ProjNone(ds: seq<Delta>, c: Cell)
    requires forall d :: d in ds ==> d.cell != c
    ensures Proj(ds, c) == []
  {
    if ds != [] { ProjNone(ds[1..], c); }
  }

  /** A row's deltas from the writer's channel onwards, oldest first. */
  function History(s: Sys, c: Cell): seq<int> {
    Proj(Deltas(s.inbox), c) + Proj(s.owed, c)
  }

  /** Removing the oldest delta of its row takes the head off that row's projection. */
  lemma ProjRemoveAt(ds: seq<Delta>, i: nat, c: Cell)
    requires i < |ds| && forall j :: 0 <= j < i ==> ds[j].cell != ds[i].cell
    ensures Proj(ds, c) == (if ds[i].cell == c then [ds[i].amount] else []) + Proj(RemoveAt(ds, i), c)
  {
    var a, x, b := ds[..i], [ds[i]], ds[i + 1..];
    assert ds == a + (x + b);
    ProjConcat(a, x + b, c);
    ProjConcat(x, b, c);
    ProjConcat(a, b, c);
    if ds[i].cell == c { ProjNone(a, c); }
  }

  lemma HistoryAfterResume(s: Sys, i: nat, c: Cell)
    requires i < |s.owed| && InOrder(s, Resume(i))
    ensures History(Step(s, Resume(i)), c) == History(s, c)
  {
    InboxAfterSend(s.inbox, DeltaMsg(s.owed[i]));
    ProjConcat(Deltas(s.inbox), [s.owed[i]], c);
    ProjRemoveAt(s.owed, i, c);
  }

  lemma HistoryAfterJob(s: Sys, c: Cell)
    requires s.inbox != [] && s.inbox[0].JobMsg?
    ensures var reply := ExecJob(s.db, s.inbox[0].job).1;
      History(Receive(s), c) ==
      if reply.Changed? && reply.delta.cell == c then History(s, c) + [reply.delta.amount] else History(s, c)
  {
    var reply := ExecJob(s.db, s.inbox[0].job).1;
    InboxAfterRecv(s.inbox);
    if reply.Changed? { ProjConcat(s.owed, [reply.delta], c); }
  }

  lemma HistoryAfterDelta(s: Sys, c: Cell)
    requires s.inbox != [] && s.inbox[0].DeltaMsg?
    ensures var d := s.inbox[0].delta;
      History(s, c) == (if d.cell == c then [d.amount] else []) + History(s.(inbox := s.inbox[1..]), c)
  {
    InboxAfterRecv(s.inbox);
  }

  // ---------- the invariant ----------

  /** `applied` is the set of rows whose latest delta taken by the writer was +1. */
  ghost predicate Inv(s: Sys, applied: set<Cell>) {
    && Valid(s)
    && (forall c :: Alternates(c in applied, History(s, c), c in LiveCells(s.db)))
    && (forall k :: k in s.db.counts ==> s.db.counts[k] + Batched(s.batch, k) == |ForKey(applied, k)|)
    && (forall c :: c in applied ==> c.post in s.db.posts)
  }

  function Track(s: Sys, applied: set<Cell>, e: Event): set<Cell> {
    if e.Recv? && s.inbox != [] && s.inbox[0].DeltaMsg? then
      if s.inbox[0].delta.amount == 1 then applied + {s.inbox[0].delta.cell} else applied - {s.inbox[0].delta.cell}
    else applied
  }

  lemma FlushInv(s: Sys, applied: set<Cell>)
    requires Inv(s, applied)
    ensures Inv(Flush(s), applied)
  {
    FlushValid(s);
    assert LiveCells(Flush(s).db) == LiveCells(s.db);
    forall c ensures History(Flush(s), c) == History(s, c) {}
  }

  lemma JobInv(s: Sys, applied: set<Cell>)
    requires Inv(s, applied) && s.inbox != [] && s.inbox[0].JobMsg?
    ensures Inv(Receive(s), applied)
  {
    var s' := Receive(s);
    var reply := ExecJob(s.db, s.inbox[0].job).1;
    ReceiveJobValid(s);
    JobEffect(s.db, s.inbox[0].job);
    JobKeepsPosts(s.db, s.inbox[0].job);
    forall c ensures Alternates(c in applied, History(s', c), c in LiveCells(s'.db)) {
      HistoryAfterJob(s, c);
      AlternatesAppend(c in applied, History(s, c), c in LiveCells(s.db));
    }
    forall k | k in s'.db.counts && k !in s.db.counts ensures |ForKey(applied, k)| == 0 {
      assert ForKey(applied, k) == {};
    }
  }

  lemma ForKeyToggle(cells: set<Cell>, x: Cell, k: Key)
    ensures |ForKey(cells + {x}, k)| == |ForKey(cells, k)| + if x !in cells && KeyOf(x) == k then 1 else 0
    ensures |ForKey(cells - {x}, k)| == |ForKey(cells, k)| - if x in cells && KeyOf(x) == k then 1 else 0
  {
    var m := ForKey(cells, k);
    assert ForKey(cells + {x}, k) == if KeyOf(x) == k then m + {x} else m;
    assert ForKey(cells - {x}, k) == if KeyOf(x) == k then m - {x} else m;
  }

  /** The next delta of a row has the sign its applied state calls for. */
  lemma NextDelta(s: Sys, applied: set<Cell>)
    requires Inv(s, applied) && s.inbox != [] && s.inbox[0].DeltaMsg?
    ensures var Delta(x, d) := s.inbox[0].delta;
      x.post in s.db.posts && d == if x in applied then -1 else 1
  {
    var Delta(x, d) := s.inbox[0].delta;
    InboxAfterRecv(s.inbox);
    assert s.inbox[0].delta in Deltas(s.inbox);
    HistoryAfterDelta(s, x);
    assert Alternates(x in applied, History(s, x), x in LiveCells(s.db));
  }

  /** Taking a delta off the channel, before any flush it triggers. */
  lemma CoalesceInv(s: Sys, applied: set<Cell>)
    requires Inv(s, applied) && s.inbox != [] && s.inbox[0].DeltaMsg?
    ensures Inv(Coalesce(s.(inbox := s.inbox[1..]), s.inbox[0].delta), Track(s, applied, Recv))
  {
    var Delta(x, d) := s.inbox[0].delta;
    var c1 := Coalesce(s.(inbox := s.inbox[1..]), s.inbox[0].delta);
    var applied' := Track(s, applied, Recv);
    NextDelta(s, applied);
    InboxAfterRecv(s.inbox);
    forall c ensures Alternates(c in applied', History(c1, c), c in LiveCells(c1.db)) {
      HistoryAfterDelta(s, c);
      assert Alternates(c in applied, History(s, c), c in LiveCells(s.db));
      if c != x { assert History(s, c) == History(c1, c); }
    }
    forall k | k in s.db.counts ensures s.db.counts[k] + Batched(c1.batch, k) == |ForKey(applied', k)| {
      ForKeyToggle(applied, x, k);
    }
  }

  lemma StepInv(s: Sys, applied: set<Cell>, e: Event)
    requires Inv(s, applied) && InOrder(s, e)
    ensures Inv(Step(s, e), Track(s, applied, e))
  {
    match e {
      case Recv =>
        if s.inbox != [] {
          match s.inbox[0] {
            case JobMsg(_) => JobInv(s, applied);
            case DeltaMsg(d) =>
              var c1 := Coalesce(s.(inbox := s.inbox[1..]), d);
              CoalesceInv(s, applied);
              if |c1.batch| >= MAX_PENDING_DELTAS { FlushInv(c1, Track(s, applied, e)); }
            case FlushMsg =>
              InboxAfterRecv(s.inbox);
              var s1 := s.(inbox := s.inbox[1..]);
              forall c ensures History(s1, c) == History(s, c) {}
              FlushInv(s1, applied);
          }
        }
      case Resume(i) =>
        if i < |s.owed| {
          StepValid(s, e);
          forall c ensures History(Step(s, e), c) == History(s, c) { HistoryAfterResume(s, i, c); }
        }
      case Tick => FlushInv(s, applied);
      case Request(job) => InboxAfterSend(s.inbox, JobMsg(job));
      case FlushNow => InboxAfterSend(s.inbox, FlushMsg);
    }
  }

  lemma NoLoss(s: Sys, applied: set<Cell>, e: Event, k: Key)
    requires Inv(s, applied)
    ensures Lost(s, e, k) == 0
  {
    if e.Recv? && s.inbox != [] && s.inbox[0].DeltaMsg? {
      CoalesceInv(s, applied);
    }
  }

  lemma SettledInv(s: Sys)
    requires Settled(s)
    ensures Inv(s, LiveCells(s.db))
  {
    forall c ensures History(s, c) == [] {}
  }

  lemma {:induction false} RunInv(s: Sys, applied: set<Cell>, es: seq<Event>) returns (applied': set<Cell>)
    requires Inv(s, applied) && Ordered(s, es)
    ensures Inv(Run(s, es), applied')
    ensures forall k :: TotalLost(s, es, k) == 0
    decreases |es|
  {
    if es == [] {
      applied' := applied;
    } else {
      StepInv(s, applied, es[0]);
      forall k ensures Lost(s, es[0], k) == 0 { NoLoss(s, applied, es[0], k); }
      applied' := RunInv(Step(s, es[0]), Track(s, applied, es[0]), es[1..]);
    }
  }

  /** No flush of the run takes any counter below zero. */
  ghost predicate NeverClamps(s: Sys, es: seq<Event>) {
    forall n, k :: 0 <= n < |es| ==> Lost(Run(s, es[..n]), es[n], k) == 0
  }

  /** Every counter plus its deltas in flight is exactly the number of its rows. */
  ghost predicate Accounted(s: Sys) {
    forall k :: k in s.db.counts ==> s.db.counts[k] + Batched(s.batch, k) + InFlight(s, k) == Rows(s.db, k)
  }

  /** Under every interleaving that keeps each row's deltas in order, and every placement of
      flushes: no flush clamps any counter, and each counter plus its deltas in flight is
      exactly the number of rows, also for posts created on the way. */
  lemma OrderedRunsNeverClamp(s: Sys, es: seq<Event>)
    requires Settled(s) && Ordered(s, es)
    ensures NeverClamps(s, es) && Accounted(Run(s, es))
  {
    SettledInv(s);
    var _ := RunInv(s, LiveCells(s.db), es);
    forall n, k | 0 <= n < |es| ensures Lost(Run(s, es[..n]), es[n], k) == 0 { TotalLostZero(s, es, k); }
    forall k | k in Run(s, es).db.counts ensures Drift(Run(s, es), k) == 0 { DriftIsWhatClampsDiscard(s, es, k); }
  }

  // ---------- flush_now ----------

  /** No handler owes a delta and no job is waiting: only deltas and flushes are left. */
  predicate Idle(s: Sys) {
    s.owed == [] && forall m :: m in s.inbox ==> !m.JobMsg?
  }

  /** The writer works off its channel; its timer may fire in between. */
  predicate Quiet(es: seq<Event>) {
    forall e :: e in es ==> e.Recv? || e.Tick?
  }

  /** Idle, and the last message of the channel is a flush request or has just been one. */
  predicate Draining(s: Sys) {
    Idle(s) && if s.inbox == [] then s.batch == map[] else s.inbox[|s.inbox| - 1] == FlushMsg
  }

  lemma DrainingStep(s: Sys, e: Event)
    requires Draining(s) && (e.Recv? || e.Tick?)
    ensures Draining(Step(s, e)) && LiveCells(Step(s, e).db) == LiveCells(s.db)
    ensures e.Recv? && s.inbox != [] ==> |Step(s, e).inbox| == |s.inbox| - 1
  {
    if e.Recv? && s.inbox != [] {
      assert s.inbox[0] in s.inbox;
      assert Step(s, e).inbox == s.inbox[1..];
    }
  }

  lemma {:induction false} DrainingRun(s: Sys, es: seq<Event>)
    requires Draining(s) && Quiet(es)
    ensures Ordered(s, es) && Draining(Run(s, es)) && LiveCells(Run(s, es).db) == LiveCells(s.db)
    decreases |es|
  {
    if es != [] {
      assert es[0] in es;
      DrainingStep(s, es[0]);
      DrainingRun(Step(s, es[0]), es[1..]);
    }
  }

  /** The channel is empty after as many turns as it holds messages. */
  lemma {:induction false} Drains(s: Sys)
    requires Draining(s)
    ensures var turns := seq(|s.inbox|, _ => Recv); Quiet(turns) && Run(s, turns).inbox == []
    decreases |s.inbox|
  {
    if s.inbox != [] {
      DrainingStep(s, Recv);
      Drains(Step(s, Recv));
      assert seq(|s.inbox|, _ => Recv)[1..] == seq(|s.inbox| - 1, _ => Recv);
    }
  }

  /** With nothing in flight the counters are the rows. */
  lemma NothingInFlight(s: Sys, applied: set<Cell>)
    requires Inv(s, applied) && Draining(s) && s.inbox == []
    ensures Settled(s)
  {
    forall c ensures c in applied <==> c in LiveCells(s.db) {
      assert Alternates(c in applied, History(s, c), c in LiveCells(s.db));
    }
    assert applied == LiveCells(s.db);
  }

  /** Once the handlers are idle and the `flush_now` they issue has been answered, every
      counter shows exactly the number of rows and nothing is in flight; and it is answered
      once the writer has worked off its channel. */
  lemma FlushNowSettles(s: Sys, es: seq<Event>, quiet: seq<Event>)
    requires Settled(s) && Ordered(s, es) && Idle(Run(s, es)) && Quiet(quiet)
    ensures var idle := Run(s, es);
      var acked := Run(Step(idle, FlushNow), quiet);
      acked.inbox == [] ==> Settled(acked) && LiveCells(acked.db) == LiveCells(idle.db)
    ensures var asked := Step(Run(s, es), FlushNow);
      var turns := seq(|asked.inbox|, _ => Recv);
      Quiet(turns) && Run(asked, turns).inbox == []
  {
    SettledInv(s);
    var applied := RunInv(s, LiveCells(s.db), es);
    var idle := Run(s, es);
    var asked := Step(idle, FlushNow);
    StepInv(idle, applied, FlushNow);
    Drains(asked);
    DrainingRun(asked, quiet);
    var applied' := RunInv(asked, applied, quiet);
    if Run(asked, quiet).inbox == [] { NothingInFlight(Run(asked, quiet), applied'); }
  }

  // ---------- what keeps a run in order ----------

  function Target(job: Job): Option<Cell> {
    match job
    case Like(me, post) => Some(LikeOf(me, post))
    case Unlike(me, post) => Some(LikeOf(me, post))
    case _ => None
  }

  /** Like and unlike requests on `c` that have not sent their delta (or found none to send). */
  function Active(s: Sys, c: Cell): nat {
    JobsFor(s.inbox, c) + |Proj(s.owed, c)|
  }

  function JobsFor(inbox: seq<Msg>, c: Cell): nat {
    if inbox == [] then 0
    else (if inbox[0].JobMsg? && Target(inbox[0].job) == Some(c) then 1 else 0) + JobsFor(inbox[1..], c)
  }

  /** Each user's like and unlike requests on one post are sequential, and a comment's
      handlers send their deltas in the order of their jobs (so +1 before -1). */
  predicate Disciplined(s: Sys, es: seq<Event>)
    decreases |es|
  {
    es == [] ||
    (&& (es[0].Request? && Target(es[0].job).Some? ==> Active(s, Target(es[0].job).value) == 0)
     && (es[0].Resume? && es[0].i < |s.owed| && s.owed[es[0].i].cell.CommentOf? ==> InOrder(s, es[0]))
     && Disciplined(Step(s, es[0]), es[1..]))
  }

  ghost predicate OneActive(s: Sys) {
    forall c: Cell :: c.LikeOf? ==> Active(s, c) <= 1
  }

  lemma {:induction false} JobsForConcat(a: seq<Msg>, b: seq<Msg>, c: Cell)
    ensures JobsFor(a + b, c) == JobsFor(a, c) + JobsFor(b, c)
  {
    if a == [] {
      assert a + b == b;
    } else {
      JobsForConcat(a[1..], b, c);
      assert (a + b)[1..] == a[1..] + b;
    }
  }

  lemma {:induction false} ProjHas(ds: seq<Delta>, i: nat)
    requires i < |ds|
    ensures |Proj(ds, ds[i].cell)| >= 1
  {
    if i > 0 { ProjHas(ds[1..], i - 1); }
  }

  lemma {:induction false} ProjTwo(ds: seq<Delta>, j: nat, i: nat)
    requires j < i < |ds| && ds[j].cell == ds[i].cell
    ensures |Proj(ds, ds[i].cell)| >= 2
  {
    if j > 0 { ProjTwo(ds[1..], j - 1, i - 1); } else { ProjHas(ds[1..], i - 1); }
  }

  lemma OnlyOneOwed(s: Sys, i: nat)
    requires OneActive(s) && i < |s.owed| && s.owed[i].cell.LikeOf?
    ensures InOrder(s, Resume(i))
  {
    forall j | 0 <= j < i ensures s.owed[j].cell != s.owed[i].cell {
      if s.owed[j].cell == s.owed[i].cell {
        ProjTwo(s.owed, j, i);
        assert false;
      }
    }
  }

  lemma ReplyTarget(db: Db, job: Job)
    ensures var reply := ExecJob(db, job).1;
      reply.Changed? && reply.delta.cell.LikeOf? ==> Target(job) == Some(reply.delta.cell)
  {
  }

  lemma OneActiveStep(s: Sys, e: Event)
    requires OneActive(s)
    requires e.Request? && Target(e.job).Some? ==> Active(s, Target(e.job).value) == 0
    ensures OneActive(Step(s, e))
  {
    forall c: Cell | c.LikeOf? ensures Active(Step(s, e), c) <= 1 {
      assert Active(s, c) <= 1;
      match e {
        case Request(job) => JobsForConcat(s.inbox, [JobMsg(job)], c);
        case FlushNow => JobsForConcat(s.inbox, [FlushMsg], c);
        case Recv =>
          if s.inbox != [] && s.inbox[0].JobMsg? {
            ReplyTarget(s.db, s.inbox[0].job);
            var reply := ExecJob(s.db, s.inbox[0].job).1;
            if reply.Changed? { ProjConcat(s.owed, [reply.delta], c); }
          }
        case Resume(i) =>
          if i < |s.owed| {
            JobsForConcat(s.inbox, [DeltaMsg(s.owed[i])], c);
            var a, x, b := s.owed[..i], [s.owed[i]], s.owed[i + 1..];
            assert s.owed == a + (x + b);
            ProjConcat(a, x + b, c);
            ProjConcat(x, b, c);
            ProjConcat(a, b, c);
          }
        case Tick =>
      }
    }
  }

  lemma {:induction false} DisciplinedRun(s: Sys, es: seq<Event>)
    requires OneActive(s) && Disciplined(s, es)
    ensures Ordered(s, es)
    decreases |es|
  {
    if es != [] {
      if es[0].Resume? && es[0].i < |s.owed| && s.owed[es[0].i].cell.LikeOf? {
        OnlyOneOwed(s, es[0].i);
      }
      OneActiveStep(s, es[0]);
      DisciplinedRun(Step(s, es[0]), es[1..]);
    }
  }

  /** Sequential likes per user and post, and +1 before -1 per comment, are enough: no clamp,
      exact accounting at every moment, and exact counters once idle and flushed. */
  lemma DisciplinedRunsAreExact(s: Sys, es: seq<Event>, quiet: seq<Event>)
    requires Settled(s) && Disciplined(s, es) && Quiet(quiet)
    ensures NeverClamps(s, es) && Accounted(Run(s, es))
    ensures var idle := Run(s, es);
      var acked := Run(Step(idle, FlushNow), quiet);
      Idle(idle) && acked.inbox == [] ==> Settled(acked) && LiveCells(acked.db) == LiveCells(idle.db)
  {
    DisciplinedRun(s, es);
    OrderedRunsNeverClamp(s, es);
    if Idle(Run(s, es)) { FlushNowSettles(s, es, quiet); }
  }

  // ---------- and what happens without it ----------

  /** A like and an unlike by one user that overlap ... */
  function OverlapStart(u: Id, p: Id): seq<Event> {
    [Request(Like(u, p)), Request(Unlike(u, p)), Recv, Recv]
  }

  /** ... with the unlike's delta sent, and flushed, first. */
  function OverlapEnd(): seq<Event> {
    [Resume(1), Recv, Tick, Resume(0), Recv, Tick]
  }

  lemma OverlapStarts(s: Sys, u: Id, p: Id)
    requires Settled(s) && PostVisible(s.db, p) && LikeOf(u, p) !in s.db.likes
    ensures Run(s, OverlapStart(u, p)) == s.(owed := [Delta(LikeOf(u, p), 1), Delta(LikeOf(u, p), -1)])
  {
    var es := OverlapStart(u, p);
    var s1, r1 := Step(s, es[0]), es[1..];
    var s2, r2 := Step(s1, es[1]), r1[1..];
    assert s2 == s.(inbox := [JobMsg(Like(u, p)), JobMsg(Unlike(u, p))]);
    var s3, r3 := Step(s2, Recv), r2[1..];
    assert s3.inbox == [JobMsg(Unlike(u, p))] && s3.owed == [Delta(LikeOf(u, p), 1)];
    var s4, r4 := Step(s3, Recv), r3[1..];
    assert s4.inbox == [] && s4.db.likes == s.db.likes && s4.db == s.db;
    assert Run(s, es) == Run(s1, r1) == Run(s2, r2) == Run(s3, r3) == Run(s4, r4) == s4;
  }

  /** One owed delta sent, taken, and flushed on its own. */
  lemma SendAndTake(s: Sys, i: nat, c: Cell, d: int)
    requires s.batch == map[] && s.inbox == [] && i < |s.owed| && s.owed[i] == Delta(c, d)
    ensures Step(Step(s, Resume(i)), Recv) == s.(owed := RemoveAt(s.owed, i), batch := map[KeyOf(c) := d])
  {
    var s1 := Step(s, Resume(i));
    assert s1.inbox == [DeltaMsg(Delta(c, d))] && s1.inbox[1..] == [];
    assert |map[KeyOf(c) := d]| == 1;
  }

  lemma SendAndFlush(s: Sys, i: nat, c: Cell, d: int)
    requires s.batch == map[] && s.inbox == [] && i < |s.owed| && s.owed[i] == Delta(c, d) && d != 0
    requires KeyOf(c) in s.db.counts
    ensures var k := KeyOf(c);
      Step(Step(Step(s, Resume(i)), Recv), Tick) ==
      s.(owed := RemoveAt(s.owed, i), db := s.db.(counts := s.db.counts[k := Clamp(s.db.counts[k] + d)]))
  {
    var k := KeyOf(c);
    SendAndTake(s, i, c, d);
    assert FlushCounts(s.db.counts, map[k := d]) == s.db.counts[k := Clamp(s.db.counts[k] + d)];
  }

  lemma RunThree(s: Sys, es: seq<Event>)
    requires |es| >= 3
    ensures Run(s, es) == Run(Step(Step(Step(s, es[0]), es[1]), es[2]), es[3..])
  {
    assert es[1..][1..][1..] == es[3..];
    assert Run(s, es) == Run(Step(s, es[0]), es[1..]);
    assert Run(Step(s, es[0]), es[1..]) == Run(Step(Step(s, es[0]), es[1]), es[1..][1..]);
  }

  lemma OverlapEnds(s: Sys, c: Cell)
    requires s.batch == map[] && s.inbox == [] && s.owed == [Delta(c, 1), Delta(c, -1)]
    requires KeyOf(c) in s.db.counts && s.db.counts[KeyOf(c)] == 0
    ensures Run(s, OverlapEnd()) == s.(owed := [], db := s.db.(counts := s.db.counts[KeyOf(c) := 1]))
  {
    var es := OverlapEnd();
    SendAndFlush(s, 1, c, -1);
    var mid := s.(owed := [Delta(c, 1)], db := s.db.(counts := s.db.counts[KeyOf(c) := 0]));
    assert RemoveAt(s.owed, 1) == [Delta(c, 1)];
    SendAndFlush(mid, 0, c, 1);
    assert RemoveAt(mid.owed, 0) == [];
    assert mid.db.counts[KeyOf(c) := 1] == s.db.counts[KeyOf(c) := 1];
    RunThree(s, es);
    RunThree(mid, es[3..]);
  }

  /** Overlapping requests can leave a post showing one like with no like row at all. */
  lemma OverlapDrifts(s: Sys, u: Id, p: Id)
    requires Settled(s) && PostVisible(s.db, p) && Rows(s.db, Key(LikeCount, p)) == 0
    ensures var k := Key(LikeCount, p);
      var t := Run(Run(s, OverlapStart(u, p)), OverlapEnd());
      && Idle(t) && t.inbox == [] && t.batch == map[]
      && k in t.db.counts && t.db.counts[k] == 1 && Rows(t.db, k) == 0
  {
    var k, c := Key(LikeCount, p), LikeOf(u, p);
    assert ForKey(LiveCells(s.db), k) == {};
    assert c in s.db.likes ==> c in ForKey(LiveCells(s.db), k);
    OverlapStarts(s, u, p);
    var s4 := Run(s, OverlapStart(u, p));
    OverlapEnds(s4, c);
    assert LiveCells(Run(s4, OverlapEnd()).db) == LiveCells(s.db);
  }
}
