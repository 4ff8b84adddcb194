/** The pin jobs table and its worker. */
module PinQueue {
  import opened RetryQueue

  type Cid = int

  const MAX_ATTEMPTS := 5
  const BATCH := 10

  datatype Status = Pending | Pinned | Failed

  /** `at` is the creation time. */
  datatype Job = Job(cid: Cid, at: int, status: Status, attempts: nat)

  datatype Arrival = Arrival(cid: Cid, at: int)

  function SlotOf(job: Job): Slot {
    Slot(job.at, job.status.Pending? && job.attempts < MAX_ATTEMPTS, job.attempts)
  }

  function Slots(jobs: seq<Job>): seq<Slot> {
    seq(|jobs|, i requires 0 <= i < |jobs| => SlotOf(jobs[i]))
  }

  /** The batch query: pending jobs under the attempt cap, oldest first, at most BATCH. */
  function BatchOf(jobs: seq<Job>): seq<nat> {
    Batch(Slots(jobs), BATCH)
  }

  predicate Distinct(jobs: seq<Job>) {
    forall i, j :: 0 <= i < j < |jobs| ==> jobs[i].cid != jobs[j].cid
  }

  predicate JobOk(job: Job) {
    match job.status
    case Pending => job.attempts < MAX_ATTEMPTS
    case Failed => job.attempts == MAX_ATTEMPTS
    case Pinned => 1 <= job.attempts <= MAX_ATTEMPTS
  }

  predicate TableOk(jobs: seq<Job>) {
    Distinct(jobs) && forall i :: 0 <= i < |jobs| ==> JobOk(jobs[i])
  }

  /** A job after one more answer from the pinning service. */
  function Attempted(job: Job, ok: bool): Job {
    if ok then job.(status := Pinned, attempts := job.attempts + 1)
    else job.(status := if job.attempts + 1 >= MAX_ATTEMPTS then Failed else Pending, attempts := job.attempts + 1)
  }

  predicate Has(jobs: seq<Job>, cid: Cid) {
    exists i :: 0 <= i < |jobs| && jobs[i].cid == cid
  }

  predicate InBatch(jobs: seq<Job>, i: nat) {
    Picked(Slots(jobs), i, BATCH)
  }

  predicate New(job: Job) {
    job.status.Pending? && job.attempts == 0
  }

  /** `jobs'` extends `jobs` with pending, unattempted jobs. */
  predicate Grown(jobs: seq<Job>, jobs': seq<Job>) {
    jobs <= jobs' && forall i :: |jobs| <= i < |jobs'| ==> New(jobs'[i])
  }

  /** One pass with jobs enqueued while it runs: each job of the batch gets its answer, every
      other job is untouched, and what is new is pending and unattempted. */
  ghost predicate PinPass(jobs: seq<Job>, jobs': seq<Job>, answers: nat -> bool) {
    && |jobs| <= |jobs'|
    && (forall i :: 0 <= i < |jobs| ==>
          jobs'[i] == if InBatch(jobs, i) then Attempted(jobs[i], answers(i)) else jobs[i])
    && (forall i :: |jobs| <= i < |jobs'| ==> New(jobs'[i]))
  }

  /** Jobs enqueued between two passes are as good as jobs enqueued during the first. */
  lemma GrownAfterPass(a: seq<Job>, b: seq<Job>, c: seq<Job>, answers: nat -> bool)
    requires PinPass(a, b, answers) && Grown(b, c)
    ensures PinPass(a, c, answers)
  {
    forall i | 0 <= i < |b| ensures c[i] == b[i] {}
  }

  class PinTable {
    var jobs: seq<Job>

    constructor ()
      ensures jobs == []
    {
      jobs := [];
    }

    /** INSERT OR IGNORE on the unique cid. */
    method Enqueue(cid: Cid, at: int)
      requires TableOk(jobs)
      modifies this
      ensures TableOk(jobs)
      ensures jobs == if Has(old(jobs), cid) then old(jobs) else old(jobs) + [Job(cid, at, Pending, 0)]
    {
      var i := 0;
      while i < |jobs|
        invariant i <= |jobs|
        invariant forall j :: 0 <= j < i ==> jobs[j].cid != cid
      {
        if jobs[i].cid == cid { return; }
        i := i + 1;
      }
      jobs := jobs + [Job(cid, at, Pending, 0)];
    }

    method EnqueueAll(arrivals: seq<Arrival>)
      requires TableOk(jobs)
      modifies this
      ensures TableOk(jobs) && Grown(old(jobs), jobs)
    {
      var a := 0;
      while a < |arrivals|
        invariant a <= |arrivals| && TableOk(jobs) && Grown(old(jobs), jobs)
      {
        Enqueue(arrivals[a].cid, arrivals[a].at);
        a := a + 1;
      }
    }

    /** The writer job that records one answer. */
    method Record(i: nat, ok: bool)
      requires TableOk(jobs) && i < |jobs| && jobs[i].status.Pending?
      modifies this
      ensures TableOk(jobs) && jobs == old(jobs)[i := Attempted(old(jobs)[i], ok)]
    {
      var attempts := jobs[i].attempts + 1;
      if ok {
        jobs := jobs[i := jobs[i].(status := Pinned, attempts := attempts)];
      } else {
        var status := if attempts >= MAX_ATTEMPTS then Failed else Pending;
        jobs := jobs[i := jobs[i].(attempts := attempts, status := status)];
      }
    }

    /** `answers(i)` is what the service says to job `i`, and `arrivals(m)` what other requests
        enqueue while the m-th job of the batch waits for it. */
    method RunOnce(answers: nat -> bool, arrivals: nat -> seq<Arrival>)
      requires TableOk(jobs)
      modifies this
      ensures TableOk(jobs)
      ensures PinPass(old(jobs), jobs, answers)
    {
      var batch := BatchOf(jobs);
      BatchIsPicked(Slots(jobs), BATCH);
      var m := 0;
      while m < |batch|
        invariant m <= |batch| && TableOk(jobs) && |old(jobs)| <= |jobs|
        invariant forall i :: 0 <= i < |old(jobs)| ==>
          jobs[i] == if i in batch[..m] then Attempted(old(jobs)[i], answers(i)) else old(jobs)[i]
        invariant forall i :: |old(jobs)| <= i < |jobs| ==> New(jobs[i])
      {
        var i := batch[m];
        assert i in batch && i !in batch[..m];
        assert InBatch(old(jobs), i);
        EnqueueAll(arrivals(m));
        Record(i, answers(i));
        assert batch[..m + 1] == batch[..m] + [i];
        m := m + 1;
      }
      assert batch[..m] == batch;
    }

    /** The worker's first `ticks` ticks: a pass at each, and others enqueue in between. */
    method Work(ticks: nat, answers: nat -> nat -> bool, during: nat -> nat -> seq<Arrival>, between: nat -> seq<Arrival>)
      returns (ghost tables: seq<seq<Job>>)
      requires TableOk(jobs)
      modifies this
      ensures |tables| == ticks + 1 && tables[0] == old(jobs) && tables[ticks] == jobs
      ensures History(tables, answers)
    {
      tables := [jobs];
      var n := 0;
      while n < ticks
        invariant n <= ticks && |tables| == n + 1 && tables[0] == old(jobs) && tables[n] == jobs
        invariant History(tables, answers)
      {
        ghost var before := jobs;
        RunOnce(answers(n), during(n));
        ghost var mid := jobs;
        EnqueueAll(between(n));
        GrownAfterPass(before, mid, jobs, answers(n));
        tables := tables + [jobs];
        n := n + 1;
      }
    }
  }

  // ---------- histories ----------

  /** Tables at the starts of successive passes. */
  ghost predicate History(tables: seq<seq<Job>>, answers: nat -> nat -> bool) {
    && |tables| > 0
    && (forall n :: 0 <= n < |tables| ==> TableOk(tables[n]))
    && forall n :: 0 < n < |tables| ==> PinPass(tables[n - 1], tables[n], answers(n - 1))
  }

  lemma PinPassIsPass(jobs: seq<Job>, jobs': seq<Job>, answers: nat -> bool)
    requires TableOk(jobs') && PinPass(jobs, jobs', answers)
    ensures Pass(Slots(jobs), Slots(jobs'), MAX_ATTEMPTS, BATCH)
  {
    forall i | 0 <= i < |jobs|
      ensures Slots(jobs')[i].at == Slots(jobs)[i].at
      ensures Slots(jobs')[i].waiting ==> Slots(jobs)[i].waiting
      ensures Slots(jobs')[i].waiting ==>
        Slots(jobs')[i].attempts == Slots(jobs)[i].attempts + if Picked(Slots(jobs), i, BATCH) then 1 else 0
    {
      assert jobs'[i] == if InBatch(jobs, i) then Attempted(jobs[i], answers(i)) else jobs[i];
    }
  }

  /** The history as the retry queue sees it. */
  function Queue(tables: seq<seq<Job>>): seq<seq<Slot>> {
    seq(|tables|, n requires 0 <= n < |tables| => Slots(tables[n]))
  }

  lemma HistoryPasses(tables: seq<seq<Job>>, answers: nat -> nat -> bool)
    requires History(tables, answers)
    ensures Passes(Queue(tables), MAX_ATTEMPTS, BATCH)
  {
    var qs := Queue(tables);
    assert TableOk(tables[0]);
    forall n | 0 < n < |qs| ensures Pass(qs[n - 1], qs[n], MAX_ATTEMPTS, BATCH) {
      PinPassIsPass(tables[n - 1], tables[n], answers(n - 1));
    }
  }

  /** Job `i` of the first table is pinned or failed in the d-th. */
  predicate SettledAt(tables: seq<seq<Job>>, i: nat, d: nat)
    requires |tables| > 0 && i < |tables[0]|
  {
    d < |tables| && i < |tables[d]| && tables[d][i].cid == tables[0][i].cid && !tables[d][i].status.Pending?
  }

  /** Whatever the service answers and whatever is enqueued meanwhile, a job with p pending
      jobs before it is pinned or failed after 5 * (p/10 + 1) passes if none overtakes it, and
      after 5 + 5 * (p + o)/10 passes if o jobs do. */
  lemma PinnedOrFailedByDeadline(tables: seq<seq<Job>>, answers: nat -> nat -> bool, i: nat)
    requires History(tables, answers) && i < |tables[0]|
    ensures var p, o := Ahead(Slots(tables[0]), i), |Overtakers(Queue(tables), i)|;
      && (o == 0 && 5 * (p / 10 + 1) < |tables| ==> SettledAt(tables, i, 5 * (p / 10 + 1)))
      && (5 + 5 * (p + o) / 10 < |tables| ==> SettledAt(tables, i, 5 + 5 * (p + o) / 10))
  {
    var qs := Queue(tables);
    var p, o := Ahead(Slots(tables[0]), i), |Overtakers(qs, i)|;
    HistoryPasses(tables, answers);
    if o == 0 && Deadline(MAX_ATTEMPTS, BATCH, p) < |tables| {
      LeavesByDeadline(qs, MAX_ATTEMPTS, BATCH, i);
      NotWaitingIsSettled(tables, answers, i, Deadline(MAX_ATTEMPTS, BATCH, p));
    }
    if LateDeadline(MAX_ATTEMPTS, BATCH, p + o) < |tables| {
      LeavesDespiteOvertakers(qs, MAX_ATTEMPTS, BATCH, i);
      NotWaitingIsSettled(tables, answers, i, LateDeadline(MAX_ATTEMPTS, BATCH, p + o));
    }
  }

  lemma NotWaitingIsSettled(tables: seq<seq<Job>>, answers: nat -> nat -> bool, i: nat, d: nat)
    requires History(tables, answers) && i < |tables[0]| && d < |tables|
    requires |tables[0]| <= |tables[d]| && !Slots(tables[d])[i].waiting
    ensures SettledAt(tables, i, d)
  {
    SettledRowsStay(tables, answers, i, d);
    assert TableOk(tables[d]);
    assert JobOk(tables[d][i]);
  }

  /** A row keeps its cid, and once pinned or failed it never changes again. */
  lemma {:induction false} SettledRowsStay(tables: seq<seq<Job>>, answers: nat -> nat -> bool, i: nat, n: nat)
    requires History(tables, answers) && i < |tables[0]| && n < |tables|
    ensures i < |tables[n]| && tables[n][i].cid == tables[0][i].cid
    ensures !tables[0][i].status.Pending? ==> tables[n][i] == tables[0][i]
  {
    if n > 0 {
      SettledRowsStay(tables, answers, i, n - 1);
      assert PinPass(tables[n - 1], tables[n], answers(n - 1));
    }
  }

  // ---------- which jobs are pinned, and which fail ----------

  /** The batch, said outright: pending jobs with fewer than five attempts that have fewer than
      ten such jobs before them, by creation time and then by insertion. */
  lemma InBatchIff(jobs: seq<Job>, i: nat)
    ensures InBatch(jobs, i) <==>
      && i < |jobs| && jobs[i].status.Pending? && jobs[i].attempts < 5
      && |set j: nat | j < |jobs| && jobs[j].status.Pending? && jobs[j].attempts < 5
            && (jobs[j].at < jobs[i].at || (jobs[j].at == jobs[i].at && j < i))| < 10
  {
    if i < |jobs| {
      assert AheadOf(Slots(jobs), i) ==
        set j: nat | j < |jobs| && jobs[j].status.Pending? && jobs[j].attempts < 5
          && (jobs[j].at < jobs[i].at || (jobs[j].at == jobs[i].at && j < i));
    }
  }

  /** The passes before the n-th that had job `i` in their batch. */
  function Tries(tables: seq<seq<Job>>, i: nat, n: nat): set<nat>
    requires n <= |tables|
  {
    set m: nat | m < n && InBatch(tables[m], i)
  }

  lemma TriesNext(tables: seq<seq<Job>>, i: nat, n: nat)
    requires n < |tables|
    ensures |Tries(tables, i, n + 1)| == |Tries(tables, i, n)| + if InBatch(tables[n], i) then 1 else 0
    ensures forall m :: m in Tries(tables, i, n + 1) <==> m in Tries(tables, i, n) || (m == n && InBatch(tables[n], i))
  {
    var t := Tries(tables, i, n);
    assert Tries(tables, i, n + 1) == if InBatch(tables[n], i) then t + {n} else t;
  }

  ghost predicate GotOk(tables: seq<seq<Job>>, answers: nat -> nat -> bool, i: nat, n: nat)
    requires n <= |tables|
  {
    exists m :: m in Tries(tables, i, n) && answers(m)(i)
  }

  lemma GotOkNext(tables: seq<seq<Job>>, answers: nat -> nat -> bool, i: nat, n: nat)
    requires n < |tables|
    ensures GotOk(tables, answers, i, n + 1) <==> GotOk(tables, answers, i, n) || (InBatch(tables[n], i) && answers(n)(i))
  {
    TriesNext(tables, i, n);
    if GotOk(tables, answers, i, n) {
      var m :| m in Tries(tables, i, n) && answers(m)(i);
      assert m in Tries(tables, i, n + 1);
    }
    if InBatch(tables[n], i) && answers(n)(i) { assert n in Tries(tables, i, n + 1); }
  }

  /** What five answers in a row amount to, said of the answers alone. */
  lemma {:induction false} StatusIs(tables: seq<seq<Job>>, answers: nat -> nat -> bool, i: nat, n: nat)
    requires History(tables, answers) && i < |tables[0]| && New(tables[0][i]) && n < |tables|
    ensures i < |tables[n]|
    ensures var job, ok := tables[n][i], GotOk(tables, answers, i, n);
      && job.attempts == |Tries(tables, i, n)| <= 5
      && (job.status.Pinned? <==> ok)
      && (job.status.Failed? <==> !ok && job.attempts == 5)
  {
    if n == 0 {
      assert Tries(tables, i, 0) == {};
    } else {
      var m := n - 1;
      StatusIs(tables, answers, i, m);
      TriesNext(tables, i, m);
      GotOkNext(tables, answers, i, m);
      assert PinPass(tables[m], tables[m + 1], answers(m));
      assert InBatch(tables[m], i) ==> SlotOf(tables[m][i]).waiting;
    }
  }

  /** Over every history a new job is pinned if and only if some pass had it in its batch and
      the service agreed; it has failed if and only if five passes had it and the service
      refused each time; and its attempts are the passes that had it. */
  lemma PinnedIffAgreed(tables: seq<seq<Job>>, answers: nat -> nat -> bool, i: nat, n: nat)
    requires History(tables, answers) && i < |tables[0]| && n < |tables|
    requires tables[0][i].status.Pending? && tables[0][i].attempts == 0
    ensures i < |tables[n]|
    ensures tables[n][i].status.Pinned? <==> exists m: nat :: m < n && InBatch(tables[m], i) && answers(m)(i)
    ensures tables[n][i].status.Failed? <==>
      |set m: nat | m < n && InBatch(tables[m], i)| == 5 && forall m: nat :: m < n && InBatch(tables[m], i) ==> !answers(m)(i)
    ensures tables[n][i].attempts == |set m: nat | m < n && InBatch(tables[m], i)|
  {
    StatusIs(tables, answers, i, n);
    forall m: nat ensures m in Tries(tables, i, n) <==> m < n && InBatch(tables[m], i) {}
  }
}
