/** Bounded-batch, oldest-first, capped-retry queues: what a row waits for whatever the
    outcome of each attempt. Shared by the pin worker and the push worker.

    Rows are numbered in insertion order, which need not be the order of their timestamps: a
    row may be inserted with an earlier timestamp than rows already there and overtake them. */
module RetryQueue {
  /** `at` is what the batch query orders by. */
  datatype Slot = Slot(at: int, waiting: bool, attempts: nat)

  /** The order of the batch query, ties in insertion order. */
  predicate Before(q: seq<Slot>, j: nat, i: nat) {
    j < |q| && i < |q| && (q[j].at < q[i].at || (q[j].at == q[i].at && j < i))
  }

  /** The waiting rows that come before row `i`. */
  function AheadOf(q: seq<Slot>, i: nat): set<nat> {
    set j: nat | j < |q| && q[j].waiting && Before(q, j, i)
  }

  function Ahead(q: seq<Slot>, i: nat): nat {
    |AheadOf(q, i)|
  }

  /** Row `i` is in the batch: waiting, with fewer than `batch` waiting rows before it. */
  predicate Picked(q: seq<Slot>, i: nat, batch: nat) {
    i < |q| && q[i].waiting && Ahead(q, i) < batch
  }

  // ---------- the batch query ----------

  function InsertRow(q: seq<Slot>, i: nat, rows: seq<nat>): seq<nat> {
    if rows == [] || Before(q, i, rows[0]) then [i] + rows
    else [rows[0]] + InsertRow(q, i, rows[1..])
  }

  /** The waiting rows among the first `n`, in the order of the query. */
  function InOrder(q: seq<Slot>, n: nat): (rows: seq<nat>)
    requires n <= |q|
    ensures forall r: nat :: r in rows <==> r < n && q[r].waiting
    ensures Ascending(q, rows)
  {
    if n == 0 then []
    else if q[n - 1].waiting then
      InsertedInOrder(q, n - 1, InOrder(q, n - 1));
      InsertRow(q, n - 1, InOrder(q, n - 1))
    else InOrder(q, n - 1)
  }

  predicate Ascending(q: seq<Slot>, rows: seq<nat>) {
    && (forall r :: r in rows ==> r < |q|)
    && forall k, m :: 0 <= k < m < |rows| ==> Before(q, rows[k], rows[m])
  }

  lemma AscendingPart(q: seq<Slot>, rows: seq<nat>, lo: nat, hi: nat)
    requires Ascending(q, rows) && lo <= hi <= |rows|
    ensures Ascending(q, rows[lo..hi])
  {
    forall r | r in rows[lo..hi] ensures r < |q| { assert r in rows; }
  }

  lemma {:induction false} InsertedInOrder(q: seq<Slot>, i: nat, rows: seq<nat>)
    requires i < |q| && Ascending(q, rows) && i !in rows
    ensures Ascending(q, InsertRow(q, i, rows))
    ensures forall r :: r in InsertRow(q, i, rows) <==> r == i || r in rows
  {
    if rows != [] && !Before(q, i, rows[0]) {
      var rest := rows[1..];
      assert rows == [rows[0]] + rest && rows[0] in rows;
      AscendingPart(q, rows, 1, |rows|);
      InsertedInOrder(q, i, rest);
      var tail := InsertRow(q, i, rest);
      forall m | 0 <= m < |tail| ensures Before(q, rows[0], tail[m]) {
        assert tail[m] in tail;
        if tail[m] != i {
          var k :| 0 <= k < |rest| && rest[k] == tail[m];
          assert rows[k + 1] == tail[m];
        }
      }
    }
  }

  /** SELECT of the waiting rows ORDER BY the timestamp LIMIT `batch`. */
  function Batch(q: seq<Slot>, batch: nat): seq<nat> {
    var rows := InOrder(q, |q|);
    if |rows| <= batch then rows else rows[..batch]
  }

  function Elements(rows: seq<nat>): set<nat> {
    set r | r in rows
  }

  predicate Distinct(rows: seq<nat>) {
    forall k, m :: 0 <= k < m < |rows| ==> rows[k] != rows[m]
  }

  lemma {:induction false} DistinctElements(rows: seq<nat>)
    requires Distinct(rows)
    ensures |Elements(rows)| == |rows|
  {
    if rows != [] {
      var n := |rows| - 1;
      DistinctElements(rows[..n]);
      assert rows == rows[..n] + [rows[n]];
      assert Elements(rows) == Elements(rows[..n]) + {rows[n]};
    }
  }

  lemma AscendingIsDistinct(q: seq<Slot>, rows: seq<nat>)
    requires Ascending(q, rows)
    ensures Distinct(rows)
  {
    forall k, m | 0 <= k < m < |rows| ensures rows[k] != rows[m] { assert Before(q, rows[k], rows[m]); }
  }

  lemma EarlierPlace(q: seq<Slot>, rows: seq<nat>, m: nat, k: nat)
    requires Ascending(q, rows) && m < |rows| && k < |rows|
    ensures Before(q, rows[m], rows[k]) <==> m < k
  {
  }

  /** A waiting row's place in the order is the number of rows ahead of it. */
  lemma PlaceIsAhead(q: seq<Slot>, k: nat)
    requires k < |InOrder(q, |q|)|
    ensures AheadOf(q, InOrder(q, |q|)[k]) == Elements(InOrder(q, |q|)[..k])
    ensures Ahead(q, InOrder(q, |q|)[k]) == k
  {
    var rows := InOrder(q, |q|);
    assert rows[k] in rows;
    forall j: nat ensures j in AheadOf(q, rows[k]) <==> j in rows[..k] {
      if j in AheadOf(q, rows[k]) {
        assert j in rows;
        var m :| 0 <= m < |rows| && rows[m] == j;
        if m >= k {
          EarlierPlace(q, rows, m, k);
          assert false;
        }
        assert rows[..k][m] == j;
      }
      if j in rows[..k] {
        var m :| 0 <= m < k && rows[..k][m] == j;
        assert rows[m] == j && rows[m] in rows && Before(q, rows[m], rows[k]);
      }
    }
    AscendingPart(q, rows, 0, k);
    AscendingIsDistinct(q, rows[..k]);
    DistinctElements(rows[..k]);
  }

  /** The batch: at most `batch` rows, oldest first, and exactly the picked ones. */
  lemma BatchIsPicked(q: seq<Slot>, batch: nat)
    ensures var b := Batch(q, batch);
      && |b| <= batch
      && Ascending(q, b)
      && Distinct(b)
      && (forall j: nat :: j in b <==> Picked(q, j, batch))
  {
    var rows, b := InOrder(q, |q|), Batch(q, batch);
    assert forall m :: 0 <= m < |b| ==> b[m] == rows[m];
    forall j: nat ensures j in b <==> Picked(q, j, batch) {
      if j in rows {
        var k :| 0 <= k < |rows| && rows[k] == j;
        PlaceIsAhead(q, k);
        if k < batch { assert b[k] == j; }
        if j in b {
          var m :| 0 <= m < |b| && b[m] == j;
          PlaceIsAhead(q, m);
        }
      }
    }
    AscendingIsDistinct(q, b);
  }

  /** A row that waits outside the batch has the whole batch before it. */
  lemma BatchIsAhead(q: seq<Slot>, i: nat, batch: nat)
    requires i < |q| && q[i].waiting && Ahead(q, i) >= batch
    ensures Elements(Batch(q, batch)) <= AheadOf(q, i) && |Elements(Batch(q, batch))| == batch
  {
    var rows := InOrder(q, |q|);
    var k :| 0 <= k < |rows| && rows[k] == i;
    PlaceIsAhead(q, k);
    BatchIsPicked(q, batch);
    DistinctElements(Batch(q, batch));
    assert forall m :: 0 <= m < batch ==> Batch(q, batch)[m] == rows[..k][m];
  }

  // ---------- passes ----------

  /** One pass over the queue: every row of the batch is attempted once, other rows are left
      alone, rows may stop waiting for other reasons, and new rows may arrive. */
  ghost predicate Pass(q: seq<Slot>, q': seq<Slot>, cap: nat, batch: nat) {
    && |q| <= |q'|
    && (forall i :: 0 <= i < |q'| && q'[i].waiting ==> q'[i].attempts < cap)
    && (forall i :: 0 <= i < |q| ==> q'[i].at == q[i].at)
    && (forall i :: 0 <= i < |q| && q'[i].waiting ==> q[i].waiting)
    && (forall i :: 0 <= i < |q| && q'[i].waiting ==>
          q'[i].attempts == q[i].attempts + if Picked(q, i, batch) then 1 else 0)
  }

  ghost predicate Passes(qs: seq<seq<Slot>>, cap: nat, batch: nat) {
    && |qs| > 0
    && (forall i :: 0 <= i < |qs[0]| && qs[0][i].waiting ==> qs[0][i].attempts < cap)
    && (forall n :: 0 < n < |qs| ==> Pass(qs[n - 1], qs[n], cap, batch))
  }

  /** Rows that arrive in the course of the passes and go before row `i`. */
  function Overtakers(qs: seq<seq<Slot>>, i: nat): set<nat>
    requires qs != []
  {
    var last := qs[|qs| - 1];
    set j: nat | |qs[0]| <= j < |last| && Before(last, j, i)
  }

  /** A row keeps its timestamp, and one that waits now has waited since it was there. */
  lemma {:induction false} RowsStay(qs: seq<seq<Slot>>, cap: nat, batch: nat, m: nat, n: nat)
    requires Passes(qs, cap, batch) && m <= n < |qs|
    ensures |qs[m]| <= |qs[n]|
    ensures forall j :: 0 <= j < |qs[m]| ==> qs[n][j].at == qs[m][j].at && (qs[n][j].waiting ==> qs[m][j].waiting)
    ensures forall j :: 0 <= j < |qs[n]| && qs[n][j].waiting ==> qs[n][j].attempts < cap
    decreases n
  {
    if m < n {
      RowsStay(qs, cap, batch, m, n - 1);
      assert Pass(qs[n - 1], qs[n], cap, batch);
    } else if n > 0 {
      assert Pass(qs[n - 1], qs[n], cap, batch);
    }
  }

  /** Whoever is ahead of row `i` was ahead of it at the start or has overtaken it. */
  lemma AheadSince(qs: seq<seq<Slot>>, cap: nat, batch: nat, i: nat, n: nat)
    requires Passes(qs, cap, batch) && n < |qs| && i < |qs[0]|
    ensures |qs[0]| <= |qs[n]| <= |qs[|qs| - 1]|
    ensures AheadOf(qs[n], i) <= AheadOf(qs[0], i) + Overtakers(qs, i)
  {
    RowsStay(qs, cap, batch, 0, n);
    RowsStay(qs, cap, batch, n, |qs| - 1);
  }

  // ---------- without overtakers ----------

  /** A row that was at the head of the queue has been attempted in every pass. */
  lemma {:induction false} HeadIsAttempted(qs: seq<seq<Slot>>, cap: nat, batch: nat, i: nat, n: nat)
    requires Passes(qs, cap, batch) && n < |qs| && i < |qs[0]|
    requires Ahead(qs[0], i) < batch && Overtakers(qs, i) == {}
    ensures |qs[0]| <= |qs[n]|
    ensures qs[n][i].waiting ==> qs[n][i].attempts >= n
    decreases n
  {
    RowsStay(qs, cap, batch, 0, n);
    if n > 0 {
      HeadIsAttempted(qs, cap, batch, i, n - 1);
      assert Pass(qs[n - 1], qs[n], cap, batch);
      AheadSince(qs, cap, batch, i, n - 1);
      SubsetSize(AheadOf(qs[n - 1], i), AheadOf(qs[0], i));
    }
  }

  lemma {:induction false} SubsetSize(a: set<nat>, b: set<nat>)
    requires a <= b
    ensures |a| <= |b|
  {
    assert b == a + (b - a);
  }

  /** Overtaking somebody ahead of row `i` is overtaking row `i`. */
  lemma NoneOvertaken(qs: seq<seq<Slot>>, cap: nat, batch: nat, i: nat, j: nat)
    requires Passes(qs, cap, batch) && i < |qs[0]| && j in AheadOf(qs[0], i)
    ensures Overtakers(qs, i) == {} ==> Overtakers(qs, j) == {}
  {
    RowsStay(qs, cap, batch, 0, |qs| - 1);
    assert Overtakers(qs, j) <= Overtakers(qs, i);
  }

  /** After `cap` passes the first `batch` rows have gone. */
  lemma HeadLeaves(qs: seq<seq<Slot>>, cap: nat, batch: nat, i: nat)
    requires Passes(qs, cap, batch) && cap < |qs| && i < |qs[0]|
    requires Overtakers(qs, i) == {}
    ensures |qs[0]| <= |qs[cap]|
    ensures Ahead(qs[0], i) < batch ==> !qs[cap][i].waiting
    ensures qs[0][i].waiting && Ahead(qs[0], i) >= batch ==> Ahead(qs[cap], i) <= Ahead(qs[0], i) - batch
  {
    RowsStay(qs, cap, batch, 0, cap);
    if Ahead(qs[0], i) < batch {
      HeadIsAttempted(qs, cap, batch, i, cap);
    } else if qs[0][i].waiting {
      var head := Elements(Batch(qs[0], batch));
      BatchIsAhead(qs[0], i, batch);
      BatchIsPicked(qs[0], batch);
      AheadSince(qs, cap, batch, i, cap);
      forall j | j in head ensures j !in AheadOf(qs[cap], i) {
        NoneOvertaken(qs, cap, batch, i, j);
        HeadIsAttempted(qs, cap, batch, j, cap);
      }
      SubsetSize(AheadOf(qs[cap], i), AheadOf(qs[0], i) - head);
    }
  }

  lemma PassesSuffix(qs: seq<seq<Slot>>, cap: nat, batch: nat, n: nat)
    requires Passes(qs, cap, batch) && n < |qs|
    ensures Passes(qs[n..], cap, batch)
  {
    if n > 0 { assert Pass(qs[n - 1], qs[n], cap, batch); }
    forall m | 0 < m < |qs[n..]| ensures Pass(qs[n..][m - 1], qs[n..][m], cap, batch) {
      assert Pass(qs[n + m - 1], qs[n + m], cap, batch);
    }
  }

  function Deadline(cap: nat, batch: nat, ahead: nat): nat
    requires batch > 0
  {
    cap * (ahead / batch + 1)
  }

  /** A row with p waiting rows before it that no later row overtakes has left the queue after
      cap * (p/batch + 1) passes, for every outcome of every attempt and every arrival. */
  lemma {:induction false} LeavesByDeadline(qs: seq<seq<Slot>>, cap: nat, batch: nat, i: nat)
    requires batch > 0 && Passes(qs, cap, batch) && i < |qs[0]|
    requires Overtakers(qs, i) == {}
    requires Deadline(cap, batch, Ahead(qs[0], i)) < |qs|
    ensures var d := Deadline(cap, batch, Ahead(qs[0], i)); |qs[0]| <= |qs[d]| && !qs[d][i].waiting
    decreases Ahead(qs[0], i)
  {
    var p := Ahead(qs[0], i);
    var d := Deadline(cap, batch, p);
    DeadlineSteps(cap, batch, p);
    HeadLeaves(qs, cap, batch, i);
    RowsStay(qs, cap, batch, 0, d);
    if qs[0][i].waiting && p >= batch {
      var rest := qs[cap..];
      PassesSuffix(qs, cap, batch, cap);
      var p' := Ahead(rest[0], i);
      var d' := Deadline(cap, batch, p');
      DeadlineMonotone(cap, batch, p', p - batch);
      RowsStay(qs, cap, batch, cap, |qs| - 1);
      assert rest[|rest| - 1] == qs[|qs| - 1];
      assert Overtakers(rest, i) <= Overtakers(qs, i);
      LeavesByDeadline(rest, cap, batch, i);
      assert rest[d'] == qs[cap + d'];
      RowsStay(qs, cap, batch, cap + d', d);
    }
  }

  // ---------- with overtakers ----------

  /** The attempts the rows of `a` among the first `n` have used up; a row that has left has
      used up all of them. */
  function Spent(q: seq<Slot>, a: set<nat>, n: nat, cap: nat): nat {
    if n == 0 then 0
    else Spent(q, a, n - 1, cap) + if n - 1 in a then Used(q, n - 1, cap) else 0
  }

  function Used(q: seq<Slot>, j: nat, cap: nat): nat {
    if j >= |q| then 0 else if q[j].waiting then q[j].attempts else cap
  }

  function Below(a: set<nat>, n: nat): set<nat> {
    set j | j in a && j < n
  }

  lemma BelowNext(a: set<nat>, n: nat)
    ensures |Below(a, n + 1)| == |Below(a, n)| + if n in a then 1 else 0
  {
    assert Below(a, n + 1) == if n in a then Below(a, n) + {n} else Below(a, n);
  }

  lemma {:induction false} SpentAtMost(q: seq<Slot>, a: set<nat>, n: nat, cap: nat)
    requires forall j :: 0 <= j < |q| && q[j].waiting ==> q[j].attempts < cap
    ensures Spent(q, a, n, cap) <= cap * |Below(a, n)|
  {
    if n == 0 {
      assert Below(a, 0) == {};
    } else {
      SpentAtMost(q, a, n - 1, cap);
      BelowNext(a, n - 1);
      if n - 1 in a { assert cap * (|Below(a, n - 1)| + 1) == cap * |Below(a, n - 1)| + cap; }
    }
  }

  /** A pass uses up one attempt of each row of its batch at least, and gives none back. */
  lemma {:induction false} PassSpends(q: seq<Slot>, q': seq<Slot>, a: set<nat>, n: nat, cap: nat, batch: nat)
    requires Pass(q, q', cap, batch)
    requires forall j :: 0 <= j < |q| && q[j].waiting ==> q[j].attempts < cap
    ensures Spent(q', a, n, cap) >= Spent(q, a, n, cap) + |Below(a * Elements(Batch(q, batch)), n)|
  {
    var b := Elements(Batch(q, batch));
    if n == 0 {
      assert Below(a * b, 0) == {};
    } else {
      PassSpends(q, q', a, n - 1, cap, batch);
      BelowNext(a * b, n - 1);
      BatchIsPicked(q, batch);
    }
  }

  /** A pass in which row `i` waits either attempts it or spends `batch` attempts of rows
      ahead of it. */
  lemma PassCosts(q: seq<Slot>, q': seq<Slot>, a: set<nat>, big: nat, cap: nat, batch: nat, i: nat)
    requires Pass(q, q', cap, batch) && i < |q| <= big && q'[i].waiting && AheadOf(q, i) <= a
    requires forall j :: 0 <= j < |q| && q[j].waiting ==> q[j].attempts < cap
    ensures q[i].waiting && q'[i].attempts == q[i].attempts + if Picked(q, i, batch) then 1 else 0
    ensures Spent(q', a, big, cap) >= Spent(q, a, big, cap) + if Picked(q, i, batch) then 0 else batch
  {
    PassSpends(q, q', a, big, cap, batch);
    if !Picked(q, i, batch) {
      var b := Elements(Batch(q, batch));
      BatchIsAhead(q, i, batch);
      assert Below(a * b, big) == b;
    }
  }

  /** The rows that were ahead of row `i` at the start or have overtaken it. */
  function Rivals(qs: seq<seq<Slot>>, i: nat): set<nat>
    requires qs != []
  {
    AheadOf(qs[0], i) + Overtakers(qs, i)
  }

  /** While row `i` waits outside the batch, each pass spends `batch` attempts of its rivals. */
  lemma {:induction false} WaitingCosts(qs: seq<seq<Slot>>, cap: nat, batch: nat, i: nat, n: nat)
    requires Passes(qs, cap, batch) && n < |qs| && i < |qs[0]|
    requires |qs[0]| <= |qs[n]| && qs[n][i].waiting
    ensures qs[0][i].waiting && qs[0][i].attempts <= qs[n][i].attempts
    ensures batch * (n - (qs[n][i].attempts - qs[0][i].attempts)) <= Spent(qs[n], Rivals(qs, i), |qs[|qs| - 1]|, cap)
    decreases n
  {
    if n > 0 {
      assert Pass(qs[n - 1], qs[n], cap, batch);
      RowsStay(qs, cap, batch, 0, n - 1);
      RowsStay(qs, cap, batch, n - 1, |qs| - 1);
      AheadSince(qs, cap, batch, i, n - 1);
      PassCosts(qs[n - 1], qs[n], Rivals(qs, i), |qs[|qs| - 1]|, cap, batch, i);
      WaitingCosts(qs, cap, batch, i, n - 1);
      TimesNext(batch, n - 1 - (qs[n - 1][i].attempts - qs[0][i].attempts));
    }
  }

  lemma TimesNext(batch: nat, k: int)
    ensures batch * (k + 1) == batch * k + batch
  {
  }

  function LateDeadline(cap: nat, batch: nat, rivals: nat): nat
    requires batch > 0
  {
    cap + cap * rivals / batch
  }

  /** For every arrival, overtaking or not: a row with p waiting rows before it and o rows that
      overtake it has left after cap + cap * (p + o) / batch passes. */
  lemma LeavesDespiteOvertakers(qs: seq<seq<Slot>>, cap: nat, batch: nat, i: nat)
    requires batch > 0 && Passes(qs, cap, batch) && i < |qs[0]|
    requires LateDeadline(cap, batch, Ahead(qs[0], i) + |Overtakers(qs, i)|) < |qs|
    ensures var d := LateDeadline(cap, batch, Ahead(qs[0], i) + |Overtakers(qs, i)|);
      |qs[0]| <= |qs[d]| && !qs[d][i].waiting
  {
    var d := LateDeadline(cap, batch, Ahead(qs[0], i) + |Overtakers(qs, i)|);
    assert AheadOf(qs[0], i) !! Overtakers(qs, i);
    assert |Rivals(qs, i)| == Ahead(qs[0], i) + |Overtakers(qs, i)|;
    RowsStay(qs, cap, batch, 0, d);
    if qs[d][i].waiting {
      WaitedTooLong(qs, cap, batch, i, d);
      assert false;
    }
  }

  lemma WaitedTooLong(qs: seq<seq<Slot>>, cap: nat, batch: nat, i: nat, n: nat)
    requires batch > 0 && Passes(qs, cap, batch) && i < |qs[0]| && n < |qs|
    requires |qs[0]| <= |qs[n]| && qs[n][i].waiting
    ensures n < LateDeadline(cap, batch, |Rivals(qs, i)|)
  {
    var a, last := Rivals(qs, i), |qs[|qs| - 1]|;
    WaitingCosts(qs, cap, batch, i, n);
    RowsStay(qs, cap, batch, 0, n);
    RowsStay(qs, cap, batch, 0, |qs| - 1);
    SpentAtMost(qs[n], a, last, cap);
    assert Below(a, last) == a;
    TooManyPasses(cap, batch, |a|, n, qs[n][i].attempts - qs[0][i].attempts);
  }

  lemma TooManyPasses(cap: nat, batch: nat, rivals: nat, n: nat, own: nat)
    requires batch > 0 && own < cap && batch * (n - own) <= cap * rivals
    ensures n < LateDeadline(cap, batch, rivals)
  {
    var all := cap * rivals;
    var k := all / batch;
    assert all == batch * k + all % batch;
    if n - own > k { MulGap(k, n - own, batch); }
  }

  /** Three waiting rows and a fourth that arrives in the first pass and goes first: the table
      before and after four passes, with two attempts per row and batches of two. */
  function Overtaken(n: nat): seq<Slot>
    requires n <= 4
  {
    if n == 0 then [Slot(1, true, 0), Slot(2, true, 0), Slot(3, true, 0)]
    else if n == 1 then [Slot(1, true, 1), Slot(2, true, 1), Slot(3, true, 0), Slot(0, true, 0)]
    else if n == 2 then [Slot(1, false, 2), Slot(2, true, 1), Slot(3, true, 0), Slot(0, true, 1)]
    else if n == 3 then [Slot(1, false, 2), Slot(2, false, 2), Slot(3, true, 0), Slot(0, false, 2)]
    else [Slot(1, false, 2), Slot(2, false, 2), Slot(3, true, 1), Slot(0, false, 2)]
  }

  lemma AheadAtStart()
    ensures var q := Overtaken(0); AheadOf(q, 0) == {} && AheadOf(q, 1) == {0} && AheadOf(q, 2) == {0, 1}
  {
  }

  lemma AheadThen()
    ensures var q := Overtaken(1); AheadOf(q, 0) == {3} && AheadOf(q, 1) == {0, 3} && AheadOf(q, 2) == {0, 1, 3}
    ensures var q := Overtaken(1); AheadOf(q, 3) == {}
  {
  }

  lemma AheadLater()
    ensures var q := Overtaken(2); AheadOf(q, 1) == {3} && AheadOf(q, 2) == {1, 3} && AheadOf(q, 3) == {}
    ensures AheadOf(Overtaken(3), 2) == {}
  {
  }

  lemma OvertakenPass(n: nat)
    requires n < 4
    ensures Pass(Overtaken(n), Overtaken(n + 1), 2, 2)
  {
    if n == 0 { AheadAtStart(); } else if n == 1 { AheadThen(); } else { AheadLater(); }
  }

  /** An overtaker can cost a row more passes than a row that was ahead from the start: here
      two rows ahead and one overtaker make cap * ((p + o)/batch + 1) passes too few. */
  lemma OvertakersCostMore() returns (qs: seq<seq<Slot>>)
    ensures Passes(qs, 2, 2) && |qs| == 5 && |qs[0]| == 3 && |qs[4]| == 4
    ensures Ahead(qs[0], 2) == 2 && Overtakers(qs, 2) == {3}
    ensures Deadline(2, 2, 2 + 1) == 4 && qs[4][2].waiting
  {
    qs := seq(5, n requires 0 <= n < 5 => Overtaken(n));
    AheadAtStart();
    forall n | 0 < n < 5 ensures Pass(qs[n - 1], qs[n], 2, 2) { OvertakenPass(n - 1); }
  }

  lemma MulLeft(x: int, y: int, z: nat)
    requires x <= y
    ensures z * x <= z * y
  {
  }

  lemma MulGap(x: int, y: int, z: nat)
    requires x < y
    ensures z * x + z <= z * y
  {
    MulLeft(x + 1, y, z);
    assert z * (x + 1) == z * x + z;
  }

  lemma DivUnique(p: int, b: nat, k: int, r: int)
    requires b > 0 && p == b * k + r && 0 <= r < b
    ensures p / b == k
  {
    var q := p / b;
    assert p == b * q + p % b;
    if q < k { MulGap(q, k, b); } else if q > k { MulGap(k, q, b); }
  }

  lemma DeadlineSteps(cap: nat, batch: nat, p: nat)
    requires batch > 0
    ensures Deadline(cap, batch, p) >= cap
    ensures p < batch ==> Deadline(cap, batch, p) == cap
    ensures p >= batch ==> Deadline(cap, batch, p) == cap + Deadline(cap, batch, p - batch)
  {
    var k := p / batch;
    MulLeft(1, k + 1, cap);
    if p < batch {
      DivUnique(p, batch, 0, p);
    } else {
      assert batch * (k - 1) == batch * k - batch;
      DivUnique(p - batch, batch, k - 1, p % batch);
      assert cap * (k + 1) == cap + cap * k;
    }
  }

  lemma DeadlineMonotone(cap: nat, batch: nat, p: nat, p': nat)
    requires batch > 0 && p <= p'
    ensures Deadline(cap, batch, p) <= Deadline(cap, batch, p')
  {
    if p' / batch < p / batch {
      MulGap(p' / batch, p / batch, batch);
      assert false;
    }
    MulLeft(p / batch + 1, p' / batch + 1, cap);
  }
}
