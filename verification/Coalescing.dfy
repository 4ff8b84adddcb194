/** What coalescing deltas costs: the batched counter against one that applies every delta
    on arrival, with the same clamp. */
module Coalescing {
  import opened Common
  import opened Counters

  /** The counter that clamps after every single delta. */
  function OneByOne(c: int, amounts: seq<int>): int
    decreases |amounts|
  {
    if amounts == [] then c else OneByOne(Clamp(c + amounts[0]), amounts[1..])
  }

  function Total(amounts: seq<int>): int {
    if amounts == [] then 0 else amounts[0] + Total(amounts[1..])
  }

  /** The least running sum, the empty one included. */
  function Lowest(amounts: seq<int>): int {
    if amounts == [] then 0 else
    var rest := amounts[0] + Lowest(amounts[1..]);
    if rest < 0 then rest else 0
  }

  lemma {:induction false} LowestIsLeast(amounts: seq<int>)
    ensures forall n :: 0 <= n <= |amounts| ==> Lowest(amounts) <= Total(amounts[..n])
    ensures exists n :: 0 <= n <= |amounts| && Lowest(amounts) == Total(amounts[..n])
  {
    if amounts == [] {
      assert Total(amounts[..0]) == 0;
    } else {
      var rest := amounts[1..];
      LowestIsLeast(rest);
      forall n | 0 < n <= |amounts| ensures Total(amounts[..n]) == amounts[0] + Total(rest[..n - 1]) {
        assert amounts[..n][1..] == rest[..n - 1];
      }
      assert Total(amounts[..0]) == 0;
      var m :| 0 <= m <= |rest| && Lowest(rest) == Total(rest[..m]);
      assert Total(amounts[..m + 1]) == amounts[0] + Lowest(rest);
    }
  }

  /** Clamping one by one adds exactly the depth of the lowest dip below zero. */
  lemma {:induction false} OneByOneReflects(c: int, amounts: seq<int>)
    requires c >= 0
    ensures OneByOne(c, amounts) == c + Total(amounts) + Clamp(-(c + Lowest(amounts)))
    decreases |amounts|
  {
    if amounts != [] { OneByOneReflects(Clamp(c + amounts[0]), amounts[1..]); }
  }

  /** One batch: coalescing never ends higher, and ends equal exactly when the running sum
      never dips below zero or is at its lowest at the end. */
  lemma OneBatchExact(c: int, amounts: seq<int>)
    requires c >= 0
    ensures Clamp(c + Total(amounts)) <= OneByOne(c, amounts)
    ensures Clamp(c + Total(amounts)) == OneByOne(c, amounts) <==>
      c + Lowest(amounts) >= 0 || Lowest(amounts) == Total(amounts)
  {
    OneByOneReflects(c, amounts);
    LowestIsLeast(amounts);
    assert amounts[..|amounts|] == amounts;
  }

  // ---------- the writer itself, whatever makes it flush ----------

  /** The amount for counter `k` that this step takes off the writer's channel, if any. */
  function TakenNow(s: Sys, e: Event, k: Key): seq<int> {
    if e.Recv? && s.inbox != [] && s.inbox[0].DeltaMsg? && KeyOf(s.inbox[0].delta.cell) == k
    then [s.inbox[0].delta.amount] else []
  }

  function Taken(s: Sys, es: seq<Event>, k: Key): seq<int>
    decreases |es|
  {
    if es == [] then [] else TakenNow(s, es[0], k) + Taken(Step(s, es[0]), es[1..], k)
  }

  /** The stored count plus the batched delta; zero while the post does not exist. */
  function Pending(s: Sys, k: Key): int {
    Stored(s.db, k) + Batched(s.batch, k)
  }

  /** What the counter would show if the pending batch were flushed now. */
  function Shown(s: Sys, k: Key): int {
    Clamp(Pending(s, k))
  }

  lemma FlushPending(s: Sys, k: Key)
    requires Valid(s)
    ensures Pending(Flush(s), k) == Clamp(Pending(s, k))
  {
  }

  /** The pending value takes the amounts, perhaps with a clamp. */
  predicate Moves(p: int, x: seq<int>, p': int) {
    p' == p + Total(x) || p' == Clamp(p + Total(x))
  }

  lemma ReceivePending(s: Sys, k: Key)
    requires Valid(s) && s.inbox != []
    ensures Moves(Pending(s, k), TakenNow(s, Recv, k), Pending(Receive(s), k))
  {
    var s1 := s.(inbox := s.inbox[1..]);
    match s.inbox[0] {
      case JobMsg(job) => JobEffect(s.db, job);
      case DeltaMsg(d) =>
        CoalesceDrift(s, k);
        FlushPending(Coalesce(s1, d), k);
      case FlushMsg =>
        InboxAfterRecv(s.inbox);
        FlushPending(s1, k);
    }
  }

  /** One step: the pending value takes the step's delta, perhaps with a clamp. */
  lemma StepPending(s: Sys, e: Event, k: Key)
    requires Valid(s)
    ensures |TakenNow(s, e, k)| <= 1
    ensures Moves(Pending(s, k), TakenNow(s, e, k), Pending(Step(s, e), k))
  {
    match e {
      case Recv => if s.inbox != [] { ReceivePending(s, k); }
      case Tick => FlushPending(s, k);
      case _ =>
    }
  }

  lemma MovesAbove(now: int, p: int, x: seq<int>, p': int)
    requires now >= 0 && now >= p && |x| <= 1 && Moves(p, x, p')
    ensures OneByOne(now, x) >= 0 && OneByOne(now, x) >= p'
  {
    if x != [] { assert x[1..] == []; }
  }

  /** Taking at most one delta, while no running sum dips below zero. */
  lemma MovesExactly(p: int, x: seq<int>, p': int, rest: seq<int>)
    requires |x| <= 1 && Moves(p, x, p') && p + Lowest(x + rest) >= 0
    ensures p' + Total(rest) == p + Total(x + rest)
    ensures p' + Lowest(rest) >= 0
  {
    if x == [] {
      assert x + rest == rest;
    } else {
      assert x[1..] == [] && (x + rest)[1..] == rest;
      assert Total(x) == x[0] && Total(x + rest) == x[0] + Total(rest);
    }
  }

  lemma {:induction false} OneByOneConcat(c: int, a: seq<int>, b: seq<int>)
    ensures OneByOne(c, a + b) == OneByOne(OneByOne(c, a), b)
    decreases |a|
  {
    if a == [] {
      assert a + b == b;
    } else {
      OneByOneConcat(Clamp(c + a[0]), a[1..], b);
      assert (a + b)[1..] == a[1..] + b;
    }
  }

  lemma {:induction false} EagerAbove(s: Sys, es: seq<Event>, k: Key, now: int)
    requires Valid(s)
    requires now >= 0 && now >= Pending(s, k)
    ensures Shown(Run(s, es), k) <= OneByOne(now, Taken(s, es, k))
    decreases |es|
  {
    if es != [] {
      var x := TakenNow(s, es[0], k);
      StepValid(s, es[0]);
      StepPending(s, es[0], k);
      MovesAbove(now, Pending(s, k), x, Pending(Step(s, es[0]), k));
      OneByOneConcat(now, x, Taken(Step(s, es[0]), es[1..], k));
      EagerAbove(Step(s, es[0]), es[1..], k, OneByOne(now, x));
    }
  }

  lemma {:induction false} EagerEqual(s: Sys, es: seq<Event>, k: Key)
    requires Valid(s)
    requires Pending(s, k) + Lowest(Taken(s, es, k)) >= 0
    ensures Shown(Run(s, es), k) == Pending(s, k) + Total(Taken(s, es, k))
    decreases |es|
  {
    if es != [] {
      var s' := Step(s, es[0]);
      StepValid(s, es[0]);
      StepPending(s, es[0], k);
      MovesExactly(Pending(s, k), TakenNow(s, es[0], k), Pending(s', k), Taken(s', es[1..], k));
      EagerEqual(s', es[1..], k);
    }
  }

  /** Without a dip below zero clamping does nothing. */
  lemma WithoutDips(p: int, amounts: seq<int>)
    requires p + Lowest(amounts) >= 0
    ensures OneByOne(Clamp(p), amounts) == p + Total(amounts)
  {
    LowestIsLeast(amounts);
    assert Total(amounts[..0]) == 0;
    OneByOneReflects(p, amounts);
  }

  /** Every run of the writer from any reachable moment, wherever its flushes fall (timer,
      threshold or request), for posts there before or created on the way: the counter never
      ends above the one-by-one counter that starts from what it showed, and equals it
      whenever the running sum of the deltas it took never dips below zero. */
  lemma CoalescingRefinesOneByOne(s: Sys, es: seq<Event>, k: Key)
    requires Valid(s)
    ensures Shown(Run(s, es), k) <= OneByOne(Shown(s, k), Taken(s, es, k))
    ensures Pending(s, k) + Lowest(Taken(s, es, k)) >= 0 ==>
      Shown(Run(s, es), k) == OneByOne(Shown(s, k), Taken(s, es, k))
    ensures k !in s.db.counts ==> Shown(s, k) == 0
  {
    EagerAbove(s, es, k, Shown(s, k));
    if Pending(s, k) + Lowest(Taken(s, es, k)) >= 0 {
      EagerEqual(s, es, k);
      WithoutDips(Pending(s, k), Taken(s, es, k));
    }
  }
}
