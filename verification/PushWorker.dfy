/** The push worker: its passes over the pending notifications, with the rest of the server
    registering tokens, adding notifications and marking them read at every await. */
module PushWorker {
  import opened Common
  import opened RetryQueue
  import T = PushTokens

  type Id = int
  type Token = T.Token
  type Answers = (nat, Token) -> T.SendResult

  const MAX_ATTEMPTS := 8
  const BATCH := 50

  /** `at` is the creation time. */
  datatype Notif = Notif(user: Id, at: int, read: bool, sent: bool, attempts: nat, error: Option<string>)

  function SlotOf(n: Notif): Slot {
    Slot(n.at, !n.sent && !n.read && n.attempts < MAX_ATTEMPTS, n.attempts)
  }

  function Slots(ns: seq<Notif>): seq<Slot> {
    seq(|ns|, i requires 0 <= i < |ns| => SlotOf(ns[i]))
  }

  /** The batch query. */
  function BatchOf(ns: seq<Notif>): (b: seq<nat>)
    ensures forall i: nat :: i in b <==> Picked(Slots(ns), i, BATCH)
    ensures forall m :: 0 <= m < |b| ==> b[m] < |ns|
    ensures RetryQueue.Distinct(b)
  {
    BatchIsPicked(Slots(ns), BATCH);
    var b := Batch(Slots(ns), BATCH);
    assert forall m :: 0 <= m < |b| ==> b[m] in b;
    b
  }

  predicate InBatch(ns: seq<Notif>, i: nat) {
    Picked(Slots(ns), i, BATCH)
  }

  // ---------- what one notification comes to ----------

  function LastError(rs: seq<T.SendResult>): Option<string> {
    if rs == [] then None
    else if rs[|rs| - 1].SendFailed? then Some(rs[|rs| - 1].msg)
    else LastError(rs[..|rs| - 1])
  }

  datatype Mark = Skip | Done | DoneWithError(err: string) | Retry(err: string)

  /** The verdict on a notification after `results`, one per token it was sent to. */
  function Decide(want: bool, attempts: nat, results: seq<T.SendResult>): Mark {
    if !want then Skip
    else if results == [] then Done
    else if forall r :: r in results ==> T.IsDead(r) then DoneWithError("all tokens dead")
    else match LastError(results)
      case None => Done
      case Some(e) => if attempts + 1 >= MAX_ATTEMPTS then DoneWithError(e) else Retry(e)
  }

  function Marked(n: Notif, m: Mark): Notif {
    match m
    case Skip => n.(sent := true, error := Some("user preference"))
    case Done => n.(sent := true, attempts := n.attempts + 1, error := None)
    case DoneWithError(e) => n.(sent := true, attempts := n.attempts + 1, error := Some(e))
    case Retry(e) => n.(attempts := n.attempts + 1, error := Some(e))
  }

  function Results(ts: seq<Token>, i: nat, answer: Answers): seq<T.SendResult> {
    seq(|ts|, k requires 0 <= k < |ts| => answer(i, ts[k]))
  }

  /** Row `i` after its turn in a pass in which it was sent to `ts`: marked by the verdict on
      the answers, and perhaps read meanwhile. */
  predicate Processed(n: Notif, n': Notif, i: nat, want: nat -> bool, answer: Answers, ts: seq<Token>) {
    n'.(read := n.read) == Marked(n, Decide(want(i), n.attempts, Results(ts, i, answer))) && (n.read ==> n'.read)
  }

  // ---------- what the worker does, event by event ----------

  /** The tokens whose send was answered with a dead status, in order. */
  function DeadOf(ts: seq<Token>, i: nat, answer: Answers): seq<Token> {
    if ts == [] then []
    else
      var head, last := DeadOf(ts[..|ts| - 1], i, answer), ts[|ts| - 1];
      if T.IsDead(answer(i, last)) then head + [last] else head
  }

  /** One send to each token, each awaited. */
  function Exchanges(i: nat, ts: seq<Token>, answer: Answers): seq<T.Event> {
    if ts == [] then []
    else
      var last := ts[|ts| - 1];
      Exchanges(i, ts[..|ts| - 1], answer) + [T.Send(i, last), T.Answered(i, last, answer(i, last))]
  }

  function Deactivations(ts: seq<Token>): seq<T.Event> {
    seq(|ts|, k requires 0 <= k < |ts| => T.Deactivated(ts[k]))
  }

  /** Row `i`'s turn, when `ts` are the tokens listed for it: list, send to each, turn off the
      dead ones; nothing at all if its user does not want it. */
  function Turn(i: nat, user: Id, want: bool, ts: seq<Token>, answer: Answers): seq<T.Event> {
    if !want then []
    else [T.Listed(i, user, ts)] + Exchanges(i, ts, answer) + Deactivations(DeadOf(ts, i, answer))
  }

  /** The turns of the first rows of a batch. */
  function Turns(ns: seq<Notif>, batch: seq<nat>, want: nat -> bool, lists: seq<seq<Token>>, answer: Answers): seq<T.Event>
    requires |lists| <= |batch| && forall m :: 0 <= m < |batch| ==> batch[m] < |ns|
  {
    if lists == [] then []
    else
      var m := |lists| - 1;
      Turns(ns, batch, want, lists[..m], answer)
      + Turn(batch[m], ns[batch[m]].user, want(batch[m]), lists[m], answer)
  }

  // ---------- a pass ----------

  /** The same row, except that its user may have read it. */
  predicate MaybeRead(n: Notif, n': Notif) {
    n' == n || n' == n.(read := true)
  }

  predicate Fresh(n: Notif) {
    !n.sent && n.attempts == 0
  }

  /** Only reads and arrivals. */
  predicate Drifted(ns: seq<Notif>, ns': seq<Notif>) {
    && |ns| <= |ns'|
    && (forall i :: 0 <= i < |ns| ==> MaybeRead(ns[i], ns'[i]))
    && (forall i :: |ns| <= i < |ns'| ==> Fresh(ns'[i]))
  }

  /** A pass in which the m-th row of the batch was sent to the tokens `lists[m]`. */
  ghost predicate PushPass(ns: seq<Notif>, ns': seq<Notif>, want: nat -> bool, lists: seq<seq<Token>>, answer: Answers) {
    var batch := BatchOf(ns);
    && |ns| <= |ns'| && |lists| == |batch|
    && (forall m :: 0 <= m < |batch| ==> Processed(ns[batch[m]], ns'[batch[m]], batch[m], want, answer, lists[m]))
    && (forall i: nat :: i < |ns| && i !in batch ==> MaybeRead(ns[i], ns'[i]))
    && (forall i :: |ns| <= i < |ns'| ==> Fresh(ns'[i]))
  }

  lemma ReadLater(n: Notif, mid: Notif, n': Notif, i: nat, want: nat -> bool, answer: Answers, ts: seq<Token>)
    requires (Processed(n, mid, i, want, answer, ts) && MaybeRead(mid, n'))
          || (MaybeRead(n, mid) && Processed(mid, n', i, want, answer, ts))
    ensures Processed(n, n', i, want, answer, ts)
  {
  }

  /** Reads and arrivals between two passes are as good as during the first. */
  lemma DriftAfterPass(a: seq<Notif>, b: seq<Notif>, c: seq<Notif>, want: nat -> bool, lists: seq<seq<Token>>, answer: Answers)
    requires PushPass(a, b, want, lists, answer) && Drifted(b, c)
    ensures PushPass(a, c, want, lists, answer)
  {
    var batch := BatchOf(a);
    forall m | 0 <= m < |batch| ensures Processed(a[batch[m]], c[batch[m]], batch[m], want, answer, lists[m]) {
      ReadLater(a[batch[m]], b[batch[m]], c[batch[m]], batch[m], want, answer, lists[m]);
    }
    forall i | |a| <= i < |c| ensures Fresh(c[i]) {
      if i < |b| { assert Fresh(b[i]) && MaybeRead(b[i], c[i]); }
    }
  }

  // ---------- counting the dead ----------

  /** The error of the last failed send, if any failed. */
  function LastErr(ts: seq<Token>, i: nat, answer: Answers): Option<string> {
    if ts == [] then None
    else match answer(i, ts[|ts| - 1])
      case SendFailed(msg) => Some(msg)
      case Sent => LastErr(ts[..|ts| - 1], i, answer)
  }

  lemma {:induction false} LastErrIsLastError(ts: seq<Token>, i: nat, answer: Answers)
    ensures LastErr(ts, i, answer) == LastError(Results(ts, i, answer))
  {
    if ts != [] {
      ResultsSnoc(ts, i, answer);
      LastErrIsLastError(ts[..|ts| - 1], i, answer);
    }
  }

  lemma ResultsSnoc(ts: seq<Token>, i: nat, answer: Answers)
    requires ts != []
    ensures Results(ts, i, answer) == Results(ts[..|ts| - 1], i, answer) + [answer(i, ts[|ts| - 1])]
    ensures LastError(Results(ts, i, answer)) ==
      if answer(i, ts[|ts| - 1]).SendFailed? then Some(answer(i, ts[|ts| - 1]).msg)
      else LastError(Results(ts[..|ts| - 1], i, answer))
  {
    var rs := Results(ts, i, answer);
    assert rs[..|rs| - 1] == Results(ts[..|ts| - 1], i, answer);
  }

  /** Counting the dead tokens tells whether all of them are. */
  lemma {:induction false} DeadOfAll(ts: seq<Token>, i: nat, answer: Answers)
    requires T.Distinct(ts)
    ensures var d := DeadOf(ts, i, answer);
      && |d| <= |ts| && (forall t :: t in d ==> t in ts) && T.Distinct(d)
      && (|d| == |ts| <==> forall r :: r in Results(ts, i, answer) ==> T.IsDead(r))
  {
    if ts != [] {
      var head := ts[..|ts| - 1];
      DeadOfAll(head, i, answer);
      ResultsSnoc(ts, i, answer);
      assert forall t :: t in head ==> t in ts && t != ts[|ts| - 1];
      var dh := DeadOf(head, i, answer);
      forall a | 0 <= a < |dh| ensures dh[a] != ts[|ts| - 1] { assert dh[a] in dh; }
      forall r ensures r in Results(ts, i, answer) <==> r in Results(head, i, answer) || r == answer(i, ts[|ts| - 1]) {}
    }
  }

  /** The worker's way to the verdict: count the dead, else look at the last error. */
  lemma VerdictByCount(ts: seq<Token>, i: nat, answer: Answers, attempts: nat)
    requires T.Distinct(ts) && ts != []
    ensures var dead, err := DeadOf(ts, i, answer), LastErr(ts, i, answer);
      && T.Distinct(dead)
      && Decide(true, attempts, Results(ts, i, answer)) ==
           if |dead| == |ts| then DoneWithError("all tokens dead")
           else match err
             case None => Done
             case Some(e) => if attempts + 1 >= MAX_ATTEMPTS then DoneWithError(e) else Retry(e)
  {
    DeadOfAll(ts, i, answer);
    LastErrIsLastError(ts, i, answer);
  }

  function ToSet(ts: seq<Token>): set<Token> { set t | t in ts }

  lemma ToSetSnoc(ts: seq<Token>, t: Token)
    ensures ToSet(ts + [t]) == ToSet(ts) + {t}
  {
  }

  lemma ToSetRest(ts: seq<Token>, m: nat)
    requires m < |ts| && T.Distinct(ts)
    ensures ToSet(ts[m + 1..]) == ToSet(ts[m..]) - {ts[m]}
  {
    assert ts[m..] == [ts[m]] + ts[m + 1..];
    assert ts[m] !in ts[m + 1..];
  }

  /** What another request may do at an await. */
  datatype Act =
    | Notify(user: Id, at: int)
    | MarkRead(i: nat)
    | Register(user: Id, token: Token)
    | Unregister(user: Id, token: Token)

  class Worker {
    var notifs: seq<Notif>
    var rows: map<T.TokenKey, bool>
    var ticks: nat
    ghost const rows0: map<T.TokenKey, bool>
    /** Everything that has happened to tokens and every exchange with FCM, in order. */
    ghost var log: seq<T.Event>

    constructor (notifs: seq<Notif>, rows: map<T.TokenKey, bool>)
      ensures this.notifs == notifs && this.rows == rows && rows0 == rows && log == [] && At(T.IDLE)
    {
      this.notifs, this.rows, ticks := notifs, rows, 0;
      rows0, log := rows, [];
    }

    /** The log is a possible one, it accounts for the token table, and the worker is in this
        phase. */
    ghost predicate At(phase: T.Phase)
      reads this
    {
      && T.Legal(T.State(rows0, T.IDLE), log)
      && T.Run(T.State(rows0, T.IDLE), log) == T.State(rows, phase)
    }

    /** Extends the log by one event the caller has just carried out. */
    ghost method Log(e: T.Event, phase: T.Phase)
      requires T.Legal(T.State(rows0, T.IDLE), log)
      requires var s := T.Run(T.State(rows0, T.IDLE), log); T.Allowed(s, e) && T.Step(s, e) == T.State(rows, phase)
      modifies this`log
      ensures At(phase) && log == old(log) + [e]
      ensures T.Own(log) == if e.Registered? || e.Unregistered? then T.Own(old(log)) else T.Own(old(log)) + [e]
    {
      T.RunAppend(T.State(rows0, T.IDLE), log, e);
      assert (log + [e])[..|log|] == log;
      log := log + [e];
    }

    /** An await: whatever the rest of the server does next. */
    method Await(env: nat -> seq<Act>, ghost phase: T.Phase)
      requires At(phase)
      modifies this`notifs, this`rows, this`ticks, this`log
      ensures At(phase) && Drifted(old(notifs), notifs)
      ensures old(log) <= log && T.Own(log) == T.Own(old(log))
    {
      var acts := env(ticks);
      ticks := ticks + 1;
      var a := 0;
      while a < |acts|
        invariant a <= |acts| && At(phase) && Drifted(old(notifs), notifs)
        invariant old(log) <= log && T.Own(log) == T.Own(old(log))
      {
        match acts[a] {
          case Notify(u, at) => notifs := notifs + [Notif(u, at, false, false, 0, None)];
          case MarkRead(i) => if i < |notifs| { notifs := notifs[i := notifs[i].(read := true)]; }
          case Register(u, t) =>
            rows := rows[T.TokenKey(u, t) := true];
            Log(T.Registered(u, t), phase);
          case Unregister(u, t) =>
            rows := rows - {T.TokenKey(u, t)};
            Log(T.Unregistered(u, t), phase);
        }
        a := a + 1;
      }
    }

    method ListActiveTokens(i: nat, u: Id) returns (ts: seq<Token>)
      requires At(T.IDLE)
      modifies this`log
      ensures T.Lists(rows, u, ts) && At(T.Phase(ts, None, {}))
      ensures old(log) <= log && T.Own(log) == T.Own(old(log)) + [T.Listed(i, u, ts)]
    {
      var left := rows.Keys;
      ts := [];
      while left != {}
        invariant left <= rows.Keys
        invariant forall t :: t in ts <==> T.Active(rows, u, t) && T.TokenKey(u, t) !in left
        invariant T.Distinct(ts)
        decreases |left|
      {
        var k :| k in left;
        left := left - {k};
        if k.user == u && rows[k] {
          assert k == T.TokenKey(u, k.token);
          ts := ts + [k.token];
        }
      }
      Log(T.Listed(i, u, ts), T.Phase(ts, None, {}));
    }

    method DeactivateToken(t: Token, ghost doomed: set<Token>)
      requires At(T.Phase([], None, doomed))
      modifies this`rows, this`log
      ensures At(T.Phase([], None, doomed - {t}))
      ensures rows == T.Deactivate(old(rows), t)
      ensures old(log) <= log && T.Own(log) == T.Own(old(log)) + [T.Deactivated(t)]
    {
      rows := map k | k in rows :: rows[k] && k.token != t;
      Log(T.Deactivated(t), T.Phase([], None, doomed - {t}));
    }

    /** The request goes out, and others are served until it is answered. */
    method Request(i: nat, t: Token, env: nat -> seq<Act>, ghost rest: seq<Token>, ghost doomed: set<Token>)
      requires At(T.Phase([t] + rest, None, doomed))
      modifies this
      ensures At(T.Phase(rest, Some(t), doomed)) && Drifted(old(notifs), notifs)
      ensures old(log) <= log && T.Own(log) == T.Own(old(log)) + [T.Send(i, t)]
    {
      Await(env, T.Phase([t] + rest, None, doomed));
      assert ([t] + rest)[1..] == rest;
      Log(T.Send(i, t), T.Phase(rest, Some(t), doomed));
      Await(env, T.Phase(rest, Some(t), doomed));
    }

    /** One send and its answer. */
    method SendOne(i: nat, t: Token, answer: Answers, env: nat -> seq<Act>, ghost rest: seq<Token>, ghost doomed: set<Token>)
      returns (r: T.SendResult)
      requires At(T.Phase([t] + rest, None, doomed))
      modifies this
      ensures r == answer(i, t) && At(T.Phase(rest, None, T.Doom(doomed, t, r)))
      ensures Drifted(old(notifs), notifs)
      ensures old(log) <= log && T.Own(log) == T.Own(old(log)) + [T.Send(i, t), T.Answered(i, t, r)]
    {
      Request(i, t, env, rest, doomed);
      r := answer(i, t);
      Log(T.Answered(i, t, r), T.Phase(rest, None, T.Doom(doomed, t, r)));
      Regroup(T.Own(old(log)), [T.Send(i, t)], [T.Answered(i, t, r)]);
    }

    /** Sends notification `i` to every token; failures are independent. */
    method FanOut(i: nat, ts: seq<Token>, answer: Answers, env: nat -> seq<Act>)
      returns (dead: seq<Token>, lastErr: Option<string>)
      requires At(T.Phase(ts, None, {}))
      modifies this
      ensures dead == DeadOf(ts, i, answer) && lastErr == LastErr(ts, i, answer)
      ensures At(T.Phase([], None, ToSet(dead))) && Drifted(old(notifs), notifs)
      ensures old(log) <= log && T.Own(log) == T.Own(old(log)) + Exchanges(i, ts, answer)
    {
      dead, lastErr := [], None;
      assert ToSet([]) == {} && ts[0..] == ts;
      var k := 0;
      while k < |ts|
        invariant k <= |ts| && dead == DeadOf(ts[..k], i, answer) && lastErr == LastErr(ts[..k], i, answer)
        invariant At(T.Phase(ts[k..], None, ToSet(dead))) && Drifted(old(notifs), notifs)
        invariant old(log) <= log && T.Own(log) == T.Own(old(log)) + Exchanges(i, ts[..k], answer)
      {
        assert ts[k..] == [ts[k]] + ts[k + 1..] && ts[..k + 1][..k] == ts[..k];
        var r := SendOne(i, ts[k], answer, env, ts[k + 1..], ToSet(dead));
        NextExchange(T.Own(old(log)), i, ts, k, answer);
        match r {
          case Sent =>
          case SendFailed(msg) =>
            if T.FcmError.IsDeadToken(T.FcmError.ParseStatus(msg)) {
              ToSetSnoc(dead, ts[k]);
              dead := dead + [ts[k]];
            }
            lastErr := Some(msg);
        }
        k := k + 1;
      }
      assert ts[..k] == ts && ts[k..] == [];
    }

    method DeactivateAll(dead: seq<Token>, env: nat -> seq<Act>)
      requires At(T.Phase([], None, ToSet(dead))) && T.Distinct(dead)
      modifies this`notifs, this`rows, this`ticks, this`log
      ensures At(T.IDLE) && Drifted(old(notifs), notifs)
      ensures old(log) <= log && T.Own(log) == T.Own(old(log)) + Deactivations(dead)
    {
      var m := 0;
      assert dead[0..] == dead && Deactivations(dead[..0]) == [];
      while m < |dead|
        invariant m <= |dead| && At(T.Phase([], None, ToSet(dead[m..]))) && Drifted(old(notifs), notifs)
        invariant old(log) <= log && T.Own(log) == T.Own(old(log)) + Deactivations(dead[..m])
      {
        Await(env, T.Phase([], None, ToSet(dead[m..])));
        DeactivateToken(dead[m], ToSet(dead[m..]));
        ToSetRest(dead, m);
        assert Deactivations(dead[..m + 1]) == Deactivations(dead[..m]) + [T.Deactivated(dead[m])];
        m := m + 1;
      }
      assert dead[..m] == dead && ToSet(dead[m..]) == {};
    }

    /** Lists the recipient's tokens, sends to each, turns off the dead ones: the verdict. */
    method Deliver(i: nat, user: Id, attempts: nat, answer: Answers, env: nat -> seq<Act>)
      returns (mark: Mark, ghost listed: seq<Token>)
      requires At(T.IDLE)
      modifies this
      ensures At(T.IDLE) && Drifted(old(notifs), notifs)
      ensures T.Lists(old(rows), user, listed)
      ensures old(log) <= log && T.Own(log) == T.Own(old(log)) + Turn(i, user, true, listed, answer)
      ensures mark == Decide(true, attempts, Results(listed, i, answer))
    {
      var ts := ListActiveTokens(i, user);
      listed := ts;
      if ts == [] {
        mark := Done;
        WholeTurn(T.Own(old(log)), i, user, ts, answer);
        return;
      }
      var dead, lastErr := FanOut(i, ts, answer, env);
      VerdictByCount(ts, i, answer, attempts);
      DeactivateAll(dead, env);
      WholeTurn(T.Own(old(log)), i, user, ts, answer);
      if |dead| == |ts| {
        mark := DoneWithError("all tokens dead");
      } else {
        match lastErr {
          case None => mark := Done;
          case Some(e) => mark := if attempts + 1 >= MAX_ATTEMPTS then DoneWithError(e) else Retry(e);
        }
      }
    }

    /** The writer job that updates the notification row. */
    method MarkRow(i: nat, attempts: nat, mark: Mark)
      requires i < |notifs| && notifs[i].attempts == attempts
      modifies this`notifs
      ensures notifs == old(notifs)[i := Marked(old(notifs)[i], mark)]
    {
      var n := notifs[i];
      match mark {
        case Skip => n := n.(sent := true, error := Some("user preference"));
        case Done => n := n.(sent := true, attempts := n.attempts + 1, error := None);
        case DoneWithError(e) => n := n.(sent := true, attempts := n.attempts + 1, error := Some(e));
        case Retry(e) => n := n.(attempts := attempts + 1, error := Some(e));
      }
      notifs := notifs[i := n];
    }

    /** One row of the batch, with the attempt count the batch query read for it. */
    method ProcessOne(i: nat, user: Id, attempts: nat, want: nat -> bool, answer: Answers, env: nat -> seq<Act>)
      returns (ghost listed: seq<Token>)
      requires At(T.IDLE) && i < |notifs| && notifs[i].user == user && notifs[i].attempts == attempts
      modifies this
      ensures At(T.IDLE)
      ensures old(log) <= log && T.Own(log) == T.Own(old(log)) + Turn(i, user, want(i), listed, answer)
      ensures OneTurn(old(notifs), notifs, i, want, listed, answer)
    {
      Await(env, T.IDLE);
      var mark := Skip;
      listed := [];
      if want(i) {
        mark, listed := Deliver(i, user, attempts, answer, env);
      }
      assert mark == Decide(want(i), attempts, Results(listed, i, answer));
      Await(env, T.IDLE);
      MarkAfterDrift(old(notifs), notifs, i, want, listed, answer, mark);
      MarkRow(i, attempts, mark);
    }

    /** A whole pass. `answer(i, t)` is what FCM says to a send of row `i` to token `t`. */
    method RunOnce(want: nat -> bool, answer: Answers, env: nat -> seq<Act>) returns (ghost lists: seq<seq<Token>>)
      requires At(T.IDLE)
      modifies this
      ensures At(T.IDLE)
      ensures PushPass(old(notifs), notifs, want, lists, answer)
      ensures old(log) <= log
      ensures T.Own(log) == T.Own(old(log)) + Turns(old(notifs), BatchOf(old(notifs)), want, lists, answer)
    {
      var fetched, batch := notifs, BatchOf(notifs);
      lists := [];
      var m := 0;
      while m < |batch|
        invariant m == |lists| <= |batch|
        invariant At(T.IDLE) && old(log) <= log
        invariant T.Own(log) == T.Own(old(log)) + Turns(fetched, batch, want, lists, answer)
        invariant Under(fetched, notifs, batch, want, lists, answer)
      {
        var i := batch[m];
        ghost var before := notifs;
        StillThere(fetched, notifs, batch, want, lists, answer);
        ghost var listed := ProcessOne(i, fetched[i].user, fetched[i].attempts, want, answer, env);
        NextTurn(T.Own(old(log)), fetched, batch, want, lists, listed, answer);
        UnderNext(fetched, before, notifs, batch, want, lists, listed, answer);
        lists := lists + [listed];
        m := m + 1;
      }
      assert batch[..m] == batch;
    }

    /** The worker's first `n` ticks: a pass at each, and the rest of the server in between. */
    method Work(n: nat, want: nat -> nat -> bool, answer: nat -> Answers, env: nat -> seq<Act>)
      returns (ghost h: seq<Snapshot>, ghost lists: seq<seq<seq<Token>>>)
      requires At(T.IDLE) && AttemptsOk(notifs)
      modifies this
      ensures At(T.IDLE) && old(log) <= log
      ensures |h| == n + 1 && h[0] == Snapshot(old(notifs), T.Own(old(log))) && h[n] == Snapshot(notifs, T.Own(log))
      ensures History(h, lists, want, answer)
      ensures T.NoSendToDead(log)
    {
      h, lists := [Snapshot(notifs, T.Own(log))], [];
      var k := 0;
      while k < n
        invariant k <= n && At(T.IDLE) && old(log) <= log
        invariant |h| == k + 1 && h[0] == Snapshot(old(notifs), T.Own(old(log))) && h[k] == Snapshot(notifs, T.Own(log))
        invariant History(h, lists, want, answer)
      {
        ghost var before := notifs;
        ghost var ls := RunOnce(want(k), answer(k), env);
        ghost var mid := notifs;
        Await(env, T.IDLE);
        DriftAfterPass(before, mid, notifs, want(k), ls, answer(k));
        HistoryGrows(h, lists, want, answer, ls, Snapshot(notifs, T.Own(log)));
        h, lists := h + [Snapshot(notifs, T.Own(log))], lists + [ls];
        k := k + 1;
      }
      T.DeadUntilRegistered(rows0, log);
    }
  }

  lemma Regroup(a: seq<T.Event>, b: seq<T.Event>, c: seq<T.Event>)
    ensures a + b + c == a + (b + c)
  {
  }

  lemma WholeTurn(own: seq<T.Event>, i: nat, user: Id, ts: seq<Token>, answer: Answers)
    ensures own + [T.Listed(i, user, ts)] + Exchanges(i, ts, answer) + Deactivations(DeadOf(ts, i, answer))
         == own + Turn(i, user, true, ts, answer)
    ensures ts == [] ==> Turn(i, user, true, ts, answer) == [T.Listed(i, user, ts)]
  {
    var a, b, c := [T.Listed(i, user, ts)], Exchanges(i, ts, answer), Deactivations(DeadOf(ts, i, answer));
    Regroup(own, a, b);
    Regroup(own, a + b, c);
  }

  lemma NextExchange(own: seq<T.Event>, i: nat, ts: seq<Token>, k: nat, answer: Answers)
    requires k < |ts|
    ensures own + Exchanges(i, ts[..k], answer) + [T.Send(i, ts[k]), T.Answered(i, ts[k], answer(i, ts[k]))]
         == own + Exchanges(i, ts[..k + 1], answer)
  {
    assert ts[..k + 1][..k] == ts[..k];
    Regroup(own, Exchanges(i, ts[..k], answer), [T.Send(i, ts[k]), T.Answered(i, ts[k], answer(i, ts[k]))]);
  }

  lemma NextTurn(own: seq<T.Event>, ns: seq<Notif>, batch: seq<nat>, want: nat -> bool, lists: seq<seq<Token>>,
                 ts: seq<Token>, answer: Answers)
    requires |lists| < |batch| && forall m :: 0 <= m < |batch| ==> batch[m] < |ns|
    ensures var i := batch[|lists|];
      own + Turns(ns, batch, want, lists, answer) + Turn(i, ns[i].user, want(i), ts, answer)
      == own + Turns(ns, batch, want, lists + [ts], answer)
  {
    var i, lists' := batch[|lists|], lists + [ts];
    assert lists'[..|lists|] == lists && lists'[|lists|] == ts;
    Regroup(own, Turns(ns, batch, want, lists, answer), Turn(i, ns[i].user, want(i), ts, answer));
  }

  /** A pass over `ns` whose first `|lists|` turns are over. */
  ghost predicate Under(ns: seq<Notif>, ns': seq<Notif>, batch: seq<nat>, want: nat -> bool, lists: seq<seq<Token>>, answer: Answers) {
    && |lists| <= |batch| && |ns| <= |ns'|
    && (forall j :: 0 <= j < |batch| ==> batch[j] < |ns|)
    && (forall j :: 0 <= j < |lists| ==> Processed(ns[batch[j]], ns'[batch[j]], batch[j], want, answer, lists[j]))
    && (forall i: nat :: i < |ns| && i !in batch[..|lists|] ==> MaybeRead(ns[i], ns'[i]))
    && (forall i :: |ns| <= i < |ns'| ==> Fresh(ns'[i]))
  }

  /** The row whose turn comes next is as the batch query read it, but perhaps read. */
  lemma StillThere(ns: seq<Notif>, ns': seq<Notif>, batch: seq<nat>, want: nat -> bool, lists: seq<seq<Token>>, answer: Answers)
    requires Under(ns, ns', batch, want, lists, answer) && |lists| < |batch| && RetryQueue.Distinct(batch)
    ensures MaybeRead(ns[batch[|lists|]], ns'[batch[|lists|]])
  {
    assert batch[|lists|] !in batch[..|lists|];
  }

  /** What one turn does to the table. */
  ghost predicate OneTurn(ns: seq<Notif>, ns': seq<Notif>, i: nat, want: nat -> bool, listed: seq<Token>, answer: Answers) {
    && i < |ns| <= |ns'| && Processed(ns[i], ns'[i], i, want, answer, listed)
    && (forall j :: 0 <= j < |ns| && j != i ==> MaybeRead(ns[j], ns'[j]))
    && (forall j :: |ns| <= j < |ns'| ==> Fresh(ns'[j]))
  }

  lemma MarkAfterDrift(ns: seq<Notif>, mid: seq<Notif>, i: nat, want: nat -> bool, listed: seq<Token>, answer: Answers, mark: Mark)
    requires i < |ns| && Drifted(ns, mid)
    requires mark == Decide(want(i), ns[i].attempts, Results(listed, i, answer))
    ensures OneTurn(ns, mid[i := Marked(mid[i], mark)], i, want, listed, answer)
  {
    assert MaybeRead(ns[i], mid[i]);
  }

  lemma UnderNext(ns: seq<Notif>, mid: seq<Notif>, ns': seq<Notif>, batch: seq<nat>, want: nat -> bool,
                  lists: seq<seq<Token>>, listed: seq<Token>, answer: Answers)
    requires |lists| < |batch| && RetryQueue.Distinct(batch)
    requires Under(ns, mid, batch, want, lists, answer) && OneTurn(mid, ns', batch[|lists|], want, listed, answer)
    ensures Under(ns, ns', batch, want, lists + [listed], answer)
  {
    var m, lists' := |lists|, lists + [listed];
    var i := batch[m];
    assert batch[..m + 1] == batch[..m] + [i];
    assert i !in batch[..m];
    forall j | 0 <= j <= m ensures Processed(ns[batch[j]], ns'[batch[j]], batch[j], want, answer, lists'[j]) {
      ReadLater(ns[batch[j]], mid[batch[j]], ns'[batch[j]], batch[j], want, answer, lists'[j]);
    }
    forall j | |ns| <= j < |ns'| ensures Fresh(ns'[j]) {
      if j < |mid| { assert Fresh(mid[j]) && MaybeRead(mid[j], ns'[j]); }
    }
  }

  // ---------- histories ----------

  /** The table and the worker's log at the start of a pass. */
  datatype Snapshot = Snapshot(notifs: seq<Notif>, own: seq<T.Event>)

  /** From the start of one pass to the start of the next. */
  ghost predicate Next(a: Snapshot, b: Snapshot, want: nat -> bool, lists: seq<seq<Token>>, answer: Answers) {
    && PushPass(a.notifs, b.notifs, want, lists, answer)
    && b.own == a.own + Turns(a.notifs, BatchOf(a.notifs), want, lists, answer)
  }

  ghost predicate History(h: seq<Snapshot>, lists: seq<seq<seq<Token>>>, want: nat -> nat -> bool, answer: nat -> Answers) {
    && |h| == |lists| + 1 && AttemptsOk(h[0].notifs)
    && forall n :: 0 <= n < |lists| ==> Next(h[n], h[n + 1], want(n), lists[n], answer(n))
  }

  lemma HistoryGrows(h: seq<Snapshot>, lists: seq<seq<seq<Token>>>, want: nat -> nat -> bool, answer: nat -> Answers,
                     ls: seq<seq<Token>>, x: Snapshot)
    requires History(h, lists, want, answer) && Next(h[|lists|], x, want(|lists|), ls, answer(|lists|))
    ensures History(h + [x], lists + [ls], want, answer)
  {
    var h', lists' := h + [x], lists + [ls];
    forall n | 0 <= n < |lists'| ensures Next(h'[n], h'[n + 1], want(n), lists'[n], answer(n)) {
      if n < |lists| { assert Next(h[n], h[n + 1], want(n), lists[n], answer(n)); }
    }
  }

  predicate AttemptsOk(ns: seq<Notif>) {
    forall i :: 0 <= i < |ns| ==> ns[i].attempts <= MAX_ATTEMPTS && (!ns[i].sent ==> ns[i].attempts < MAX_ATTEMPTS)
  }

  lemma RowAfterPass(ns: seq<Notif>, ns': seq<Notif>, want: nat -> bool, lists: seq<seq<Token>>, answer: Answers, i: nat)
    requires PushPass(ns, ns', want, lists, answer) && AttemptsOk(ns) && i < |ns|
    ensures ns'[i].attempts <= MAX_ATTEMPTS && (!ns'[i].sent ==> ns'[i].attempts < MAX_ATTEMPTS)
    ensures ns'[i].at == ns[i].at
    ensures ns[i].sent ==> ns'[i].sent
    ensures ns[i].read ==> ns'[i].read
    ensures SlotOf(ns'[i]).waiting ==> ns'[i].attempts == ns[i].attempts + if InBatch(ns, i) then 1 else 0
  {
    var batch := BatchOf(ns);
    if i in batch {
      var m :| 0 <= m < |batch| && batch[m] == i;
      assert Processed(ns[batch[m]], ns'[batch[m]], batch[m], want, answer, lists[m]);
    } else {
      assert MaybeRead(ns[i], ns'[i]);
    }
  }

  lemma PushPassIsPass(ns: seq<Notif>, ns': seq<Notif>, want: nat -> bool, lists: seq<seq<Token>>, answer: Answers)
    requires PushPass(ns, ns', want, lists, answer) && AttemptsOk(ns)
    ensures AttemptsOk(ns') && Pass(Slots(ns), Slots(ns'), MAX_ATTEMPTS, BATCH)
  {
    forall i | 0 <= i < |ns|
      ensures ns'[i].attempts <= MAX_ATTEMPTS && (!ns'[i].sent ==> ns'[i].attempts < MAX_ATTEMPTS)
      ensures Slots(ns')[i].at == Slots(ns)[i].at
      ensures Slots(ns')[i].waiting ==> Slots(ns)[i].waiting
      ensures Slots(ns')[i].waiting ==>
        Slots(ns')[i].attempts == Slots(ns)[i].attempts + if Picked(Slots(ns), i, BATCH) then 1 else 0
    {
      RowAfterPass(ns, ns', want, lists, answer, i);
    }
    forall i | |ns| <= i < |ns'| ensures ns'[i].attempts == 0 {
      assert Fresh(ns'[i]);
    }
  }

  lemma NextIsPass(a: Snapshot, b: Snapshot, want: nat -> bool, lists: seq<seq<Token>>, answer: Answers)
    requires Next(a, b, want, lists, answer) && AttemptsOk(a.notifs)
    ensures AttemptsOk(b.notifs) && Pass(Slots(a.notifs), Slots(b.notifs), MAX_ATTEMPTS, BATCH)
  {
    PushPassIsPass(a.notifs, b.notifs, want, lists, answer);
  }

  lemma {:induction false} HistoryKeeps(h: seq<Snapshot>, lists: seq<seq<seq<Token>>>, want: nat -> nat -> bool, answer: nat -> Answers, n: nat)
    requires History(h, lists, want, answer) && n < |h|
    ensures AttemptsOk(h[n].notifs)
    ensures n > 0 ==> Pass(Slots(h[n - 1].notifs), Slots(h[n].notifs), MAX_ATTEMPTS, BATCH)
  {
    if n > 0 {
      var m := n - 1;
      HistoryKeeps(h, lists, want, answer, m);
      assert Next(h[m], h[m + 1], want(m), lists[m], answer(m));
      NextIsPass(h[m], h[m + 1], want(m), lists[m], answer(m));
    }
  }

  /** The history as the retry queue sees it. */
  function Queue(h: seq<Snapshot>): seq<seq<Slot>> {
    seq(|h|, n requires 0 <= n < |h| => Slots(h[n].notifs))
  }

  lemma HistoryPasses(h: seq<Snapshot>, lists: seq<seq<seq<Token>>>, want: nat -> nat -> bool, answer: nat -> Answers)
    requires History(h, lists, want, answer)
    ensures Passes(Queue(h), MAX_ATTEMPTS, BATCH)
  {
    var qs := Queue(h);
    forall n | 0 < n < |qs| ensures Pass(qs[n - 1], qs[n], MAX_ATTEMPTS, BATCH) {
      HistoryKeeps(h, lists, want, answer, n);
    }
  }

  /** Notification `i` of the first table has been sent or read by the d-th. */
  predicate GoneAt(h: seq<Snapshot>, i: nat, d: nat) {
    d < |h| && i < |h[d].notifs| && (h[d].notifs[i].sent || h[d].notifs[i].read)
  }

  /** Whatever FCM answers and whatever arrives, a notification with p pending ones before it
      has left the queue after 8 * (p/50 + 1) passes if none overtakes it, and after
      8 + 8 * (p + o)/50 passes if o do; and no attempt count ever exceeds 8. */
  lemma LeavesQueueByDeadline(h: seq<Snapshot>, lists: seq<seq<seq<Token>>>, want: nat -> nat -> bool, answer: nat -> Answers, i: nat)
    requires History(h, lists, want, answer) && i < |h[0].notifs|
    ensures var p, o := Ahead(Slots(h[0].notifs), i), |Overtakers(Queue(h), i)|;
      && (o == 0 && 8 * (p / 50 + 1) < |h| ==> GoneAt(h, i, 8 * (p / 50 + 1)))
      && (8 + 8 * (p + o) / 50 < |h| ==> GoneAt(h, i, 8 + 8 * (p + o) / 50))
    ensures forall n :: 0 <= n < |h| ==> AttemptsOk(h[n].notifs)
  {
    var qs := Queue(h);
    var p, o := Ahead(Slots(h[0].notifs), i), |Overtakers(qs, i)|;
    HistoryPasses(h, lists, want, answer);
    forall n | 0 <= n < |h| ensures AttemptsOk(h[n].notifs) { HistoryKeeps(h, lists, want, answer, n); }
    if o == 0 && Deadline(MAX_ATTEMPTS, BATCH, p) < |h| {
      LeavesByDeadline(qs, MAX_ATTEMPTS, BATCH, i);
      assert !SlotOf(h[Deadline(MAX_ATTEMPTS, BATCH, p)].notifs[i]).waiting;
    }
    if LateDeadline(MAX_ATTEMPTS, BATCH, p + o) < |h| {
      LeavesDespiteOvertakers(qs, MAX_ATTEMPTS, BATCH, i);
      assert !SlotOf(h[LateDeadline(MAX_ATTEMPTS, BATCH, p + o)].notifs[i]).waiting;
    }
  }

  // ---------- who is sent to ----------

  lemma {:induction false} ExchangesAreOf(i: nat, ts: seq<Token>, answer: Answers)
    ensures forall e :: e in Exchanges(i, ts, answer) && e.Send? ==> e.notif == i
  {
    if ts != [] { ExchangesAreOf(i, ts[..|ts| - 1], answer); }
  }

  lemma {:induction false} TurnsAreOfBatch(ns: seq<Notif>, batch: seq<nat>, want: nat -> bool, lists: seq<seq<Token>>, answer: Answers)
    requires |lists| <= |batch| && forall m :: 0 <= m < |batch| ==> batch[m] < |ns|
    ensures forall e :: e in Turns(ns, batch, want, lists, answer) && e.Send? ==> e.notif in batch
  {
    if lists != [] {
      var m := |lists| - 1;
      TurnsAreOfBatch(ns, batch, want, lists[..m], answer);
      ExchangesAreOf(batch[m], lists[m], answer);
    }
  }

  lemma GoneIsNotSentTo(a: Snapshot, b: Snapshot, want: nat -> bool, lists: seq<seq<Token>>, answer: Answers, i: nat)
    requires Next(a, b, want, lists, answer) && AttemptsOk(a.notifs) && i < |a.notifs| && (a.notifs[i].sent || a.notifs[i].read)
    ensures i < |b.notifs| && (b.notifs[i].sent || b.notifs[i].read) && a.own <= b.own
    ensures forall k :: |a.own| <= k < |b.own| && b.own[k].Send? ==> b.own[k].notif != i
  {
    RowAfterPass(a.notifs, b.notifs, want, lists, answer, i);
    var turns := Turns(a.notifs, BatchOf(a.notifs), want, lists, answer);
    TurnsAreOfBatch(a.notifs, BatchOf(a.notifs), want, lists, answer);
    assert !InBatch(a.notifs, i);
    forall k | |a.own| <= k < |b.own| && b.own[k].Send? ensures b.own[k].notif != i {
      assert b.own[k] == turns[k - |a.own|] && b.own[k] in turns;
    }
  }

  /** A notification that is marked sent, or read, at the start of a pass is in no send of that
      pass or any later one. */
  lemma {:induction false} SentOnceMarked(h: seq<Snapshot>, lists: seq<seq<seq<Token>>>, want: nat -> nat -> bool, answer: nat -> Answers,
                                          i: nat, a: nat, b: nat)
    requires History(h, lists, want, answer) && a <= b < |h| && i < |h[a].notifs| && (h[a].notifs[i].sent || h[a].notifs[i].read)
    ensures i < |h[b].notifs| && (h[b].notifs[i].sent || h[b].notifs[i].read)
    ensures h[a].own <= h[b].own
    ensures forall k :: |h[a].own| <= k < |h[b].own| && h[b].own[k].Send? ==> h[b].own[k].notif != i
    decreases b
  {
    if a < b {
      var m := b - 1;
      SentOnceMarked(h, lists, want, answer, i, a, m);
      HistoryKeeps(h, lists, want, answer, m);
      assert Next(h[m], h[m + 1], want(m), lists[m], answer(m));
      GoneIsNotSentTo(h[m], h[m + 1], want(m), lists[m], answer(m), i);
    }
  }

  // ---------- what a pass does, said outright ----------

  /** The batch: unsent, unread notifications with fewer than eight attempts that have fewer
      than fifty such before them, by creation time and then by insertion. */
  lemma InBatchIff(ns: seq<Notif>, i: nat)
    ensures i in BatchOf(ns) <==>
      && i < |ns| && !ns[i].sent && !ns[i].read && ns[i].attempts < 8
      && |set j: nat | j < |ns| && !ns[j].sent && !ns[j].read && ns[j].attempts < 8
            && (ns[j].at < ns[i].at || (ns[j].at == ns[i].at && j < i))| < 50
  {
    if i < |ns| {
      assert AheadOf(Slots(ns), i) ==
        set j: nat | j < |ns| && !ns[j].sent && !ns[j].read && ns[j].attempts < 8
          && (ns[j].at < ns[i].at || (ns[j].at == ns[i].at && j < i));
    }
  }

  /** The k-th result is a failure with this error and every later one a success. */
  predicate FailsLast(rs: seq<T.SendResult>, k: nat, error: string) {
    k < |rs| && rs[k] == T.SendFailed(error) && forall m :: k < m < |rs| ==> rs[m].Sent?
  }

  lemma FailsLastSnoc(rs: seq<T.SendResult>, k: nat, error: string)
    requires rs != [] && rs[|rs| - 1].Sent? && FailsLast(rs[..|rs| - 1], k, error)
    ensures FailsLast(rs, k, error)
  {
    var head := rs[..|rs| - 1];
    forall m | k < m < |rs| ensures rs[m].Sent? {
      if m < |head| { assert head[m] == rs[m]; }
    }
  }

  lemma {:induction false} NoErrorIff(rs: seq<T.SendResult>)
    ensures LastError(rs).None? <==> forall k :: 0 <= k < |rs| ==> rs[k].Sent?
  {
    if rs != [] {
      var n := |rs| - 1;
      NoErrorIff(rs[..n]);
      assert rs == rs[..n] + [rs[n]];
    }
  }

  lemma {:induction false} LastErrorIs(rs: seq<T.SendResult>) returns (k: nat)
    requires LastError(rs).Some?
    ensures FailsLast(rs, k, LastError(rs).value)
  {
    var n := |rs| - 1;
    if rs[n].SendFailed? {
      k := n;
    } else {
      k := LastErrorIs(rs[..n]);
      FailsLastSnoc(rs, k, LastError(rs).value);
    }
  }

  /** What a turn leaves of a row, from the answers alone: it is sent exactly if it was not
      wanted, went to nobody, went to everybody, reached only dead tokens, or this was the
      eighth attempt; an attempt is counted unless it was not wanted; and the error kept is the
      reason, if any, in this order. */
  lemma TurnOutcome(n: Notif, n': Notif, i: nat, want: nat -> bool, answer: Answers, ts: seq<Token>)
    requires Processed(n, n', i, want, answer, ts) && !n.sent && n.attempts < 8
    ensures var allSent := forall k :: 0 <= k < |ts| ==> answer(i, ts[k]).Sent?;
      var allDead := forall k :: 0 <= k < |ts| ==> T.IsDead(answer(i, ts[k]));
      && (n'.sent <==> !want(i) || allSent || allDead || n.attempts == 7)
      && n'.attempts == n.attempts + (if want(i) then 1 else 0)
      && n'.user == n.user && n'.at == n.at && (n.read ==> n'.read)
      && (!want(i) ==> n'.error == Some("user preference"))
      && (want(i) && allSent ==> n'.error == None)
      && (want(i) && allDead && ts != [] ==> n'.error == Some("all tokens dead"))
      && (want(i) && !allSent && !allDead ==>
            exists k :: 0 <= k < |ts| && LastFailure(ts, i, answer, k, n'.error))
  {
    var rs := Results(ts, i, answer);
    NoErrorIff(rs);
    assert forall k :: 0 <= k < |ts| ==> rs[k] == answer(i, ts[k]);
    assert (forall r :: r in rs ==> T.IsDead(r)) <==> forall k :: 0 <= k < |ts| ==> T.IsDead(answer(i, ts[k])) by {
      assert forall k :: 0 <= k < |ts| ==> rs[k] in rs;
    }
    if want(i) && LastError(rs).Some? {
      var k := LastErrorIs(rs);
      assert LastFailure(ts, i, answer, k, LastError(rs));
    }
  }

  /** The k-th send failed with this error and every later one succeeded. */
  predicate LastFailure(ts: seq<Token>, i: nat, answer: Answers, k: nat, error: Option<string>)
    requires k < |ts|
  {
    && answer(i, ts[k]).SendFailed? && error == Some(answer(i, ts[k]).msg)
    && forall m :: k < m < |ts| ==> answer(i, ts[m]).Sent?
  }

  // ---------- whose tokens a turn goes to ----------

  /** The tokens that a stretch of the worker's events sends row `i` to, in order. */
  function SendsOf(events: seq<T.Event>, i: nat): seq<Token> {
    if events == [] then []
    else
      var head, last := SendsOf(events[..|events| - 1], i), events[|events| - 1];
      if last.Send? && last.notif == i then head + [last.token] else head
  }

  lemma {:induction false} SendsConcat(a: seq<T.Event>, b: seq<T.Event>, i: nat)
    ensures SendsOf(a + b, i) == SendsOf(a, i) + SendsOf(b, i)
  {
    if b == [] {
      assert a + b == a;
    } else {
      var n := |b| - 1;
      SendsConcat(a, b[..n], i);
      assert (a + b)[..|a + b| - 1] == a + b[..n] && (a + b)[|a + b| - 1] == b[n];
    }
  }

  lemma {:induction false} NoSends(events: seq<T.Event>, i: nat)
    requires forall e :: e in events ==> !(e.Send? && e.notif == i)
    ensures SendsOf(events, i) == []
  {
    if events != [] {
      assert events[|events| - 1] in events;
      NoSends(events[..|events| - 1], i);
    }
  }

  lemma {:induction false} SendsOfExchanges(i: nat, ts: seq<Token>, answer: Answers)
    ensures SendsOf(Exchanges(i, ts, answer), i) == ts
  {
    if ts != [] {
      var n := |ts| - 1;
      var head, pair := Exchanges(i, ts[..n], answer), [T.Send(i, ts[n]), T.Answered(i, ts[n], answer(i, ts[n]))];
      SendsOfExchanges(i, ts[..n], answer);
      SendsConcat(head, pair, i);
      assert pair[..1] == [T.Send(i, ts[n])] && pair[..1][..0] == [];
      assert SendsOf(pair[..1], i) == [ts[n]];
      assert SendsOf(pair, i) == [ts[n]];
      assert ts == ts[..n] + [ts[n]];
    }
  }

  lemma SendsOfTurn(i: nat, user: Id, want: bool, ts: seq<Token>, answer: Answers, j: nat)
    ensures SendsOf(Turn(i, user, want, ts, answer), j) == if want && i == j then ts else []
  {
    if want {
      var a, b, c := [T.Listed(i, user, ts)], Exchanges(i, ts, answer), Deactivations(DeadOf(ts, i, answer));
      SendsConcat(a + b, c, j);
      SendsConcat(a, b, j);
      NoSends(a, j);
      NoSends(c, j);
      if i == j { SendsOfExchanges(i, ts, answer); } else {
        ExchangesAreOf(i, ts, answer);
        NoSends(b, j);
      }
    }
  }

  /** In a pass, a row of the batch is sent to exactly the tokens listed for it, each once and
      in order, if its user wants it, and to none otherwise. */
  lemma {:induction false} SendsOfTurns(ns: seq<Notif>, batch: seq<nat>, want: nat -> bool, lists: seq<seq<Token>>, answer: Answers, m: nat)
    requires |lists| <= |batch| && RetryQueue.Distinct(batch) && m < |batch|
    requires forall j :: 0 <= j < |batch| ==> batch[j] < |ns|
    ensures SendsOf(Turns(ns, batch, want, lists, answer), batch[m]) ==
      if m < |lists| && want(batch[m]) then lists[m] else []
  {
    if lists != [] {
      var n := |lists| - 1;
      SendsOfTurns(ns, batch, want, lists[..n], answer, m);
      SendsConcat(Turns(ns, batch, want, lists[..n], answer),
                  Turn(batch[n], ns[batch[n]].user, want(batch[n]), lists[n], answer), batch[m]);
      SendsOfTurn(batch[n], ns[batch[n]].user, want(batch[n]), lists[n], answer, batch[m]);
      assert m != n ==> batch[m] != batch[n];
    }
  }

  lemma {:induction false} ExchangesList(i: nat, ts: seq<Token>, answer: Answers)
    ensures forall e :: e in Exchanges(i, ts, answer) ==> !e.Listed?
  {
    if ts != [] { ExchangesList(i, ts[..|ts| - 1], answer); }
  }

  /** What is listed in a pass is listed for the recipient of the notification. */
  lemma {:induction false} ListedForRecipient(ns: seq<Notif>, batch: seq<nat>, want: nat -> bool, lists: seq<seq<Token>>, answer: Answers)
    requires |lists| <= |batch| && forall j :: 0 <= j < |batch| ==> batch[j] < |ns|
    ensures forall e :: e in Turns(ns, batch, want, lists, answer) && e.Listed? ==>
      e.notif in batch && e.notif < |ns| && e.user == ns[e.notif].user && want(e.notif)
  {
    if lists != [] {
      var m := |lists| - 1;
      ListedForRecipient(ns, batch, want, lists[..m], answer);
      ExchangesList(batch[m], lists[m], answer);
    }
  }
}
