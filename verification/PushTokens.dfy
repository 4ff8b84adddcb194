/** The push worker's dealings with FCM and the token table, as a log of everything that
    happened, and which logs are possible. */
module PushTokens {
  import opened Common
  import FcmError

  type Id = int
  type Token = int

  datatype TokenKey = TokenKey(user: Id, token: Token)

  datatype SendResult = Sent | SendFailed(msg: string)

  /** FCM says that the token is permanently dead. */
  predicate IsDead(r: SendResult) {
    r.SendFailed? && FcmError.IsDeadToken(FcmError.ParseStatus(r.msg))
  }

  /** Registered and Unregistered come from requests; the rest is the worker's: it lists a
      user's tokens for a notification, sends to one, is answered, turns one off. */
  datatype Event =
    | Registered(user: Id, token: Token)
    | Unregistered(user: Id, token: Token)
    | Listed(notif: nat, user: Id, tokens: seq<Token>)
    | Send(notif: nat, token: Token)
    | Answered(notif: nat, token: Token, result: SendResult)
    | Deactivated(token: Token)

  /** Where the worker is: the listed tokens it has yet to send to, the one it waits for, and
      those answered dead that it has yet to turn off. */
  datatype Phase = Phase(queue: seq<Token>, inFlight: Option<Token>, doomed: set<Token>)

  const IDLE := Phase([], None, {})

  /** `rows` says of each registration whether it is active. */
  datatype State = State(rows: map<TokenKey, bool>, phase: Phase)

  function Deactivate(rows: map<TokenKey, bool>, t: Token): map<TokenKey, bool> {
    map k | k in rows :: rows[k] && k.token != t
  }

  function Doom(doomed: set<Token>, t: Token, r: SendResult): set<Token> {
    if IsDead(r) then doomed + {t} else doomed
  }

  function Step(s: State, e: Event): State {
    match e
    case Registered(u, t) => s.(rows := s.rows[TokenKey(u, t) := true])
    case Unregistered(u, t) => s.(rows := s.rows - {TokenKey(u, t)})
    case Listed(_, _, ts) => s.(phase := s.phase.(queue := ts))
    case Send(_, t) =>
      s.(phase := s.phase.(queue := if s.phase.queue == [] then [] else s.phase.queue[1..], inFlight := Some(t)))
    case Answered(_, t, r) => s.(phase := s.phase.(inFlight := None, doomed := Doom(s.phase.doomed, t, r)))
    case Deactivated(t) => State(Deactivate(s.rows, t), s.phase.(doomed := s.phase.doomed - {t}))
  }

  predicate Active(rows: map<TokenKey, bool>, u: Id, t: Token) {
    TokenKey(u, t) in rows && rows[TokenKey(u, t)]
  }

  predicate Distinct(ts: seq<Token>) {
    forall i, j :: 0 <= i < j < |ts| ==> ts[i] != ts[j]
  }

  /** `ts` lists exactly the user's active tokens, each once. */
  ghost predicate Lists(rows: map<TokenKey, bool>, u: Id, ts: seq<Token>) {
    Distinct(ts) && forall t :: t in ts <==> Active(rows, u, t)
  }

  /** The worker lists the active tokens, and only when it is done with everything before; it
      sends to the listed ones in order and to no other, waiting for each answer. */
  ghost predicate Allowed(s: State, e: Event) {
    match e
    case Listed(_, u, ts) => s.phase == IDLE && Lists(s.rows, u, ts)
    case Send(_, t) => s.phase.queue != [] && s.phase.queue[0] == t && s.phase.inFlight == None
    case Answered(_, t, _) => s.phase.inFlight == Some(t)
    case _ => true
  }

  ghost predicate Legal(s: State, log: seq<Event>)
    decreases |log|
  {
    log == [] || (Allowed(s, log[0]) && Legal(Step(s, log[0]), log[1..]))
  }

  function Run(s: State, log: seq<Event>): State
    decreases |log|
  {
    if log == [] then s else Run(Step(s, log[0]), log[1..])
  }

  lemma {:induction false} RunAppend(s: State, log: seq<Event>, e: Event)
    requires Legal(s, log)
    ensures Run(s, log + [e]) == Step(Run(s, log), e)
    ensures Allowed(Run(s, log), e) ==> Legal(s, log + [e])
    decreases |log|
  {
    if log == [] {
      assert log + [e] == [e];
      assert [e][1..] == [];
    } else {
      assert (log + [e])[1..] == log[1..] + [e];
      RunAppend(Step(s, log[0]), log[1..], e);
    }
  }

  /** The worker's own part of a log. */
  function Own(log: seq<Event>): seq<Event> {
    if log == [] then []
    else
      var head, last := Own(log[..|log| - 1]), log[|log| - 1];
      if last.Registered? || last.Unregistered? then head else head + [last]
  }

  // ---------- dead tokens ----------

  predicate RegisteredBetween(log: seq<Event>, i: nat, j: nat, t: Token) {
    exists k :: i < k < j && k < |log| && log[k].Registered? && log[k].token == t
  }

  predicate DeadAt(log: seq<Event>, i: nat, t: Token) {
    i < |log| && log[i].Answered? && log[i].token == t && IsDead(log[i].result)
  }

  predicate SendAt(log: seq<Event>, j: nat, t: Token) {
    j < |log| && log[j].Send? && log[j].token == t
  }

  /** After a dead answer there is no send to that token, of any notification to any user,
      until somebody registers it again. */
  ghost predicate NoSendToDead(log: seq<Event>) {
    forall i: nat, j: nat, t: Token :: i < j && DeadAt(log, i, t) && SendAt(log, j, t) ==> RegisteredBetween(log, i, j, t)
  }

  /** `t` will not be sent to before somebody registers it. */
  ghost predicate Off(s: State, t: Token) {
    && t !in s.phase.queue && s.phase.inFlight != Some(t)
    && (t in s.phase.doomed || forall k :: k in s.rows && k.token == t ==> !s.rows[k])
  }

  lemma OffStep(s: State, e: Event, t: Token)
    requires Off(s, t) && Allowed(s, e) && !(e.Registered? && e.token == t)
    ensures Off(Step(s, e), t) && !(e.Send? && e.token == t)
  {
    if e.Send? {
      assert s.phase.queue[0] in s.phase.queue;
      assert forall x :: x in s.phase.queue[1..] ==> x in s.phase.queue;
    }
  }

  lemma {:induction false} OffUntilRegistered(s: State, log: seq<Event>, t: Token, j: nat)
    requires Legal(s, log) && Off(s, t) && j < |log|
    requires forall k :: 0 <= k < j ==> !(log[k].Registered? && log[k].token == t)
    ensures !SendAt(log, j, t)
    decreases j
  {
    if log[0].Registered? && log[0].token == t {
      assert j == 0;
    } else {
      OffStep(s, log[0], t);
      if j > 0 {
        assert forall k :: 0 <= k < j ==> log[1..][k] == log[k + 1];
        OffUntilRegistered(Step(s, log[0]), log[1..], t, j - 1);
      }
    }
  }

  /** The tokens still to be sent to are distinct, and the one in flight is not among them. */
  predicate Clean(s: State) {
    Distinct(s.phase.queue) && (s.phase.inFlight.Some? ==> s.phase.inFlight.value !in s.phase.queue)
  }

  lemma CleanStep(s: State, e: Event)
    requires Clean(s) && Allowed(s, e)
    ensures Clean(Step(s, e))
  {
    if e.Send? {
      var q := s.phase.queue;
      assert forall i :: 0 <= i < |q[1..]| ==> q[1..][i] == q[i + 1];
    }
  }

  lemma {:induction false} NotSentBetween(s: State, log: seq<Event>, t: Token, i: nat, j: nat)
    requires Clean(s) && Legal(s, log) && i < j < |log| && DeadAt(log, i, t)
    requires forall k :: i < k < j ==> !(log[k].Registered? && log[k].token == t)
    ensures !SendAt(log, j, t)
    decreases i
  {
    var rest := log[1..];
    assert forall k :: 0 <= k < |rest| ==> rest[k] == log[k + 1];
    CleanStep(s, log[0]);
    if i == 0 {
      OffUntilRegistered(Step(s, log[0]), rest, t, j - 1);
    } else {
      NotSentBetween(Step(s, log[0]), rest, t, i - 1, j - 1);
    }
  }

  /** Every possible log keeps away from dead tokens. */
  lemma DeadUntilRegistered(rows: map<TokenKey, bool>, log: seq<Event>)
    requires Legal(State(rows, IDLE), log)
    ensures NoSendToDead(log)
  {
    forall i: nat, j: nat, t: Token | i < j && DeadAt(log, i, t) && SendAt(log, j, t) ensures RegisteredBetween(log, i, j, t) {
      if !RegisteredBetween(log, i, j, t) {
        NotSentBetween(State(rows, IDLE), log, t, i, j);
        assert false;
      }
    }
  }

  // ---------- which tokens are active ----------

  /** The event makes this registration active. */
  predicate TurnsOn(e: Event, u: Id, t: Token) {
    e == Registered(u, t)
  }

  /** The event ends this registration or turns its token off. */
  predicate TurnsOff(e: Event, u: Id, t: Token) {
    e == Unregistered(u, t) || e == Deactivated(t)
  }

  lemma ActiveStep(s: State, e: Event, u: Id, t: Token)
    ensures Active(Step(s, e).rows, u, t) <==> TurnsOn(e, u, t) || (Active(s.rows, u, t) && !TurnsOff(e, u, t))
  {
  }

  /** Nothing from the k-th event on ends the registration. */
  predicate OnSince(log: seq<Event>, k: nat, u: Id, t: Token) {
    forall m :: k <= m < |log| ==> !TurnsOff(log[m], u, t)
  }

  /** A registration is active exactly if it was registered, again or for the first time, and
      has neither ended nor been turned off since; or was active before and never ended. */
  lemma {:induction false} ActiveIff(s: State, log: seq<Event>, u: Id, t: Token)
    ensures Active(Run(s, log).rows, u, t) <==>
      || (Active(s.rows, u, t) && OnSince(log, 0, u, t))
      || exists k: nat :: k < |log| && log[k] == Registered(u, t) && OnSince(log, k, u, t)
    decreases |log|
  {
    if log != [] {
      var s', rest := Step(s, log[0]), log[1..];
      ActiveStep(s, log[0], u, t);
      ActiveIff(s', rest, u, t);
      assert forall m :: 0 <= m < |rest| ==> rest[m] == log[m + 1];
      forall k: nat ensures OnSince(rest, k, u, t) <==> OnSince(log, k + 1, u, t) {
        if OnSince(rest, k, u, t) {
          forall m | k + 1 <= m < |log| ensures !TurnsOff(log[m], u, t) { assert rest[m - 1] == log[m]; }
        }
      }
      OnSinceHead(log, u, t);
      if k: nat :| k < |rest| && rest[k] == Registered(u, t) && OnSince(rest, k, u, t) {
        assert log[k + 1] == Registered(u, t) && OnSince(log, k + 1, u, t);
      }
      if k: nat :| k < |log| && log[k] == Registered(u, t) && OnSince(log, k, u, t) {
        if k > 0 { assert rest[k - 1] == Registered(u, t) && OnSince(rest, k - 1, u, t); }
      }
    }
  }

  lemma OnSinceHead(log: seq<Event>, u: Id, t: Token)
    requires log != []
    ensures OnSince(log, 0, u, t) <==> !TurnsOff(log[0], u, t) && OnSince(log, 1, u, t)
  {
  }

  // ---------- who is sent to ----------

  /** Every token still queued or in flight was listed for somebody as active. */
  ghost predicate ListedBy(s: State, log: seq<Event>, k: nat, n: nat, t: Token) {
    && k < n <= |log| && log[k].Listed? && t in log[k].tokens && Active(Run(s, log[..k]).rows, log[k].user, t)
  }

  ghost predicate QueueIsListed(s: State, log: seq<Event>, n: nat)
    requires n <= |log|
  {
    forall t :: t in Run(s, log[..n]).phase.queue ==> exists k: nat :: ListedBy(s, log, k, n, t)
  }

  lemma {:induction false} LegalPrefix(s: State, log: seq<Event>, n: nat)
    requires Legal(s, log) && n < |log|
    ensures Allowed(Run(s, log[..n]), log[n])
    ensures Run(s, log[..n + 1]) == Step(Run(s, log[..n]), log[n])
    decreases n
  {
    if n == 0 {
      assert log[..1][1..] == [];
      assert Run(s, log[..0]) == s;
      assert log[..1] == [log[0]];
    } else {
      LegalPrefix(Step(s, log[0]), log[1..], n - 1);
      assert log[..n][1..] == log[1..][..n - 1] && log[..n + 1][1..] == log[1..][..n];
    }
  }

  lemma {:induction false} QueueWasListed(s: State, log: seq<Event>, n: nat)
    requires Legal(s, log) && n <= |log| && s.phase.queue == []
    ensures QueueIsListed(s, log, n)
    decreases n
  {
    if n == 0 {
      assert log[..0] == [];
    } else {
      var before := Run(s, log[..n - 1]);
      QueueWasListed(s, log, n - 1);
      LegalPrefix(s, log, n - 1);
      forall t | t in Run(s, log[..n]).phase.queue ensures exists k: nat :: ListedBy(s, log, k, n, t) {
        if log[n - 1].Listed? {
          assert ListedBy(s, log, n - 1, n, t);
        } else {
          assert t in before.phase.queue;
          var k: nat :| ListedBy(s, log, k, n - 1, t);
          assert ListedBy(s, log, k, n, t);
        }
      }
    }
  }

  /** Every send goes to a token that, when it was listed, was an active token of the user it
      was listed for. */
  lemma SendsGoToListed(s: State, log: seq<Event>, n: nat)
    requires Legal(s, log) && n < |log| && s.phase.queue == [] && log[n].Send?
    ensures exists k: nat :: ListedBy(s, log, k, n, log[n].token)
  {
    QueueWasListed(s, log, n);
    LegalPrefix(s, log, n);
    var q := Run(s, log[..n]).phase.queue;
    assert q[0] in q;
  }
}
