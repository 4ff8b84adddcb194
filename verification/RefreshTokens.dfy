/** Rotating refresh tokens. Revoking the presented token and storing its successor are two
    writer jobs, with anything in between. Hashes of fresh random tokens are taken to be new. */
module RefreshTokens {
  import opened Common

  datatype Hash = Hash(hex: string)
  type User = int

  /** The login a token descends from; the tables do not record it. */
  type Lineage = nat

  datatype Row = Row(user: User, lineage: Lineage, expiresAt: int, revoked: bool)

  /** A handler that has passed its check and is about to store a new token. */
  datatype Owed = Owed(user: User, lineage: Lineage)

  /** `logins` counts the logins so far; the next one starts lineage `logins`. */
  datatype State = State(rows: map<Hash, Row>, owed: seq<Owed>, logins: nat)

  datatype Event =
    | Login(user: User)
    | Present(hash: Hash, now: int)
    | Issue(i: nat, hash: Hash, expiresAt: int)
    | Logout(hash: Hash)

  /** A refresh with this token is accepted at this time. */
  predicate Accepts(rows: map<Hash, Row>, h: Hash, now: int) {
    h in rows && !rows[h].revoked && rows[h].expiresAt >= now
  }

  function Revoke(rows: map<Hash, Row>, h: Hash): map<Hash, Row> {
    if h in rows then rows[h := rows[h].(revoked := true)] else rows
  }

  function Step(s: State, e: Event): State {
    match e
    case Login(u) => s.(owed := s.owed + [Owed(u, s.logins)], logins := s.logins + 1)
    case Present(h, now) =>
      if !Accepts(s.rows, h, now) then s
      else s.(rows := Revoke(s.rows, h), owed := s.owed + [Owed(s.rows[h].user, s.rows[h].lineage)])
    case Issue(i, h, expiresAt) =>
      if i >= |s.owed| || h in s.rows then s
      else s.(rows := s.rows[h := Row(s.owed[i].user, s.owed[i].lineage, expiresAt, false)], owed := RemoveAt(s.owed, i))
    case Logout(h) => s.(rows := Revoke(s.rows, h))
  }

  function Run(s: State, es: seq<Event>): State
    decreases |es|
  {
    if es == [] then s else Run(Step(s, es[0]), es[1..])
  }

  const START := State(map[], [], 0)

  // ---------- the table as the handlers change it ----------

  class Store {
    var rows: map<Hash, Row>

    constructor ()
      ensures rows == map[]
    {
      rows := map[];
    }

    /** The writer job of `refresh`. */
    method RevokePresented(h: Hash, now: int) returns (ok: bool, user: User, lineage: Lineage)
      modifies this
      ensures ok <==> Accepts(old(rows), h, now)
      ensures ok ==> user == old(rows)[h].user && lineage == old(rows)[h].lineage
      ensures rows == if ok then Revoke(old(rows), h) else old(rows)
    {
      ok, user, lineage := false, 0, 0;
      if h !in rows { return; }
      var row := rows[h];
      if row.revoked || row.expiresAt < now { return; }
      rows := rows[h := row.(revoked := true)];
      ok, user, lineage := true, row.user, row.lineage;
    }

    /** The writer job of `issue_pair`. */
    method Insert(h: Hash, user: User, lineage: Lineage, expiresAt: int)
      requires h !in rows
      modifies this
      ensures rows == old(rows)[h := Row(user, lineage, expiresAt, false)]
    {
      rows := rows[h := Row(user, lineage, expiresAt, false)];
    }

    /** The writer job of `logout`. */
    method RevokeLive(h: Hash)
      modifies this
      ensures rows == Revoke(old(rows), h)
    {
      if h in rows && !rows[h].revoked {
        rows := rows[h := rows[h].(revoked := true)];
      }
    }
  }

  // ---------- one live token per login ----------

  function LiveOf(rows: map<Hash, Row>, l: Lineage): set<Hash> {
    set h | h in rows && rows[h].lineage == l && !rows[h].revoked
  }

  function OwedOf(owed: seq<Owed>, l: Lineage): nat {
    if owed == [] then 0 else (if owed[0].lineage == l then 1 else 0) + OwedOf(owed[1..], l)
  }

  /** Live tokens of a login plus rotations of it that have revoked and not re-issued. */
  function Held(s: State, l: Lineage): nat {
    |LiveOf(s.rows, l)| + OwedOf(s.owed, l)
  }

  lemma {:induction false} OwedConcat(a: seq<Owed>, b: seq<Owed>, l: Lineage)
    ensures OwedOf(a + b, l) == OwedOf(a, l) + OwedOf(b, l)
  {
    if a == [] {
      assert a + b == b;
    } else {
      OwedConcat(a[1..], b, l);
      assert (a + b)[1..] == a[1..] + b;
    }
  }

  lemma OwedRemoveAt(owed: seq<Owed>, i: nat, l: Lineage)
    requires i < |owed|
    ensures OwedOf(RemoveAt(owed, i), l) == OwedOf(owed, l) - if owed[i].lineage == l then 1 else 0
  {
    OwedConcat(owed[..i], owed[i + 1..], l);
    OwedConcat(owed[..i], [owed[i]] + owed[i + 1..], l);
    OwedConcat([owed[i]], owed[i + 1..], l);
    assert owed == owed[..i] + ([owed[i]] + owed[i + 1..]);
  }

  lemma RevokeLiveOf(rows: map<Hash, Row>, h: Hash, l: Lineage)
    ensures LiveOf(Revoke(rows, h), l) == LiveOf(rows, l) - {h}
  {
  }

  /** What one step does to a login's count. */
  function Change(s: State, e: Event, l: Lineage): int {
    match e
    case Login(_) => if l == s.logins then 1 else 0
    case Logout(h) => if h in LiveOf(s.rows, l) then -1 else 0
    case _ => 0
  }

  lemma HeldPresent(s: State, h: Hash, now: int, l: Lineage)
    requires Accepts(s.rows, h, now)
    ensures Held(Step(s, Present(h, now)), l) == Held(s, l)
  {
    OwedConcat(s.owed, [Owed(s.rows[h].user, s.rows[h].lineage)], l);
    RevokeLiveOf(s.rows, h, l);
  }

  lemma InsertLiveOf(rows: map<Hash, Row>, h: Hash, row: Row, l: Lineage)
    requires h !in rows && !row.revoked
    ensures |LiveOf(rows[h := row], l)| == |LiveOf(rows, l)| + if row.lineage == l then 1 else 0
  {
    assert LiveOf(rows[h := row], l) == if row.lineage == l then LiveOf(rows, l) + {h} else LiveOf(rows, l);
  }

  lemma HeldIssue(s: State, i: nat, h: Hash, expiresAt: int, l: Lineage)
    requires i < |s.owed| && h !in s.rows
    ensures Held(Step(s, Issue(i, h, expiresAt)), l) == Held(s, l)
  {
    OwedRemoveAt(s.owed, i, l);
    InsertLiveOf(s.rows, h, Row(s.owed[i].user, s.owed[i].lineage, expiresAt, false), l);
  }

  lemma HeldStep(s: State, e: Event, l: Lineage)
    ensures Held(Step(s, e), l) == Held(s, l) + Change(s, e, l)
  {
    match e {
      case Login(u) => OwedConcat(s.owed, [Owed(u, s.logins)], l);
      case Present(h, now) => if Accepts(s.rows, h, now) { HeldPresent(s, h, now, l); }
      case Issue(i, h, expiresAt) => if i < |s.owed| && h !in s.rows { HeldIssue(s, i, h, expiresAt, l); }
      case Logout(h) => RevokeLiveOf(s.rows, h, l);
    }
  }

  ghost predicate Inv(s: State) {
    forall l: Lineage :: Held(s, l) <= if l < s.logins then 1 else 0
  }

  lemma {:induction false} RunInv(s: State, es: seq<Event>)
    requires Inv(s)
    ensures Inv(Run(s, es))
    decreases |es|
  {
    if es != [] {
      var s' := Step(s, es[0]);
      forall l: Lineage ensures Held(s', l) <= if l < s'.logins then 1 else 0 {
        HeldStep(s, es[0], l);
        assert Held(s, l) <= if l < s.logins then 1 else 0;
      }
      RunInv(s', es[1..]);
    }
  }

  /** Over every interleaving of logins, refreshes, re-issues and logouts, a login holds at
      most one live token or one rotation in progress, never both. */
  lemma OneTokenPerLogin(es: seq<Event>, l: Lineage)
    ensures Held(Run(START, es), l) <= 1
  {
    forall k: Lineage ensures Held(START, k) == 0 { assert LiveOf(START.rows, k) == {}; }
    RunInv(START, es);
  }

  // ---------- each token is accepted once ----------

  function Acceptances(s: State, es: seq<Event>, h: Hash): nat
    decreases |es|
  {
    if es == [] then 0
    else (if es[0].Present? && es[0].hash == h && Accepts(s.rows, h, es[0].now) then 1 else 0)
         + Acceptances(Step(s, es[0]), es[1..], h)
  }

  lemma {:induction false} NoneOnceRevoked(s: State, es: seq<Event>, h: Hash)
    requires h in s.rows && s.rows[h].revoked
    ensures Acceptances(s, es, h) == 0
    decreases |es|
  {
    if es != [] { NoneOnceRevoked(Step(s, es[0]), es[1..], h); }
  }

  /** However many refreshes present one token, at most one is accepted. */
  lemma {:induction false} SingleUse(s: State, es: seq<Event>, h: Hash)
    ensures Acceptances(s, es, h) <= 1
    decreases |es|
  {
    if es != [] {
      var s' := Step(s, es[0]);
      if es[0].Present? && es[0].hash == h && Accepts(s.rows, h, es[0].now) {
        NoneOnceRevoked(s', es[1..], h);
      } else {
        SingleUse(s', es[1..], h);
      }
    }
  }

  lemma {:induction false} RowStays(s: State, es: seq<Event>, h: Hash)
    requires h in s.rows
    ensures var t := Run(s, es);
      && h in t.rows && t.rows[h] == s.rows[h].(revoked := t.rows[h].revoked)
      && (t.rows[h].revoked <==> s.rows[h].revoked || Acceptances(s, es, h) > 0 || Logout(h) in es)
    decreases |es|
  {
    if es != [] {
      RowStays(Step(s, es[0]), es[1..], h);
      assert es == [es[0]] + es[1..];
    }
  }

  /** A token that has been issued is accepted exactly until it expires, is accepted once or
      is logged out, whatever happens to all the others. */
  lemma AcceptedUntilUsed(s: State, i: nat, h: Hash, expiresAt: int, es: seq<Event>, now: int)
    requires i < |s.owed| && h !in s.rows
    ensures var s1 := Step(s, Issue(i, h, expiresAt));
      && Accepts(Run(s1, es).rows, h, now) <==> now <= expiresAt && Acceptances(s1, es, h) == 0 && Logout(h) !in es
    ensures var s1 := Step(s, Issue(i, h, expiresAt));
      h in Run(s1, es).rows && Run(s1, es).rows[h].user == s.owed[i].user
  {
    RowStays(Step(s, Issue(i, h, expiresAt)), es, h);
  }

  // ---------- logging out ----------

  lemma {:induction false} EndedStaysEnded(s: State, es: seq<Event>, l: Lineage)
    requires Held(s, l) == 0 && l < s.logins
    ensures Held(Run(s, es), l) == 0
    decreases |es|
  {
    if es != [] {
      HeldStep(s, es[0], l);
      EndedStaysEnded(Step(s, es[0]), es[1..], l);
    }
  }

  /** A logout leaves its login with no token and no rotation exactly when it presents the
      live token (or there was nothing to end): with a token that was rotated away, or while
      a rotation is in progress, the login goes on. Once ended, a login stays ended. */
  lemma LogoutEndsIffLive(past: seq<Event>, h: Hash, l: Lineage, future: seq<Event>)
    requires var s := Run(START, past); h in s.rows && s.rows[h].lineage == l
    ensures var s := Run(START, past);
      Held(Step(s, Logout(h)), l) == 0 <==> !s.rows[h].revoked || Held(s, l) == 0
    ensures var s := Run(START, past);
      Held(Step(s, Logout(h)), l) == 0 ==> Held(Run(Step(s, Logout(h)), future), l) == 0
  {
    var s := Run(START, past);
    OneTokenPerLogin(past, l);
    LineagesStarted(START, past);
    HeldStep(s, Logout(h), l);
    if !s.rows[h].revoked { assert h in LiveOf(s.rows, l); }
    if Held(Step(s, Logout(h)), l) == 0 {
      EndedStaysEnded(Step(s, Logout(h)), future, l);
    }
  }

  ghost predicate Started(s: State) {
    && (forall h :: h in s.rows ==> s.rows[h].lineage < s.logins)
    && (forall i :: 0 <= i < |s.owed| ==> s.owed[i].lineage < s.logins)
  }

  lemma {:induction false} LineagesStarted(s: State, es: seq<Event>)
    requires Started(s)
    ensures Started(Run(s, es))
    decreases |es|
  {
    if es != [] { LineagesStarted(Step(s, es[0]), es[1..]); }
  }

  // ---------- whose tokens they are ----------

  /** The user of the l-th login of a run. */
  function Logins(es: seq<Event>): seq<User> {
    if es == [] then []
    else if es[|es| - 1].Login? then Logins(es[..|es| - 1]) + [es[|es| - 1].user]
    else Logins(es[..|es| - 1])
  }

  lemma {:induction false} RunSnoc(s: State, es: seq<Event>)
    requires es != []
    ensures Run(s, es) == Step(Run(s, es[..|es| - 1]), es[|es| - 1])
    decreases |es|
  {
    var n := |es| - 1;
    if n == 0 {
      assert es[1..] == [];
    } else {
      RunSnoc(Step(s, es[0]), es[1..]);
      assert es[1..][..n - 1] == es[..n][1..];
    }
  }

  ghost predicate Belongs(s: State, users: seq<User>) {
    && s.logins == |users|
    && (forall h :: h in s.rows ==> s.rows[h].lineage < |users| && s.rows[h].user == users[s.rows[h].lineage])
    && (forall i :: 0 <= i < |s.owed| ==> s.owed[i].lineage < |users| && s.owed[i].user == users[s.owed[i].lineage])
  }

  lemma BelongsStep(s: State, users: seq<User>, e: Event)
    requires Belongs(s, users)
    ensures Belongs(Step(s, e), if e.Login? then users + [e.user] else users)
  {
  }

  /** Over every run each token, and each token still to be stored, belongs to the user who
      logged in at the start of its lineage. */
  lemma {:induction false} TokensBelongToLogin(es: seq<Event>)
    ensures Belongs(Run(START, es), Logins(es))
    decreases |es|
  {
    if es != [] {
      var n := |es| - 1;
      TokensBelongToLogin(es[..n]);
      RunSnoc(START, es);
      BelongsStep(Run(START, es[..n]), Logins(es[..n]), es[n]);
    }
  }
}
