/** The 2FA state and backup codes of one user, under any interleaving of the requests. Only the
    hash of a code is stored; what a TOTP check says is an arbitrary answer per request. */
module BackupCodes {
  datatype Hash = Hash(hex: string)

  type Req = nat

  const BACKUP_CODES := 10

  datatype Kind = Verify | Disable | Confirm

  /** Unlocked: a `disable` has passed its password check and is yet to read the secret.
      Checking: the TOTP code did not match and the backup code is yet to be tried.
      Passed: accepted, with a write still to come unless it only verifies. */
  datatype Stage = Unlocked | Checking | Passed | Done | Refused

  datatype Request = Request(kind: Kind, stage: Stage)

  /** `codes` says of each stored hash whether it is used; `era` counts the writes that
      replaced or removed the codes. */
  datatype State = State(enabled: bool, secret: bool, codes: map<Hash, bool>, era: nat, requests: map<Req, Request>)

  datatype Event =
    | EnableWrite(hashes: seq<Hash>)
    | StartConfirm(req: Req, totpOk: bool)
    | ConfirmWrite(req: Req)
    | StartVerify(req: Req, totpOk: bool)
    | StartDisable(req: Req, passwordOk: bool)
    | ReadSecret(req: Req, totpOk: bool)
    | Consume(req: Req, hash: Hash)
    | DisableWrite(req: Req)

  predicate Distinct(hashes: seq<Hash>) {
    forall i, j :: 0 <= i < j < |hashes| ==> hashes[i] != hashes[j]
  }

  function AllUnused(hashes: seq<Hash>): map<Hash, bool> {
    map h | h in hashes :: false
  }

  /** The row update succeeds: the code exists and is unused. */
  predicate Usable(codes: map<Hash, bool>, h: Hash) {
    h in codes && !codes[h]
  }

  predicate InStage(s: State, r: Req, stage: Stage) {
    r in s.requests && s.requests[r].stage == stage
  }

  /** A request of this kind that was accepted and has its write still to come. */
  predicate Writing(s: State, r: Req, kind: Kind) {
    InStage(s, r, Passed) && s.requests[r].kind == kind
  }

  /** Where the answer of the TOTP check takes a request; without a secret it fails. */
  function AfterCheck(s: State, totpOk: bool): Stage {
    if !s.secret then Refused else if totpOk then Passed else Checking
  }

  function Step(s: State, e: Event): State {
    match e
    case EnableWrite(hashes) =>
      if |hashes| != BACKUP_CODES || !Distinct(hashes) then s
      else s.(enabled := false, secret := true, codes := AllUnused(hashes), era := s.era + 1)
    case StartConfirm(r, totpOk) =>
      if r in s.requests then s
      else s.(requests := s.requests[r := Request(Confirm, if s.secret && !s.enabled && totpOk then Passed else Refused)])
    case ConfirmWrite(r) =>
      if !Writing(s, r, Confirm) then s
      else s.(enabled := true, requests := s.requests[r := Request(Confirm, Done)])
    case StartVerify(r, totpOk) =>
      if r in s.requests then s
      else s.(requests := s.requests[r := Request(Verify, if s.enabled then AfterCheck(s, totpOk) else Refused)])
    case StartDisable(r, passwordOk) =>
      if r in s.requests then s
      else s.(requests := s.requests[r := Request(Disable, if s.enabled && passwordOk then Unlocked else Refused)])
    case ReadSecret(r, totpOk) =>
      if !InStage(s, r, Unlocked) then s
      else s.(requests := s.requests[r := Request(s.requests[r].kind, AfterCheck(s, totpOk))])
    case Consume(r, h) =>
      if !InStage(s, r, Checking) then s
      else if Usable(s.codes, h) then
        s.(codes := s.codes[h := true], requests := s.requests[r := Request(s.requests[r].kind, Passed)])
      else s.(requests := s.requests[r := Request(s.requests[r].kind, Refused)])
    case DisableWrite(r) =>
      if !Writing(s, r, Disable) then s
      else s.(enabled := false, secret := false, codes := map[], era := s.era + 1,
              requests := s.requests[r := Request(Disable, Done)])
  }

  function Run(s: State, es: seq<Event>): State
    decreases |es|
  {
    if es == [] then s else Run(Step(s, es[0]), es[1..])
  }

  const FRESH := State(false, false, map[], 0, map[])

  // ---------- the table as the handlers change it ----------

  class CodeTable {
    var codes: map<Hash, bool>

    constructor ()
      ensures codes == map[]
    {
      codes := map[];
    }

    /** The transaction of `enable`: delete the old codes, insert the new ones, and leave
        everything as it was if two of them collide. */
    method Replace(hashes: seq<Hash>) returns (ok: bool)
      modifies this
      ensures ok <==> Distinct(hashes)
      ensures codes == if ok then AllUnused(hashes) else old(codes)
    {
      var tx: map<Hash, bool> := map[];
      var i := 0;
      while i < |hashes|
        invariant i <= |hashes| && Distinct(hashes[..i]) && tx == AllUnused(hashes[..i])
        invariant codes == old(codes)
      {
        if hashes[i] in tx {
          var j :| 0 <= j < i && hashes[..i][j] == hashes[i];
          assert hashes[j] == hashes[i];
          return false;
        }
        tx := tx[hashes[i] := false];
        assert hashes[..i + 1] == hashes[..i] + [hashes[i]];
        i := i + 1;
      }
      assert hashes[..i] == hashes;
      codes := tx;
      ok := true;
    }

    /** The writer job of `consume_backup`. */
    method ConsumeCode(h: Hash) returns (ok: bool)
      modifies this
      ensures ok <==> Usable(old(codes), h)
      ensures codes == if ok then old(codes)[h := true] else old(codes)
    {
      ok := h in codes && !codes[h];
      if ok { codes := codes[h := true]; }
    }
  }

  // ---------- successes ----------

  datatype Success = Success(req: Req, era: nat, hash: Hash)

  /** The backup codes a run accepts, in order. */
  function Successes(s: State, es: seq<Event>): seq<Success>
    decreases |es|
  {
    if es == [] then []
    else Accepted(s, es[0]) + Successes(Step(s, es[0]), es[1..])
  }

  function Accepted(s: State, e: Event): seq<Success> {
    if e.Consume? && InStage(s, e.req, Checking) && Usable(s.codes, e.hash) then [Success(e.req, s.era, e.hash)] else []
  }

  function UsedCodes(s: State): set<Hash> {
    set h | h in s.codes && s.codes[h]
  }

  /** `x` may still be accepted: it is of a later era, or of a code of this era that is still
      unused; and its request is not finished. */
  predicate Ahead(s: State, x: Success) {
    && (x.era > s.era || (x.era == s.era && Usable(s.codes, x.hash)))
    && (x.req !in s.requests || InStage(s, x.req, Checking) || InStage(s, x.req, Unlocked))
  }

  lemma AheadBefore(s: State, e: Event, x: Success)
    requires Ahead(Step(s, e), x)
    ensures Ahead(s, x)
  {
  }

  lemma {:induction false} LaterSuccess(s: State, es: seq<Event>, x: Success)
    requires x in Successes(s, es)
    ensures Ahead(s, x)
    decreases |es|
  {
    if x !in Accepted(s, es[0]) {
      LaterSuccess(Step(s, es[0]), es[1..], x);
      AheadBefore(s, es[0], x);
    }
  }

  /** Over every interleaving, each code of a batch is accepted at most once and each request
      has at most one code accepted. */
  lemma {:induction false} EachCodeOnceEachRequestOnce(s: State, es: seq<Event>, i: nat, j: nat)
    requires i < j < |Successes(s, es)|
    ensures var xs := Successes(s, es);
      xs[i].req != xs[j].req && !(xs[i].era == xs[j].era && xs[i].hash == xs[j].hash)
    decreases |es|
  {
    var now, s' := Accepted(s, es[0]), Step(s, es[0]);
    var later := Successes(s', es[1..]);
    if i < |now| {
      assert Successes(s, es)[j] == later[j - |now|];
      LaterSuccess(s', es[1..], later[j - |now|]);
    } else {
      EachCodeOnceEachRequestOnce(s', es[1..], i - |now|, j - |now|);
    }
  }

  /** A request whose TOTP code matched uses up no backup code. */
  lemma TotpSparesCodes(s: State, e: Event, future: seq<Event>)
    requires (e.StartVerify? && e.req !in s.requests) || (e.ReadSecret? && InStage(s, e.req, Unlocked))
    requires e.totpOk
    ensures forall x :: x in Successes(Step(s, e), future) ==> x.req != e.req
  {
    forall x | x in Successes(Step(s, e), future) ensures x.req != e.req { LaterSuccess(Step(s, e), future, x); }
  }

  // ---------- conservation ----------

  function InEra(xs: seq<Success>, era: nat): nat {
    if xs == [] then 0 else (if xs[0].era == era then 1 else 0) + InEra(xs[1..], era)
  }

  ghost predicate Full(s: State) {
    s.codes == map[] || |s.codes.Keys| == BACKUP_CODES
  }

  lemma {:induction false} DistinctCount(hashes: seq<Hash>)
    requires Distinct(hashes)
    ensures |set h | h in hashes| == |hashes|
  {
    if hashes != [] {
      var n := |hashes| - 1;
      DistinctCount(hashes[..n]);
      assert hashes[n] !in hashes[..n];
      assert (set h | h in hashes) == (set h | h in hashes[..n]) + {hashes[n]};
    }
  }

  lemma StepKeepsFull(s: State, e: Event)
    requires Full(s)
    ensures Full(Step(s, e))
  {
    match e {
      case EnableWrite(hashes) => if |hashes| == BACKUP_CODES && Distinct(hashes) {
          DistinctCount(hashes);
          assert AllUnused(hashes).Keys == set h | h in hashes;
        }
      case Consume(r, h) =>
        if Usable(s.codes, h) { assert s.codes[h := true].Keys == s.codes.Keys; }
      case _ =>
    }
  }

  lemma UsedStep(s: State, e: Event)
    ensures Step(s, e).era == s.era ==> |UsedCodes(Step(s, e))| == |UsedCodes(s)| + |Accepted(s, e)|
    ensures Step(s, e).era != s.era ==> Step(s, e).era == s.era + 1 && UsedCodes(Step(s, e)) == {} && Accepted(s, e) == []
  {
    var s' := Step(s, e);
    if e.Consume? && Accepted(s, e) != [] {
      assert UsedCodes(s') == UsedCodes(s) + {e.hash};
    } else if s'.era == s.era {
      assert UsedCodes(s') == UsedCodes(s);
    }
  }

  /** At every moment a batch has all its ten codes, and those used are exactly as many as
      the successes since the batch was written. */
  lemma {:induction false} CodesAreConserved(s: State, es: seq<Event>)
    requires Full(s)
    ensures Full(Run(s, es)) && Run(s, es).era >= s.era
    ensures |UsedCodes(Run(s, es))| == InEra(Successes(s, es), Run(s, es).era) + if Run(s, es).era == s.era then |UsedCodes(s)| else 0
    decreases |es|
  {
    if es != [] {
      var s' := Step(s, es[0]);
      StepKeepsFull(s, es[0]);
      UsedStep(s, es[0]);
      CodesAreConserved(s', es[1..]);
      if Accepted(s, es[0]) == [] {
        assert Successes(s, es) == Successes(s', es[1..]);
      } else {
        assert Successes(s, es)[1..] == Successes(s', es[1..]);
      }
    }
  }

  /** Unused plus used codes of a stored batch are ten. */
  lemma UnusedPlusUsed(s: State)
    requires Full(s) && s.codes != map[]
    ensures |set h | h in s.codes && !s.codes[h]| + |set h | h in s.codes && s.codes[h]| == 10
  {
    var unused := set h | h in s.codes && !s.codes[h];
    assert unused + UsedCodes(s) == s.codes.Keys;
  }

  // ---------- enabled means there is a secret ----------

  predicate SecretKept(s: State) { s.enabled ==> s.secret }

  /** A step breaks it precisely when a confirmation is written after the secret it was
      checked against has been removed. */
  lemma SecretLost(s: State, e: Event)
    requires SecretKept(s)
    ensures SecretKept(Step(s, e)) <==> !LosesSecret(s, e)
  {
  }

  predicate LosesSecret(s: State, e: Event) {
    e.ConfirmWrite? && Writing(s, e.req, Confirm) && !s.secret
  }

  /** Throughout a run 2FA is enabled only with a secret if and only if no confirmation is
      written while the secret is missing. */
  lemma {:induction false} SecretKeptThroughout(s: State, es: seq<Event>)
    requires SecretKept(s)
    ensures (forall n :: 0 <= n <= |es| ==> SecretKept(Run(s, es[..n])))
       <==> (forall n :: 0 <= n < |es| ==> !LosesSecret(Run(s, es[..n]), es[n]))
    decreases |es|
  {
    if es == [] {
      assert Run(s, es[..0]) == s;
    } else {
      var s', rest := Step(s, es[0]), es[1..];
      SecretLost(s, es[0]);
      assert Run(s, es[..0]) == s && Run(s', rest[..0]) == s';
      forall n | 0 <= n <= |rest| ensures Run(s, es[..n + 1]) == Run(s', rest[..n]) { assert es[..n + 1][1..] == rest[..n]; }
      if LosesSecret(s, es[0]) {
        assert !SecretKept(Run(s, es[..0 + 1]));
        assert LosesSecret(Run(s, es[..0]), es[0]);
      } else {
        SecretKeptThroughout(s', rest);
        RestOfRun(s, es);
      }
    }
  }

  /** A statement about every prefix of a run is one about its start and every prefix of the
      rest. */
  lemma RestOfRun(s: State, es: seq<Event>)
    requires es != []
    ensures var s', rest := Step(s, es[0]), es[1..];
      && ((forall n :: 0 <= n <= |es| ==> SecretKept(Run(s, es[..n])))
          <==> SecretKept(s) && forall n :: 0 <= n <= |rest| ==> SecretKept(Run(s', rest[..n])))
      && ((forall n :: 0 <= n < |es| ==> !LosesSecret(Run(s, es[..n]), es[n]))
          <==> !LosesSecret(s, es[0]) && forall n :: 0 <= n < |rest| ==> !LosesSecret(Run(s', rest[..n]), rest[n]))
  {
    var s', rest := Step(s, es[0]), es[1..];
    assert Run(s, es[..0]) == s;
    forall n | 0 <= n <= |rest| ensures Run(s, es[..n + 1]) == Run(s', rest[..n]) { assert es[..n + 1][1..] == rest[..n]; }
    forall n | 0 < n <= |es| ensures Run(s, es[..n]) == Run(s', rest[..n - 1]) { assert es[..n][1..] == rest[..n - 1]; }
    assert forall n :: 0 < n < |es| ==> es[n] == rest[n - 1];
    assert forall n :: 0 <= n < |rest| ==> rest[n] == es[n + 1];
  }

  predicate Active(s: State, r: Req) {
    r in s.requests && s.requests[r].stage in {Unlocked, Checking, Passed} && s.requests[r] != Request(Verify, Passed)
  }

  /** One request at a time: each starts (and `enable`, a single write, happens) only while no
      other is in progress. */
  ghost predicate OneAtATime(s: State, es: seq<Event>)
    decreases |es|
  {
    es == [] ||
    (&& (Starts(es[0]) ==> forall r :: !Active(s, r))
     && OneAtATime(Step(s, es[0]), es[1..]))
  }

  ghost predicate Alone(s: State) {
    && SecretKept(s)
    && (forall r, x :: Active(s, r) && Active(s, x) ==> r == x)
    && (forall r :: Writing(s, r, Confirm) ==> s.secret)
    && (forall r :: r in s.requests && s.requests[r].kind.Confirm? ==> s.requests[r].stage !in {Unlocked, Checking})
  }

  predicate Starts(e: Event) {
    e.EnableWrite? || e.StartVerify? || e.StartDisable? || e.StartConfirm?
  }

  lemma ActiveAfter(s: State, e: Event, r: Req)
    requires Starts(e) ==> forall x :: !Active(s, x)
    requires Active(Step(s, e), r)
    ensures if Starts(e) then !e.EnableWrite? && r == e.req else Active(s, r)
  {
    if Starts(e) { assert !Active(s, r); }
  }

  lemma AloneStep(s: State, e: Event)
    requires Alone(s)
    requires Starts(e) ==> forall r :: !Active(s, r)
    ensures Alone(Step(s, e))
  {
    var s' := Step(s, e);
    forall r, x | Active(s', r) && Active(s', x) ensures r == x {
      ActiveAfter(s, e, r);
      ActiveAfter(s, e, x);
    }
    forall r | Writing(s', r, Confirm) ensures s'.secret {
      assert Active(s', r);
      ActiveAfter(s, e, r);
      if !Starts(e) {
        assert Writing(s, r, Confirm);
        if e.DisableWrite? && Writing(s, e.req, Disable) { assert Active(s, e.req); }
      }
    }
    if e.ConfirmWrite? && Writing(s, e.req, Confirm) { assert s.secret; }
  }

  /** While one user's requests do not overlap, 2FA is never enabled without a secret. */
  lemma {:induction false} EnabledHasSecret(s: State, es: seq<Event>)
    requires Alone(s) && OneAtATime(s, es)
    ensures SecretKept(Run(s, es))
    decreases |es|
  {
    if es != [] {
      AloneStep(s, es[0]);
      EnabledHasSecret(Step(s, es[0]), es[1..]);
    }
  }

  /** Two confirmations that overlap, with a `disable` between their writes. */
  function Overlap(hashes: seq<Hash>): seq<Event> {
    [EnableWrite(hashes), StartConfirm(0, true), StartConfirm(1, true), ConfirmWrite(0),
     StartDisable(2, true), ReadSecret(2, true), DisableWrite(2), ConfirmWrite(1)]
  }

  lemma RunFour(s: State, es: seq<Event>)
    requires |es| >= 4
    ensures Run(s, es) == Run(Step(Step(Step(Step(s, es[0]), es[1]), es[2]), es[3]), es[4..])
  {
    var r1 := es[1..];
    var r2 := r1[1..];
    var r3 := r2[1..];
    assert r3[1..] == es[4..];
    assert Run(s, es) == Run(Step(s, es[0]), r1);
    assert Run(Step(s, es[0]), r1) == Run(Step(Step(s, es[0]), es[1]), r2);
  }

  /** Overlapping requests can leave 2FA enabled with no secret and no backup codes. */
  lemma OverlapLosesSecret(hashes: seq<Hash>)
    requires |hashes| == BACKUP_CODES && Distinct(hashes)
    ensures var s := Run(FRESH, Overlap(hashes)); s.enabled && !s.secret && s.codes == map[]
  {
    var es := Overlap(hashes);
    RunFour(FRESH, es);
    var mid := Step(Step(Step(Step(FRESH, es[0]), es[1]), es[2]), es[3]);
    assert mid.enabled && mid.secret && Writing(mid, 1, Confirm) && 2 !in mid.requests;
    RunFour(mid, es[4..]);
  }
}
