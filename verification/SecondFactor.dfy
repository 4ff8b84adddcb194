/** Which 2FA requests get through, over every run: what the checks and the codes amount to. */
module SecondFactor {
  import opened BackupCodes

  // ---------- runs, read from their end ----------

  lemma {:induction false} RunSnoc(s: State, es: seq<Event>)
    requires es != []
    ensures Run(s, es) == Step(Run(s, es[..|es| - 1]), es[|es| - 1])
    decreases |es|
  {
    var n := |es| - 1;
    if n == 0 {
      assert es[1..] == [];
    } else {
      RunSnoc(Step(s, es[0]), es[1..]);
      assert es[1..][..n - 1] == es[..n][1..];
    }
  }

  lemma {:induction false} SuccessesSnoc(s: State, es: seq<Event>)
    requires es != []
    ensures Successes(s, es) == Successes(s, es[..|es| - 1]) + Accepted(Run(s, es[..|es| - 1]), es[|es| - 1])
    decreases |es|
  {
    var n := |es| - 1;
    if n == 0 {
      assert es[1..] == [];
    } else {
      var s', rest, front := Step(s, es[0]), es[1..], es[..n];
      SuccessesSnoc(s', rest);
      assert rest[..n - 1] == front[1..];
      Regroup(Accepted(s, es[0]), Successes(s', front[1..]), Accepted(Run(s', front[1..]), es[n]));
    }
  }

  lemma Regroup(a: seq<Success>, b: seq<Success>, c: seq<Success>)
    ensures a + b + c == a + (b + c)
  {
  }

  // ---------- who is accepted ----------

  /** This step answers a request's TOTP check with yes: a verification while 2FA is enabled
      with a secret, the second read of a disable that is past its password, or a confirmation
      of a secret that is not enabled yet. */
  predicate TotpAccepts(s: State, e: Event, r: Req) {
    || (e == StartVerify(r, true) && r !in s.requests && s.enabled && s.secret)
    || (e == ReadSecret(r, true) && InStage(s, r, Unlocked) && s.secret)
    || (e == StartConfirm(r, true) && r !in s.requests && s.secret && !s.enabled)
  }

  predicate CodeAccepts(s: State, e: Event, r: Req) {
    Accepted(s, e) != [] && e.req == r
  }

  predicate Through(s: State, r: Req) {
    InStage(s, r, Passed) || InStage(s, r, Done)
  }

  lemma ThroughStep(s: State, e: Event, r: Req)
    ensures Through(Step(s, e), r) <==> Through(s, r) || TotpAccepts(s, e, r) || CodeAccepts(s, e, r)
  {
  }

  predicate TotpAcceptsAt(es: seq<Event>, n: nat, r: Req) {
    n < |es| && TotpAccepts(Run(FRESH, es[..n]), es[n], r)
  }

  lemma {:induction false} ThroughIff(es: seq<Event>, r: Req)
    ensures Through(Run(FRESH, es), r) <==>
      (exists n: nat :: TotpAcceptsAt(es, n, r)) || (exists x :: x in Successes(FRESH, es) && x.req == r)
    decreases |es|
  {
    if es != [] {
      var n, front := |es| - 1, es[..|es| - 1];
      var t := Run(FRESH, front);
      ThroughIff(front, r);
      RunSnoc(FRESH, es);
      SuccessesSnoc(FRESH, es);
      ThroughStep(t, es[n], r);
      forall m: nat ensures TotpAcceptsAt(es, m, r) <==> TotpAcceptsAt(front, m, r) || (m == n && TotpAccepts(t, es[n], r)) {
        if m < n { assert front[..m] == es[..m]; }
      }
      if TotpAccepts(t, es[n], r) { assert TotpAcceptsAt(es, n, r); }
      if x :| x in Successes(FRESH, front) && x.req == r { assert x in Successes(FRESH, es); }
      if CodeAccepts(t, es[n], r) {
        assert Accepted(t, es[n])[0] in Successes(FRESH, es);
      }
    }
  }

  // ---------- a disable past its password ----------

  predicate UnlocksAt(es: seq<Event>, m: nat, r: Req) {
    && m < |es| && es[m] == StartDisable(r, true)
    && r !in Run(FRESH, es[..m]).requests && Run(FRESH, es[..m]).enabled
  }

  predicate ReadsAt(es: seq<Event>, k: nat, r: Req) {
    k < |es| && es[k].ReadSecret? && es[k].req == r
  }

  lemma UnlockedStep(s: State, e: Event, r: Req)
    ensures InStage(Step(s, e), r, Unlocked) <==>
      || (e == StartDisable(r, true) && r !in s.requests && s.enabled)
      || (InStage(s, r, Unlocked) && !(e.ReadSecret? && e.req == r))
  {
  }

  /** A request is past its password and before its second read exactly if it started as a
      disable with the right password while 2FA was enabled, and has not read since. */
  lemma {:induction false} UnlockedIff(es: seq<Event>, r: Req)
    ensures InStage(Run(FRESH, es), r, Unlocked) <==>
      exists m: nat :: UnlocksAt(es, m, r) && forall k: nat :: m < k ==> !ReadsAt(es, k, r)
    decreases |es|
  {
    if es != [] {
      var n, front := |es| - 1, es[..|es| - 1];
      UnlockedIff(front, r);
      RunSnoc(FRESH, es);
      UnlockedStep(Run(FRESH, front), es[n], r);
      forall m: nat | m < n ensures UnlocksAt(es, m, r) <==> UnlocksAt(front, m, r) { assert front[..m] == es[..m]; }
      forall k: nat ensures ReadsAt(es, k, r) <==> ReadsAt(front, k, r) || (k == n && es[n].ReadSecret? && es[n].req == r) {}
      if InStage(Run(FRESH, front), r, Unlocked) {
        var m: nat :| UnlocksAt(front, m, r) && forall k: nat :: m < k ==> !ReadsAt(front, k, r);
        assert UnlocksAt(es, m, r);
        if es[n].ReadSecret? && es[n].req == r { assert ReadsAt(es, n, r); }
      }
      if UnlocksAt(es, n, r) {
        assert forall k: nat :: n < k ==> !ReadsAt(es, k, r);
      }
      if InStage(Run(FRESH, es), r, Unlocked) && !InStage(Run(FRESH, front), r, Unlocked) {
        assert UnlocksAt(es, n, r);
      }
      if m: nat :| UnlocksAt(es, m, r) && forall k: nat :: m < k ==> !ReadsAt(es, k, r) {
        if m < n { assert forall k: nat :: m < k ==> !ReadsAt(front, k, r); }
        assert es[n].ReadSecret? && es[n].req == r ==> ReadsAt(es, n, r);
      }
    }
  }

  // ---------- the law ----------

  /** The n-th step answers this request's TOTP check with yes. */
  ghost predicate CheckedAt(es: seq<Event>, n: nat, r: Req) {
    && n < |es|
    && var t := Run(FRESH, es[..n]);
      || (es[n] == StartVerify(r, true) && r !in t.requests && t.enabled && t.secret)
      || (es[n] == ReadSecret(r, true) && t.secret
          && exists m: nat :: UnlocksAt(es[..n], m, r) && forall k: nat :: m < k ==> !ReadsAt(es[..n], k, r))
      || (es[n] == StartConfirm(r, true) && r !in t.requests && t.secret && !t.enabled)
  }

  /** Over every run a request is accepted (its own write still to come, done, or not needed) if
      and only if its TOTP check was answered with yes, a disable being past its password and
      2FA being enabled, or a backup code was accepted for it. */
  lemma AcceptedIff(es: seq<Event>, r: Req)
    ensures (r in Run(FRESH, es).requests && Run(FRESH, es).requests[r].stage in {Passed, Done}) <==>
      (exists n: nat :: CheckedAt(es, n, r)) || (exists x :: x in Successes(FRESH, es) && x.req == r)
  {
    ThroughIff(es, r);
    forall n: nat ensures CheckedAt(es, n, r) <==> TotpAcceptsAt(es, n, r) {
      if n < |es| { UnlockedIff(es[..n], r); }
    }
  }

  // ---------- what kind of request it is ----------

  /** A request is of the kind it started as. */
  lemma KindStays(s: State, e: Event, r: Req)
    ensures r in s.requests ==> r in Step(s, e).requests && Step(s, e).requests[r].kind == s.requests[r].kind
    ensures r !in s.requests && r in Step(s, e).requests ==>
      match Step(s, e).requests[r].kind
      case Verify => e.StartVerify? && e.req == r
      case Disable => e.StartDisable? && e.req == r
      case Confirm => e.StartConfirm? && e.req == r
  {
  }

  // ---------- the writes ----------

  /** What a step does to the user's row and codes: enabling is only by a confirmation's write;
      a new secret, disabled and with ten unused codes, is only by `enable`; removing both is
      only by an accepted disable's write. */
  lemma WritesAre(s: State, e: Event)
    ensures var renew := e.EnableWrite? && |e.hashes| == 10 && forall i, j :: 0 <= i < j < |e.hashes| ==> e.hashes[i] != e.hashes[j];
      var remove := e.DisableWrite? && Writing(s, e.req, Disable);
      var s' := Step(s, e);
      && (s'.enabled <==> (e.ConfirmWrite? && Writing(s, e.req, Confirm)) || (s.enabled && !renew && !remove))
      && (s'.secret <==> renew || (s.secret && !remove))
      && (renew ==> (forall h :: h in s'.codes <==> h in e.hashes) && forall h :: h in s'.codes ==> !s'.codes[h])
      && (remove ==> s'.codes == map[])
      && (!renew && !remove ==> s'.codes.Keys == s.codes.Keys)
  {
    if e.Consume? && Usable(s.codes, e.hash) { assert s.codes[e.hash := true].Keys == s.codes.Keys; }
  }

  lemma {:induction false} EraGrows(s: State, es: seq<Event>)
    ensures s.era <= Run(s, es).era
    decreases |es|
  {
    if es != [] { EraGrows(Step(s, es[0]), es[1..]); }
  }

  lemma UsableStep(s: State, e: Event, h: Hash)
    requires Step(s, e).era == s.era
    ensures Usable(Step(s, e).codes, h) <==> Usable(s.codes, h) && forall x :: x in Accepted(s, e) ==> x.hash != h
  {
    if e.Consume? && e.hash == h && Accepted(s, e) != [] { assert Accepted(s, e)[0] in Accepted(s, e); }
  }

  /** While no write replaces or removes the codes, a code stays usable exactly until it is
      accepted. */
  lemma {:induction false} UsableUntilAccepted(s: State, es: seq<Event>, h: Hash)
    requires Run(s, es).era == s.era
    ensures Usable(Run(s, es).codes, h) <==> Usable(s.codes, h) && forall x :: x in Successes(s, es) ==> x.hash != h
    decreases |es|
  {
    if es != [] {
      var s' := Step(s, es[0]);
      EraGrows(s', es[1..]);
      UsableStep(s, es[0], h);
      UsableUntilAccepted(s', es[1..], h);
      assert Successes(s, es) == Accepted(s, es[0]) + Successes(s', es[1..]);
    }
  }

  /** After `enable` the usable codes are the ten it stored, less those accepted since. */
  lemma UsableCodes(s: State, hashes: seq<Hash>, es: seq<Event>, h: Hash)
    requires |hashes| == 10 && Distinct(hashes)
    requires Run(Step(s, EnableWrite(hashes)), es).era == s.era + 1
    ensures var s1 := Step(s, EnableWrite(hashes));
      Usable(Run(s1, es).codes, h) <==> h in hashes && forall x :: x in Successes(s1, es) ==> x.hash != h
  {
    UsableUntilAccepted(Step(s, EnableWrite(hashes)), es, h);
  }
}
