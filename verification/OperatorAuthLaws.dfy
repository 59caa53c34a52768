/** What every run of requests keeps, and what it cannot do. */
module OperatorAuthLaws {
  import opened Common
  import opened OperatorAuth

  // ---------------------------------------------------------------------
  // The invariant
  // ---------------------------------------------------------------------

  ghost predicate UserOK(u: User, clock: nat) {
    && (u.enrolled ==> u.secret != "")
    && 0 <= u.failed < MAX_FAILED
    && u.lastStep <= TimeStep(clock)
  }

  ghost predicate UsersOK(t: Tables, clock: nat) {
    forall id :: id in t.users ==> id < t.nextUser && UserOK(t.users[id], clock)
  }

  // A session is of a user who is there, not disabled, and enrolled if it is through.
  ghost predicate SessionOK(t: Tables, s: Session) {
    && s.user in t.users && !t.users[s.user].disabled
    && (s.mfaOK ==> t.users[s.user].enrolled)
  }

  ghost predicate SessionsOK(t: Tables) {
    forall sid :: sid in t.sessions ==> SessionOK(t, t.sessions[sid])
  }

  // Only enrolled users have recovery codes.
  ghost predicate CodesOK(t: Tables) {
    forall c :: c in t.codes ==> c.user in t.users && t.users[c.user].enrolled
  }

  ghost predicate Inv(t: Tables, clock: nat) {
    UsersOK(t, clock) && SessionsOK(t) && CodesOK(t) && Unique(t)
  }

  lemma {:induction false} SpendKeepsUsers(codes: seq<Code>, id: int, hash: string, now: int)
    ensures forall c :: c in Spend(codes, id, hash, now) ==> exists d :: d in codes && d.user == c.user
  {
    if codes != [] {
      SpendKeepsUsers(codes[1..], id, hash, now);
      forall c | c in Spend(codes, id, hash, now) ensures exists d :: d in codes && d.user == c.user {
        if c in Spend(codes[1..], id, hash, now) {
          var d :| d in codes[1..] && d.user == c.user;
          assert d in codes;
        } else {
          assert codes[0] in codes && codes[0].user == c.user;
        }
      }
    }
  }

  lemma {:induction false} OthersAreKept(codes: seq<Code>, id: int)
    ensures forall c :: c in CodesOfOthers(codes, id) <==> c in codes && c.user != id
  {
    if codes != [] { OthersAreKept(codes[1..], id); }
  }

  lemma {:induction false} IssuedAreOwn(id: int, hashes: seq<string>)
    ensures forall c :: c in Issue(id, hashes) ==> c.user == id && c.usedAt == 0
  {
    if hashes != [] { IssuedAreOwn(id, hashes[1..]); }
  }

  lemma TriedKeeps(t: Tables, k: Checks, now: nat, id: int, password: string)
    requires Inv(t, now) && id in t.users
    ensures Inv(Tried(t, k, now, id, password), now)
  {
  }

  lemma LookedUpKeeps(t: Tables, now: nat, sid: string)
    requires Inv(t, now)
    ensures Inv(LookedUp(t, now, sid), now)
  {
  }

  lemma OpenedKeeps(t: Tables, now: nat, sid: string, id: int)
    requires Inv(t, now) && id in t.users && !t.users[id].disabled
    ensures Inv(Opened(t, now, sid, id), now)
  {
  }

  lemma BegunKeeps(t: Tables, now: nat, id: int, newSecret: string)
    requires Inv(t, now) && id in t.users && !t.users[id].enrolled
    ensures Inv(Begun(t, id, newSecret), now)
  {
  }

  lemma EnrolledKeeps(t: Tables, k: Checks, now: nat, id: int, codes: seq<string>)
    requires Inv(t, now) && id in t.users && t.users[id].secret != ""
    ensures Inv(Enrolled(t, k, now, id, codes), now)
  {
    OthersAreKept(t.codes, id);
    IssuedAreOwn(id, Hashes(k, codes));
  }

  lemma PresentedKeeps(t: Tables, k: Checks, now: nat, id: int, code: string)
    requires Inv(t, now) && id in t.users
    ensures Inv(Presented(t, k, now, id, code), now)
  {
    SpendKeepsUsers(t.codes, id, k.hash(code), now);
  }

  lemma SignedInKeeps(t: Tables, now: nat, sid: string, id: int)
    requires Inv(t, now) && id in t.users && t.users[id].enrolled && (sid in t.sessions ==> t.sessions[sid].user == id)
    ensures Inv(SignedIn(t, now, sid, id), now)
  {
  }

  lemma ResetKeeps(t: Tables, now: nat, id: int)
    requires Inv(t, now)
    ensures Inv(Reset(t, id), now)
  {
    OthersAreKept(t.codes, id);
  }

  lemma WithDisabledKeeps(t: Tables, now: nat, id: int, disabled: bool)
    requires Inv(t, now)
    ensures Inv(WithDisabled(t, id, disabled), now)
  {
  }

  lemma AddedKeeps(t: Tables, now: nat, name: string, pass: string, policy: bool, role: string)
    requires Inv(t, now) && MayAdd(t, name, policy, role)
    ensures Inv(Added(t, name, pass, role), now)
  {
  }

  lemma PruneKeeps(t: Tables, now: nat)
    requires Inv(t, now)
    ensures Inv(t.(sessions := Unexpired(t, now)), now)
  {
  }

  lemma LaterIsFine(t: Tables, clock: nat, now: nat)
    requires Inv(t, clock) && clock <= now
    ensures Inv(t, now)
  {
    assert TimeStep(clock) <= TimeStep(now);
  }

  lemma NextKeeps(t: Tables, k: Checks, now: nat, r: Request)
    requires Inv(t, now)
    ensures Inv(Next(t, k, now, r), now)
  {
    match r
    case Login(name, password, newSid) =>
      if Who(t, name).Some? {
        var id := Who(t, name).value;
        TriedKeeps(t, k, now, id, password);
        if PasswordOK(t, k, now, id, password) { OpenedKeeps(Tried(t, k, now, id, password), now, newSid, id); }
      }
    case Logout(sid) =>
    case Look(sid) => LookedUpKeeps(t, now, sid);
    case Setup(sid, newSecret) =>
      LookedUpKeeps(t, now, sid);
      if Live(t, now, sid) && !t.users[Owner(t, sid)].enrolled { BegunKeeps(t, now, Owner(t, sid), newSecret); }
    case Confirm(sid, code, codes) =>
      LookedUpKeeps(t, now, sid);
      if Live(t, now, sid) && EnrolmentOK(t, k, now, Owner(t, sid), code) {
        EnrolledKeeps(t, k, now, Owner(t, sid), codes);
        SignedInKeeps(Enrolled(t, k, now, Owner(t, sid), codes), now, sid, Owner(t, sid));
      }
    case Verify(sid, code) =>
      LookedUpKeeps(t, now, sid);
      if Live(t, now, sid) {
        PresentedKeeps(t, k, now, Owner(t, sid), code);
        if !SecondFactor(t, k, now, Owner(t, sid), code).Refused? {
          SignedInKeeps(Presented(t, k, now, Owner(t, sid), code), now, sid, Owner(t, sid));
        }
      }
    case CreateUser(sid, name, pass, policy, role) =>
      LookedUpKeeps(t, now, sid);
      if MayAdd(t, name, policy, role) { AddedKeeps(t, now, name, pass, policy, role); }
    case Bootstrap(name, pass, policy) =>
      if MayAdd(t, name, policy, "admin") { AddedKeeps(t, now, name, pass, policy, "admin"); }
    case ResetMFA(sid, id) =>
      LookedUpKeeps(t, now, sid);
      ResetKeeps(t, now, id);
    case Disable(sid, id, disabled) =>
      LookedUpKeeps(t, now, sid);
      WithDisabledKeeps(t, now, id, disabled);
    case Prune => PruneKeeps(t, now);
  }

  // ---------------------------------------------------------------------
  // Runs
  // ---------------------------------------------------------------------

  datatype Event = Event(now: nat, r: Request)

  // The clock does not go back.
  ghost predicate Ticking(clock: nat, run: seq<Event>)
    decreases |run|
  {
    run == [] || (clock <= run[0].now && Ticking(run[0].now, run[1..]))
  }

  ghost function After(t: Tables, k: Checks, run: seq<Event>): Tables
    decreases |run|
  {
    if run == [] then t else After(Next(t, k, run[0].now, run[0].r), k, run[1..])
  }

  ghost function Last(clock: nat, run: seq<Event>): nat {
    if run == [] then clock else run[|run| - 1].now
  }

  /** Over every run: an enrolled user has a secret, a session that is through is of an
      enrolled user, no session is of a disabled user, and the failed logins stored
      stay below the limit. */
  lemma {:induction false} EveryRunKeeps(t: Tables, k: Checks, clock: nat, run: seq<Event>)
    requires Inv(t, clock) && Ticking(clock, run)
    ensures Inv(After(t, k, run), Last(clock, run))
    decreases |run|
  {
    if run != [] {
      var now := run[0].now;
      LaterIsFine(t, clock, now);
      NextKeeps(t, k, now, run[0].r);
      EveryRunKeeps(Next(t, k, now, run[0].r), k, now, run[1..]);
    }
  }

  /** Whoever administers has presented a second factor and is enrolled. */
  lemma AdminsAreEnrolled(t: Tables, clock: nat, now: nat, sid: string)
    requires Inv(t, clock) && Admin(t, now, sid)
    ensures var u := t.users[Owner(t, sid)];
            u.enrolled && u.secret != "" && !u.disabled && u.role == "admin" && now <= t.sessions[sid].expires
  {
    assert SessionOK(t, t.sessions[sid]);
  }

  /** What the guard of the setup handler is for: beginning an enrolment keeps the
      invariant exactly when the user is not enrolled, or has nothing that relies on it. */
  lemma GuardIsNeeded(t: Tables, clock: nat, id: int, newSecret: string)
    requires Inv(t, clock) && id in t.users
    ensures Inv(Begun(t, id, newSecret), clock) <==>
              (t.users[id].enrolled ==>
                 && (forall sid :: sid in t.sessions ==> !(t.sessions[sid].user == id && t.sessions[sid].mfaOK))
                 && (forall c :: c in t.codes ==> c.user != id))
  {
    var b := Begun(t, id, newSecret);
    if t.users[id].enrolled {
      forall sid | sid in t.sessions && t.sessions[sid].user == id && t.sessions[sid].mfaOK ensures !Inv(b, clock) {
        assert !SessionOK(b, b.sessions[sid]);
      }
    }
  }

  // ---------------------------------------------------------------------
  // One TOTP per time step
  // ---------------------------------------------------------------------

  // Verify lets user id through with this factor.
  ghost predicate Accepts(t: Tables, k: Checks, e: Event, id: int, how: Factor) {
    && e.r.Verify? && Live(t, e.now, e.r.sid) && Owner(t, e.r.sid) == id
    && SecondFactor(t, k, e.now, id, e.r.code) == how
  }

  // The time steps in which a TOTP of user id is accepted.
  ghost function AcceptedSteps(t: Tables, k: Checks, run: seq<Event>, id: int): seq<int>
    decreases |run|
  {
    if run == [] then []
    else (if Accepts(t, k, run[0], id, ByTOTP) then [TimeStep(run[0].now)] else [])
         + AcceptedSteps(Next(t, k, run[0].now, run[0].r), k, run[1..], id)
  }

  ghost predicate NoReset(run: seq<Event>, id: int) {
    forall e :: e in run ==> !(e.r.ResetMFA? && e.r.id == id)
  }

  ghost predicate Rising(s: seq<int>) {
    forall i, j :: 0 <= i < j < |s| ==> s[i] < s[j]
  }

  // User id is there and the last step has not fallen.
  ghost predicate StepsOn(t: Tables, t': Tables, id: int) {
    id in t.users && id in t'.users && t.users[id].lastStep <= t'.users[id].lastStep
  }

  lemma VerifySteps(t: Tables, k: Checks, now: nat, sid: string, code: string, id: int)
    requires id in t.users
    ensures var t' := Next(t, k, now, Verify(sid, code));
            && StepsOn(t, t', id)
            && (Accepts(t, k, Event(now, Verify(sid, code)), id, ByTOTP) ==>
                  t.users[id].lastStep < TimeStep(now) == t'.users[id].lastStep)
  {
  }

  lemma ConfirmSteps(t: Tables, k: Checks, now: nat, sid: string, code: string, codes: seq<string>, id: int)
    requires id in t.users && t.users[id].lastStep <= TimeStep(now)
    ensures StepsOn(t, Next(t, k, now, Confirm(sid, code, codes)), id)
  {
  }

  lemma OthersStep(t: Tables, k: Checks, now: nat, r: Request, id: int)
    requires id in t.users && id < t.nextUser && !r.Verify? && !r.Confirm? && !(r.ResetMFA? && r.id == id)
    ensures StepsOn(t, Next(t, k, now, r), id)
  {
  }

  // Only a reset lowers the last step; an accepted TOTP raises it to its own.
  lemma LastStepRises(t: Tables, k: Checks, now: nat, r: Request, id: int)
    requires Inv(t, now) && id in t.users && !(r.ResetMFA? && r.id == id)
    ensures var t' := Next(t, k, now, r);
            && StepsOn(t, t', id)
            && (Accepts(t, k, Event(now, r), id, ByTOTP) ==>
                  t.users[id].lastStep < TimeStep(now) == t'.users[id].lastStep)
  {
    assert UserOK(t.users[id], now);
    match r
    case Verify(sid, code) => VerifySteps(t, k, now, sid, code, id);
    case Confirm(sid, code, codes) => ConfirmSteps(t, k, now, sid, code, codes, id);
    case _ => OthersStep(t, k, now, r, id);
  }

  /** Between resets the TOTPs accepted for a user are of strictly rising time steps:
      one at most in each. */
  lemma {:induction false} OneTOTPPerStep(t: Tables, k: Checks, clock: nat, run: seq<Event>, id: int)
    requires Inv(t, clock) && Ticking(clock, run) && id in t.users && NoReset(run, id)
    ensures Rising(AcceptedSteps(t, k, run, id))
    ensures forall s :: s in AcceptedSteps(t, k, run, id) ==> s > t.users[id].lastStep
    decreases |run|
  {
    if run != [] {
      var e, t' := run[0], Next(t, k, run[0].now, run[0].r);
      LaterIsFine(t, clock, e.now);
      assert e in run;
      LastStepRises(t, k, e.now, e.r, id);
      NextKeeps(t, k, e.now, e.r);
      OneTOTPPerStep(t', k, e.now, run[1..], id);
      var rest := AcceptedSteps(t', k, run[1..], id);
      assert forall i :: 0 <= i < |rest| ==> rest[i] in rest;
    }
  }

  // ---------------------------------------------------------------------
  // One use of a recovery code
  // ---------------------------------------------------------------------

  // How often a recovery code with this hash lets user id in.
  ghost function Recoveries(t: Tables, k: Checks, run: seq<Event>, id: int, hash: string): nat
    decreases |run|
  {
    if run == [] then 0
    else (if Accepts(t, k, run[0], id, ByRecovery) && k.hash(run[0].r.code) == hash then 1 else 0)
         + Recoveries(Next(t, k, run[0].now, run[0].r), k, run[1..], id, hash)
  }

  // The request completes an enrolment of user id, which issues new codes.
  ghost predicate Issues(t: Tables, k: Checks, now: nat, r: Request, id: int) {
    r.Confirm? && Live(t, now, r.sid) && Owner(t, r.sid) == id && EnrolmentOK(t, k, now, id, r.code)
  }

  // No enrolment of user id is completed.
  ghost predicate NoIssue(t: Tables, k: Checks, run: seq<Event>, id: int)
    decreases |run|
  {
    run == [] ||
    (&& !Issues(t, k, run[0].now, run[0].r, id)
     && NoIssue(Next(t, k, run[0].now, run[0].r), k, run[1..], id))
  }

  lemma {:induction false} SpendMatches(codes: seq<Code>, id: int, hash: string, now: int, id': int, hash': string)
    requires now > 0
    ensures Matches(Spend(codes, id, hash, now), id', hash')
         == if id == id' && hash == hash' then 0 else Matches(codes, id', hash')
  {
    if codes != [] {
      SpendMatches(codes[1..], id, hash, now, id', hash');
      assert Spend(codes, id, hash, now)[1..] == Spend(codes[1..], id, hash, now);
    }
  }

  lemma {:induction false} MatchesAppend(a: seq<Code>, b: seq<Code>, id: int, hash: string)
    ensures Matches(a + b, id, hash) == Matches(a, id, hash) + Matches(b, id, hash)
  {
    if a == [] {
      assert a + b == b;
    } else {
      MatchesAppend(a[1..], b, id, hash);
      assert (a + b)[1..] == a[1..] + b;
    }
  }

  lemma {:induction false} NoneOfOthers(codes: seq<Code>, id: int, hash: string)
    requires forall c :: c in codes ==> c.user != id
    ensures Matches(codes, id, hash) == 0
  {
    if codes != [] { NoneOfOthers(codes[1..], id, hash); }
  }

  lemma {:induction false} OthersMatch(codes: seq<Code>, gone: int, id: int, hash: string)
    ensures Matches(CodesOfOthers(codes, gone), id, hash) == if gone == id then 0 else Matches(codes, id, hash)
  {
    if codes != [] {
      OthersMatch(codes[1..], gone, id, hash);
      if codes[0].user != gone {
        assert CodesOfOthers(codes, gone)[1..] == CodesOfOthers(codes[1..], gone);
      } else {
        assert CodesOfOthers(codes, gone) == CodesOfOthers(codes[1..], gone);
      }
    }
  }

  lemma EnrolledMatches(t: Tables, k: Checks, now: nat, other: int, codes: seq<string>, id: int, hash: string)
    requires other in t.users && other != id
    ensures Matches(Enrolled(t, k, now, other, codes).codes, id, hash) == Matches(t.codes, id, hash)
  {
    var issued := Issue(other, Hashes(k, codes));
    IssuedAreOwn(other, Hashes(k, codes));
    NoneOfOthers(issued, id, hash);
    OthersMatch(t.codes, other, id, hash);
    MatchesAppend(CodesOfOthers(t.codes, other), issued, id, hash);
  }

  // Without new codes the unused ones with this hash never become more, and
  // presenting it as a recovery code leaves none.
  lemma NextMatches(t: Tables, k: Checks, now: nat, r: Request, id: int, hash: string)
    requires now > 0
    requires !Issues(t, k, now, r, id)
    ensures var t' := Next(t, k, now, r);
            && (Matches(t'.codes, id, hash) == Matches(t.codes, id, hash) || Matches(t'.codes, id, hash) == 0)
            && (Accepts(t, k, Event(now, r), id, ByRecovery) && k.hash(r.code) == hash ==>
                  Matches(t.codes, id, hash) == 1 && Matches(t'.codes, id, hash) == 0)
  {
    match r
    case Confirm(sid, code, codes) =>
      if Live(t, now, sid) && Owner(t, sid) != id { EnrolledMatches(t, k, now, Owner(t, sid), codes, id, hash); }
    case Verify(sid, code) =>
      if Live(t, now, sid) { SpendMatches(t.codes, Owner(t, sid), k.hash(code), now, id, hash); }
    case ResetMFA(sid, gone) => OthersMatch(t.codes, gone, id, hash);
    case _ =>
  }

  /** However often it is presented, a recovery code lets its user in at most once, and
      not at all unless exactly one unused code has its hash. */
  lemma {:induction false} RecoveryIsOnce(t: Tables, k: Checks, clock: nat, run: seq<Event>, id: int, hash: string)
    requires clock > 0 && Ticking(clock, run) && NoIssue(t, k, run, id)
    ensures Recoveries(t, k, run, id, hash) <= if Matches(t.codes, id, hash) == 1 then 1 else 0
    decreases |run|
  {
    if run != [] {
      var e := run[0];
      NextMatches(t, k, e.now, e.r, id, hash);
      RecoveryIsOnce(Next(t, k, e.now, e.r), k, e.now, run[1..], id, hash);
    }
  }

  // ---------------------------------------------------------------------
  // Guessing passwords
  // ---------------------------------------------------------------------

  // A login that has user id's password checked, and finds it wrong or right.
  ghost predicate Guesses(t: Tables, k: Checks, e: Event, id: int, right: bool) {
    && e.r.Login? && Who(t, e.r.name) == Some(id) && id in t.users
    && MayTry(t.users[id], e.now) && k.pass(e.r.password, t.users[id].pass) == right
  }

  // Wrong guesses evaluated in t1..t2.
  ghost function WrongGuesses(t: Tables, k: Checks, run: seq<Event>, id: int, t1: int, t2: int): nat
    decreases |run|
  {
    if run == [] then 0
    else (if Guesses(t, k, run[0], id, false) && t1 <= run[0].now <= t2 then 1 else 0)
         + WrongGuesses(Next(t, k, run[0].now, run[0].r), k, run[1..], id, t1, t2)
  }

  // The right password is not presented in t1..t2.
  ghost predicate NeverRight(t: Tables, k: Checks, run: seq<Event>, id: int, t1: int, t2: int)
    decreases |run|
  {
    run == [] ||
    (&& !(Guesses(t, k, run[0], id, true) && t1 <= run[0].now <= t2)
     && NeverRight(Next(t, k, run[0].now, run[0].r), k, run[1..], id, t1, t2))
  }

  // User id has the same count of failures and lock.
  ghost predicate SameFailures(t: Tables, t': Tables, id: int) {
    && id in t.users && id in t'.users
    && t'.users[id].failed == t.users[id].failed && t'.users[id].lockedUntil == t.users[id].lockedUntil
  }

  lemma SecondFactorKeepsFailures(t: Tables, k: Checks, now: nat, sid: string, code: string,
                                  codes: seq<string>, id: int)
    requires id in t.users
    ensures SameFailures(t, Next(t, k, now, Verify(sid, code)), id)
    ensures SameFailures(t, Next(t, k, now, Confirm(sid, code, codes)), id)
  {
  }

  lemma AdministrationKeepsFailures(t: Tables, k: Checks, now: nat, r: Request, id: int)
    requires id in t.users && id < t.nextUser && (r.CreateUser? || r.Bootstrap? || r.ResetMFA? || r.Disable?)
    ensures SameFailures(t, Next(t, k, now, r), id)
  {
  }

  lemma OthersKeepFailures(t: Tables, k: Checks, now: nat, r: Request, id: int)
    requires id in t.users && id < t.nextUser && !r.Login?
    ensures SameFailures(t, Next(t, k, now, r), id)
  {
    match r
    case Verify(sid, code) => SecondFactorKeepsFailures(t, k, now, sid, code, [], id);
    case Confirm(sid, code, codes) => SecondFactorKeepsFailures(t, k, now, sid, code, codes, id);
    case CreateUser(_, _, _, _, _) => AdministrationKeepsFailures(t, k, now, r, id);
    case Bootstrap(_, _, _) => AdministrationKeepsFailures(t, k, now, r, id);
    case ResetMFA(_, _) => AdministrationKeepsFailures(t, k, now, r, id);
    case Disable(_, _, _) => AdministrationKeepsFailures(t, k, now, r, id);
    case _ =>
  }

  // What one request does to a user's count of failures and lock.
  lemma NextFailures(t: Tables, k: Checks, now: nat, r: Request, id: int)
    requires Inv(t, now) && id in t.users
    ensures var u, t' := t.users[id], Next(t, k, now, r);
            && id in t'.users
            && var u' := t'.users[id];
               if Guesses(t, k, Event(now, r), id, false) then
                 u'.failed == Failed(u, now).failed && u'.lockedUntil == Failed(u, now).lockedUntil
               else if Guesses(t, k, Event(now, r), id, true) then u'.failed == 0 && u'.lockedUntil == 0
               else SameFailures(t, t', id)
  {
    if !r.Login? { OthersKeepFailures(t, k, now, r, id); }
  }

  lemma {:induction false} LockedOut(t: Tables, k: Checks, clock: nat, run: seq<Event>, id: int, t1: int, t2: int)
    requires Inv(t, clock) && Ticking(clock, run) && id in t.users
    requires t.users[id].lockedUntil > t2
    ensures WrongGuesses(t, k, run, id, t1, t2) == 0
    decreases |run|
  {
    if run != [] {
      var e, t' := run[0], Next(t, k, run[0].now, run[0].r);
      LaterIsFine(t, clock, e.now);
      NextKeeps(t, k, e.now, e.r);
      if e.now <= t2 {
        NextFailures(t, k, e.now, e.r, id);
        LockedOut(t', k, e.now, run[1..], id, t1, t2);
      } else {
        NextFailures(t, k, e.now, e.r, id);
        TooLate(t', k, e.now, run[1..], id, t1, t2);
      }
    }
  }

  lemma {:induction false} TooLate(t: Tables, k: Checks, clock: nat, run: seq<Event>, id: int, t1: int, t2: int)
    requires Ticking(clock, run) && t2 < clock
    ensures WrongGuesses(t, k, run, id, t1, t2) == 0
    decreases |run|
  {
    if run != [] { TooLate(Next(t, k, run[0].now, run[0].r), k, run[0].now, run[1..], id, t1, t2); }
  }

  lemma {:induction false} GuessesLeft(t: Tables, k: Checks, clock: nat, run: seq<Event>, id: int, t1: int, t2: int)
    requires Inv(t, clock) && Ticking(clock, run) && id in t.users
    requires t2 < t1 + LOCKOUT && NeverRight(t, k, run, id, t1, t2)
    requires run != [] ==> t1 <= run[0].now
    ensures WrongGuesses(t, k, run, id, t1, t2) <= MAX_FAILED - t.users[id].failed
    decreases |run|
  {
    if run != [] {
      var e, t' := run[0], Next(t, k, run[0].now, run[0].r);
      LaterIsFine(t, clock, e.now);
      NextKeeps(t, k, e.now, e.r);
      NextFailures(t, k, e.now, e.r, id);
      assert UserOK(t.users[id], e.now);
      if e.now > t2 {
        TooLate(t', k, e.now, run[1..], id, t1, t2);
      } else if Guesses(t, k, e, id, false) && t.users[id].failed + 1 >= MAX_FAILED {
        LockedOut(t', k, e.now, run[1..], id, t1, t2);
      } else {
        GuessesLeft(t', k, e.now, run[1..], id, t1, t2);
      }
    }
  }

  /** In any quarter of an hour at most eight wrong passwords for a user are looked at,
      as long as the right one is not presented in it. */
  lemma {:induction false} LockoutLimitsGuesses(t: Tables, k: Checks, clock: nat, run: seq<Event>, id: int,
                                                t1: int, t2: int)
    requires Inv(t, clock) && Ticking(clock, run) && id in t.users
    requires t2 < t1 + LOCKOUT && NeverRight(t, k, run, id, t1, t2)
    ensures WrongGuesses(t, k, run, id, t1, t2) <= MAX_FAILED
    decreases |run|
  {
    if run != [] {
      var e := run[0];
      if t1 <= e.now {
        GuessesLeft(t, k, clock, run, id, t1, t2);
        assert UserOK(t.users[id], clock);
      } else {
        LaterIsFine(t, clock, e.now);
        NextKeeps(t, k, e.now, e.r);
        NextFailures(t, k, e.now, e.r, id);
        LockoutLimitsGuesses(Next(t, k, e.now, e.r), k, e.now, run[1..], id, t1, t2);
      }
    }
  }
}
