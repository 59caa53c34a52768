/** What the console lets in: who signs in, for how long, and what locks an account. */
module OperatorAuthWorks {
  import opened Common
  import opened OperatorAuth
  import opened OperatorAuthLaws

  // ---------------------------------------------------------------------
  // Signing in
  // ---------------------------------------------------------------------

  // Nothing stands in the way of the user's password.
  predicate Open(u: User, now: int) {
    !u.disabled && (u.lockedUntil == 0 || u.lockedUntil <= now)
  }

  lemma WhoIsIt(t: Tables, name: string, id: int)
    requires Unique(t) && id in t.users && t.users[id].name == name
    ensures Who(t, name) == Some(id)
  {
    assert Named(t, name, id);
  }

  /** The right password of an account that is open begins a session of twelve hours. */
  lemma LoginOpensASession(t: Tables, k: Checks, now: nat, id: int, password: string, sid: string)
    requires Unique(t) && id in t.users && Open(t.users[id], now) && k.pass(password, t.users[id].pass)
    requires sid !in t.sessions
    ensures var u, t' := t.users[id], Next(t, k, now, Login(t.users[id].name, password, sid));
            && t'.sessions == t.sessions[sid := Session(id, now + 43200, false)]
            && t'.users == t.users[id := u.(failed := 0, lockedUntil := 0)] && t'.codes == t.codes
  {
    WhoIsIt(t, t.users[id].name, id);
  }

  /** And no other login changes who is signed in. */
  lemma OnlyLoginOpens(t: Tables, k: Checks, now: nat, r: Request, sid: string)
    requires sid !in t.sessions && sid in Next(t, k, now, r).sessions
    ensures r.Login? && r.newSid == sid && exists id :: OpensFor(t, k, now, r, id)
    ensures Next(t, k, now, r).sessions[sid].expires == now + 43200 && !Next(t, k, now, r).sessions[sid].mfaOK
  {
    match r
    case Login(name, password, newSid) =>
      var id := Who(t, name).value;
      assert OpensFor(t, k, now, r, id);
    case _ =>
  }

  // A login with the right password of an account that is open.
  ghost predicate OpensFor(t: Tables, k: Checks, now: nat, r: Request, id: int)
    requires r.Login?
  {
    id in t.users && t.users[id].name == r.name && Open(t.users[id], now) && k.pass(r.password, t.users[id].pass)
  }

  // The session is there, has not run out, and its user is there and enabled.
  predicate Signed(t: Tables, now: int, sid: string) {
    && sid in t.sessions && now <= t.sessions[sid].expires
    && t.sessions[sid].user in t.users && !t.users[t.sessions[sid].user].disabled
  }

  /** A TOTP of a later time step than the last one lets an enrolled user's session through. */
  lemma TOTPLetsThrough(t: Tables, k: Checks, now: nat, sid: string, code: string)
    requires Signed(t, now, sid)
    requires var u := t.users[t.sessions[sid].user];
             u.enrolled && k.totp(u.secret, code, now) && u.lastStep < now / 30
    ensures var id, t' := t.sessions[sid].user, Next(t, k, now, Verify(sid, code));
            && t'.sessions == t.sessions[sid := t.sessions[sid].(mfaOK := true)]
            && t'.users == t.users[id := t.users[id].(lastStep := now / 30, lastLogin := now)]
            && t'.codes == t.codes
            && (t.users[id].role == "admin" ==>
                  forall later :: now <= later <= t.sessions[sid].expires ==> Admin(t', later, sid))
  {
  }

  /** So does a recovery code of which exactly one row is unused, and it is spent. */
  lemma RecoveryLetsThrough(t: Tables, k: Checks, now: nat, sid: string, code: string)
    requires Signed(t, now, sid) && now > 0
    requires var id := t.sessions[sid].user;
             && t.users[id].enrolled && !k.totp(t.users[id].secret, code, now)
             && Unused(t.codes, id, k.hash(code)) == 1
    ensures var id, t' := t.sessions[sid].user, Next(t, k, now, Verify(sid, code));
            && t'.sessions == t.sessions[sid := t.sessions[sid].(mfaOK := true)]
            && Unused(t'.codes, id, k.hash(code)) == 0
            && forall id', hash :: id' != id || hash != k.hash(code) ==>
                 Unused(t'.codes, id', hash) == Unused(t.codes, id', hash)
  {
    var id := t.sessions[sid].user;
    UnusedMatch(t.codes, id, k.hash(code));
    var t' := Next(t, k, now, Verify(sid, code));
    forall id', hash ensures Unused(t'.codes, id', hash)
      == if id' == id && hash == k.hash(code) then 0 else Unused(t.codes, id', hash)
    {
      SpendMatches(t.codes, id, k.hash(code), now, id', hash);
      UnusedMatch(t.codes, id', hash);
      UnusedMatch(t'.codes, id', hash);
    }
  }

  // The unused codes of a user with this hash.
  function Unused(codes: seq<Code>, id: int, hash: string): nat {
    multiset(codes)[Code(id, hash, 0)]
  }

  lemma {:induction false} UnusedMatch(codes: seq<Code>, id: int, hash: string)
    ensures Unused(codes, id, hash) == Matches(codes, id, hash)
  {
    if codes != [] {
      UnusedMatch(codes[1..], id, hash);
      assert codes == [codes[0]] + codes[1..];
      assert IsMatch(codes[0], id, hash) <==> codes[0] == Code(id, hash, 0);
    }
  }

  /** Anything else is refused: a user who is not enrolled, a TOTP of a time step that is past
      or spent, and a code that is neither. */
  lemma NothingElseLetsThrough(t: Tables, k: Checks, now: nat, sid: string, code: string)
    requires Signed(t, now, sid)
    requires var id := t.sessions[sid].user; var u := t.users[id];
             || !u.enrolled
             || (k.totp(u.secret, code, now) && now / 30 <= u.lastStep)
             || (!k.totp(u.secret, code, now) && Unused(t.codes, id, k.hash(code)) != 1)
    ensures Next(t, k, now, Verify(sid, code)).sessions == t.sessions
  {
    UnusedMatch(t.codes, t.sessions[sid].user, k.hash(code));
  }

  /** A first enrolment stores its secret, and nothing else. */
  lemma SetupStoresTheSecret(t: Tables, k: Checks, now: nat, sid: string, newSecret: string)
    requires Signed(t, now, sid)
    requires var u := t.users[t.sessions[sid].user]; !u.enrolled && u.secret == ""
    ensures var id := t.sessions[sid].user;
            Next(t, k, now, Setup(sid, newSecret)) == t.(users := t.users[id := t.users[id].(secret := newSecret)])
  {
  }

  /** A valid code for the secret enrols the user and lets the session through; the codes
      issued replace the user's old ones. */
  lemma EnrolmentLetsThrough(t: Tables, k: Checks, now: nat, sid: string, code: string, codes: seq<string>)
    requires Signed(t, now, sid)
    requires var u := t.users[t.sessions[sid].user]; u.secret != "" && k.totp(u.secret, code, now)
    ensures var id, t' := t.sessions[sid].user, Next(t, k, now, Confirm(sid, code, codes));
            && t'.sessions == t.sessions[sid := t.sessions[sid].(mfaOK := true)]
            && t'.users == t.users[id := t.users[id].(enrolled := true, lastStep := now / 30, lastLogin := now)]
            && forall id', hash :: Unused(t'.codes, id', hash) ==
                 if id' == id then Count(k, codes, hash) else Unused(t.codes, id', hash)
  {
    var id, t' := t.sessions[sid].user, Next(t, k, now, Confirm(sid, code, codes));
    assert t'.codes == CodesOfOthers(t.codes, id) + Issue(id, Hashes(k, codes));
    forall id', hash ensures Unused(t'.codes, id', hash) ==
      if id' == id then Count(k, codes, hash) else Unused(t.codes, id', hash)
    {
      NewCodes(t.codes, k, codes, id, id', hash);
    }
  }

  lemma NewCodes(old': seq<Code>, k: Checks, codes: seq<string>, id: int, id': int, hash: string)
    ensures Unused(CodesOfOthers(old', id) + Issue(id, Hashes(k, codes)), id', hash) ==
              if id' == id then Count(k, codes, hash) else Unused(old', id', hash)
  {
    OthersMatch(old', id, id', hash);
    MatchesAppend(CodesOfOthers(old', id), Issue(id, Hashes(k, codes)), id', hash);
    IssuedMatch(k, codes, id, id', hash);
    UnusedMatch(old', id', hash);
    UnusedMatch(CodesOfOthers(old', id) + Issue(id, Hashes(k, codes)), id', hash);
  }

  // How many of the codes have this hash.
  function Count(k: Checks, codes: seq<string>, hash: string): nat {
    if codes == [] then 0 else (if k.hash(codes[0]) == hash then 1 else 0) + Count(k, codes[1..], hash)
  }

  lemma {:induction false} IssuedMatch(k: Checks, codes: seq<string>, id: int, id': int, hash: string)
    ensures Matches(Issue(id, Hashes(k, codes)), id', hash) == if id' == id then Count(k, codes, hash) else 0
  {
    if codes != [] {
      IssuedMatch(k, codes[1..], id, id', hash);
      assert Hashes(k, codes)[1..] == Hashes(k, codes[1..]);
      assert Issue(id, Hashes(k, codes))[1..] == Issue(id, Hashes(k, codes[1..]));
    }
  }

  // ---------------------------------------------------------------------
  // Who is through
  // ---------------------------------------------------------------------

  ghost predicate IsThrough(t: Tables, sid: string) {
    sid in t.sessions && t.sessions[sid].mfaOK
  }

  // A second factor or an enrolment of this session succeeds.
  ghost predicate Passes(t: Tables, k: Checks, e: Event, sid: string) {
    && (e.r.Verify? || e.r.Confirm?) && e.r.sid == sid && Signed(t, e.now, sid)
    && var id := t.sessions[sid].user; var u := t.users[id];
       if e.r.Confirm? then u.secret != "" && k.totp(u.secret, e.r.code, e.now)
       else if k.totp(u.secret, e.r.code, e.now) then u.enrolled && u.lastStep < e.now / 30
       else u.enrolled && Matches(t.codes, id, k.hash(e.r.code)) == 1
  }

  predicate Carries(r: Request, sid: string) {
    match r
    case Look(s) => s == sid
    case Setup(s, _) => s == sid
    case Confirm(s, _, _) => s == sid
    case Verify(s, _) => s == sid
    case CreateUser(s, _, _, _, _) => s == sid
    case ResetMFA(s, _) => s == sid
    case Disable(s, _, _) => s == sid
    case _ => false
  }

  // The session is ended: by logging out, by running out and being looked up or pruned, or by an
  // administrator's reset or disabling of its user.
  ghost predicate Ends(t: Tables, e: Event, sid: string) {
    && sid in t.sessions
    && (|| e.r == Logout(sid)
        || ((Carries(e.r, sid) || e.r.Prune?) && t.sessions[sid].expires < e.now)
        || (&& (e.r.ResetMFA? || (e.r.Disable? && e.r.disabled)) && e.r.id == t.sessions[sid].user
            && Signed(t, e.now, e.r.sid) && t.sessions[e.r.sid].mfaOK
            && t.users[t.sessions[e.r.sid].user].role == "admin"
            && (e.r.Disable? ==> e.r.id != t.sessions[e.r.sid].user)))
  }

  // What a session becomes: it is there if it was opened, or was and is not ended, and is through
  // if it passes, or was.
  ghost predicate Becomes(t: Tables, k: Checks, e: Event, t': Tables, sid: string) {
    && (sid in t.sessions ==>
          && (sid in t'.sessions <==> !Ends(t, e, sid))
          && (sid in t'.sessions ==>
                t'.sessions[sid] == t.sessions[sid].(mfaOK := t.sessions[sid].mfaOK || Passes(t, k, e, sid))))
    && (sid !in t.sessions && sid in t'.sessions ==> e.r.Login? && e.r.newSid == sid && !t'.sessions[sid].mfaOK)
  }

  lemma FactorBecomes(t: Tables, k: Checks, e: Event, sid: string)
    requires e.r.Verify? || e.r.Confirm?
    ensures Becomes(t, k, e, Next(t, k, e.now, e.r), sid)
  {
  }

  lemma AdministrationBecomes(t: Tables, k: Checks, e: Event, sid: string)
    requires e.r.CreateUser? || e.r.ResetMFA? || e.r.Disable? || e.r.Bootstrap?
    ensures Becomes(t, k, e, Next(t, k, e.now, e.r), sid)
  {
  }

  /** What every request does to every session. */
  lemma SessionsAreExact(t: Tables, k: Checks, e: Event, sid: string)
    ensures Becomes(t, k, e, Next(t, k, e.now, e.r), sid)
  {
    match e.r
    case Verify(_, _) => FactorBecomes(t, k, e, sid);
    case Confirm(_, _, _) => FactorBecomes(t, k, e, sid);
    case CreateUser(_, _, _, _, _) => AdministrationBecomes(t, k, e, sid);
    case ResetMFA(_, _) => AdministrationBecomes(t, k, e, sid);
    case Disable(_, _, _) => AdministrationBecomes(t, k, e, sid);
    case Bootstrap(_, _, _) => AdministrationBecomes(t, k, e, sid);
    case _ =>
  }

  lemma NextThrough(t: Tables, k: Checks, e: Event, sid: string)
    ensures IsThrough(Next(t, k, e.now, e.r), sid) <==>
              Passes(t, k, e, sid) || (IsThrough(t, sid) && !Ends(t, e, sid))
  {
    SessionsAreExact(t, k, e, sid);
  }

  lemma {:induction false} AfterMore(t: Tables, k: Checks, run: seq<Event>, n: nat)
    requires n < |run|
    ensures After(t, k, run[..n + 1]) == Next(After(t, k, run[..n]), k, run[n].now, run[n].r)
    decreases n
  {
    if n == 0 {
      assert run[..1][1..] == [];
    } else {
      assert run[..n + 1][1..] == run[1..][..n] && run[..n][1..] == run[1..][..n - 1];
      AfterMore(Next(t, k, run[0].now, run[0].r), k, run[1..], n - 1);
    }
  }

  ghost predicate PassesAt(t: Tables, k: Checks, run: seq<Event>, i: int, sid: string)
    requires 0 <= i < |run|
  {
    Passes(After(t, k, run[..i]), k, run[i], sid)
  }

  ghost predicate EndsAt(t: Tables, k: Checks, run: seq<Event>, i: int, sid: string)
    requires 0 <= i < |run|
  {
    Ends(After(t, k, run[..i]), run[i], sid)
  }

  // It was let through within the first n requests, and has not been ended since.
  ghost predicate StillThrough(t: Tables, k: Checks, run: seq<Event>, n: nat, sid: string)
    requires n <= |run|
  {
    exists i :: 0 <= i < n && PassesAt(t, k, run, i, sid) && forall j :: i < j < n ==> !EndsAt(t, k, run, j, sid)
  }

  lemma StillMore(t: Tables, k: Checks, run: seq<Event>, n: nat, sid: string)
    requires 0 < n <= |run|
    ensures StillThrough(t, k, run, n, sid) <==>
              PassesAt(t, k, run, n - 1, sid) || (StillThrough(t, k, run, n - 1, sid) && !EndsAt(t, k, run, n - 1, sid))
  {
    if !PassesAt(t, k, run, n - 1, sid) && StillThrough(t, k, run, n - 1, sid) && !EndsAt(t, k, run, n - 1, sid) {
      var i :| 0 <= i < n - 1 && PassesAt(t, k, run, i, sid) &&
        forall j :: i < j < n - 1 ==> !EndsAt(t, k, run, j, sid);
      assert forall j :: i < j < n ==> !EndsAt(t, k, run, j, sid);
    }
  }

  lemma ThroughMore(t: Tables, k: Checks, run: seq<Event>, n: nat, sid: string)
    requires 0 < n <= |run|
    ensures IsThrough(After(t, k, run[..n]), sid) <==>
              || PassesAt(t, k, run, n - 1, sid)
              || (IsThrough(After(t, k, run[..n - 1]), sid) && !EndsAt(t, k, run, n - 1, sid))
  {
    AfterMore(t, k, run, n - 1);
    NextThrough(After(t, k, run[..n - 1]), k, run[n - 1], sid);
  }

  lemma {:induction false} ThroughUpTo(t: Tables, k: Checks, run: seq<Event>, n: nat, sid: string)
    requires !IsThrough(t, sid) && n <= |run|
    ensures IsThrough(After(t, k, run[..n]), sid) <==> StillThrough(t, k, run, n, sid)
    decreases n
  {
    if n > 0 {
      ThroughUpTo(t, k, run, n - 1, sid);
      ThroughMore(t, k, run, n, sid);
      StillMore(t, k, run, n, sid);
    }
  }

  /** Over every run, a session is through exactly if a second factor or an enrolment of it
      succeeded and it has not been ended since. */
  lemma ThroughIsExact(t: Tables, k: Checks, run: seq<Event>, sid: string)
    requires !IsThrough(t, sid)
    ensures IsThrough(After(t, k, run), sid) <==> StillThrough(t, k, run, |run|, sid)
  {
    ThroughUpTo(t, k, run, |run|, sid);
    assert run[..|run|] == run;
  }

  // ---------------------------------------------------------------------
  // What an administrator does
  // ---------------------------------------------------------------------

  ghost predicate Administers(t: Tables, now: int, sid: string) {
    Signed(t, now, sid) && t.sessions[sid].mfaOK && t.users[t.sessions[sid].user].role == "admin"
  }

  /** A new user has the role and password given, and is not enrolled. */
  lemma CreatingAddsTheUser(t: Tables, k: Checks, now: nat, sid: string, name: string, pass: string, role: string)
    requires Administers(t, now, sid) && role in {"admin", "operator", "viewer"} && name != ""
    requires forall id :: id in t.users ==> t.users[id].name != name
    ensures Next(t, k, now, CreateUser(sid, name, pass, true, role)) ==
              t.(users := t.users[t.nextUser := User(name, pass, role, "", false, 0, false, 0, 0, 0)],
                 nextUser := t.nextUser + 1)
  {
  }

  /** A reset takes away one user's second factor and recovery codes, and no one else's. */
  lemma ResettingClearsTheUser(t: Tables, k: Checks, now: nat, sid: string, id: int)
    requires Administers(t, now, sid) && id in t.users
    ensures var t' := Next(t, k, now, ResetMFA(sid, id));
            && t'.users == t.users[id := t.users[id].(secret := "", enrolled := false, lastStep := 0)]
            && (forall c :: c in t'.codes ==> c.user != id)
            && forall id', hash :: id' != id ==> Unused(t'.codes, id', hash) == Unused(t.codes, id', hash)
  {
    var t' := Next(t, k, now, ResetMFA(sid, id));
    OthersAreKept(t.codes, id);
    forall id', hash | id' != id ensures Unused(t'.codes, id', hash) == Unused(t.codes, id', hash) {
      OthersMatch(t.codes, id, id', hash);
      UnusedMatch(t.codes, id', hash);
      UnusedMatch(t'.codes, id', hash);
    }
  }

  /** Disabling and enabling set one user's flag, and no more than that but for the sessions. */
  lemma DisablingSetsTheFlag(t: Tables, k: Checks, now: nat, sid: string, id: int, disabled: bool)
    requires Administers(t, now, sid) && id in t.users && id != t.sessions[sid].user
    ensures var t' := Next(t, k, now, Disable(sid, id, disabled));
            t'.users == t.users[id := t.users[id].(disabled := disabled)] && t'.codes == t.codes
  {
  }

  // ---------------------------------------------------------------------
  // What locks an account
  // ---------------------------------------------------------------------

  ghost predicate NoWrongYet(u: User) {
    u.failed == 0 && u.lockedUntil == 0
  }

  ghost predicate GuessedAt(t: Tables, k: Checks, run: seq<Event>, id: int, when: int)
    decreases |run|
  {
    run != [] &&
    ((Guesses(t, k, run[0], id, false) && run[0].now == when) ||
     GuessedAt(Next(t, k, run[0].now, run[0].r), k, run[1..], id, when))
  }

  // Wrong guesses, whenever they are made.
  ghost function Wrong(t: Tables, k: Checks, run: seq<Event>, id: int): nat
    decreases |run|
  {
    if run == [] then 0
    else (if Guesses(t, k, run[0], id, false) then 1 else 0) + Wrong(Next(t, k, run[0].now, run[0].r), k, run[1..], id)
  }

  lemma {:induction false} LocksAreEarned(t: Tables, k: Checks, clock: nat, run: seq<Event>, id: int)
    requires Inv(t, clock) && Ticking(clock, run) && id in t.users
    ensures id in After(t, k, run).users
    ensures var u, v := t.users[id], After(t, k, run).users[id];
            && v.failed <= u.failed + Wrong(t, k, run, id)
            && (v.lockedUntil in {0, u.lockedUntil} ||
                (u.failed + Wrong(t, k, run, id) >= MAX_FAILED && GuessedAt(t, k, run, id, v.lockedUntil - LOCKOUT)))
    decreases |run|
  {
    if run != [] {
      var e, t' := run[0], Next(t, k, run[0].now, run[0].r);
      LaterIsFine(t, clock, e.now);
      NextFailures(t, k, e.now, e.r, id);
      NextKeeps(t, k, e.now, e.r);
      LocksAreEarned(t', k, e.now, run[1..], id);
    }
  }

  /** The right password of an enabled account with no wrong guesses before the run is accepted
      after it, unless the run holds eight wrong guesses, one in the last quarter of an hour. */
  lemma OnlyGuessesLock(t: Tables, k: Checks, clock: nat, run: seq<Event>, id: int, now: nat, password: string)
    requires Inv(t, clock) && Ticking(clock, run) && id in t.users && NoWrongYet(t.users[id])
    requires var v := After(t, k, run); id in v.users && !v.users[id].disabled && k.pass(password, v.users[id].pass)
    requires !PasswordOK(After(t, k, run), k, now, id, password)
    ensures Wrong(t, k, run, id) >= 8
    ensures exists when :: when > now - 900 && GuessedAt(t, k, run, id, when)
  {
    LocksAreEarned(t, k, clock, run, id);
    var when := After(t, k, run).users[id].lockedUntil - LOCKOUT;
    assert when > now - 900 && GuessedAt(t, k, run, id, when);
  }
}
