/** Operator sign-in to the console: password, second factor and sessions over
    the users, sessions and recovery_codes tables.

    A step is one request, from the session lookup to the last update; nothing
    else touches the tables while it runs. */
module OperatorAuth {
  import opened Common

  const MAX_FAILED := 8
  const LOCKOUT := 900          // seconds
  const SESSION_TTL := 43200
  const PERIOD := 30            // seconds in a TOTP time step

  // What a row of each table holds; pass stands for hash, salt and iterations.
  datatype User = User(name: string, pass: string, role: string, secret: string, enrolled: bool, lastStep: int,
                       disabled: bool, failed: int, lockedUntil: int, lastLogin: int)

  datatype Session = Session(user: int, expires: int, mfaOK: bool)

  datatype Code = Code(user: int, hash: string, usedAt: int)

  // nextUser is the next id that a new user gets.
  datatype Tables = Tables(users: map<int, User>, sessions: map<string, Session>, codes: seq<Code>, nextUser: int)

  // The library's checks, as fixed functions; totp says whether a code is valid for a secret at a time.
  datatype Checks = Checks(pass: (string, string) -> bool, totp: (string, string, int) -> bool, hash: string -> string)

  function TimeStep(now: nat): int {
    now / PERIOD
  }

  // ---------------------------------------------------------------------
  // The store's operations
  // ---------------------------------------------------------------------

  // Usernames are unique in the schema.
  ghost predicate Unique(t: Tables) {
    forall i, j :: i in t.users && j in t.users && t.users[i].name == t.users[j].name ==> i == j
  }

  ghost predicate Named(t: Tables, name: string, id: int) {
    id in t.users && t.users[id].name == name
  }

  function WithUser(t: Tables, id: int, u: User): Tables {
    t.(users := t.users[id := u])
  }

  // A wrong password: the eighth in a row locks the account instead of being counted.
  function Failed(u: User, now: int): User {
    if u.failed + 1 >= MAX_FAILED then u.(failed := 0, lockedUntil := now + LOCKOUT) else u.(failed := u.failed + 1)
  }

  predicate Locked(u: User, now: int) {
    u.lockedUntil != 0 && now < u.lockedUntil
  }

  predicate MayTry(u: User, now: int) {
    !u.disabled && !Locked(u, now)
  }

  // A password presented for user id.
  function Tried(t: Tables, k: Checks, now: int, id: int, password: string): Tables
    requires id in t.users
  {
    var u := t.users[id];
    if !MayTry(u, now) then t
    else if k.pass(password, u.pass) then WithUser(t, id, u.(failed := 0, lockedUntil := 0))
    else WithUser(t, id, Failed(u, now))
  }

  predicate PasswordOK(t: Tables, k: Checks, now: int, id: int, password: string)
    requires id in t.users
  {
    MayTry(t.users[id], now) && k.pass(password, t.users[id].pass)
  }

  // A session that may be used at this time: not expired, of a user who is there and not disabled.
  predicate Live(t: Tables, now: int, sid: string) {
    && sid in t.sessions && now <= t.sessions[sid].expires
    && t.sessions[sid].user in t.users && !t.users[t.sessions[sid].user].disabled
  }

  // Looking a session up deletes it once it has expired.
  function LookedUp(t: Tables, now: int, sid: string): Tables {
    if sid in t.sessions && now > t.sessions[sid].expires then t.(sessions := t.sessions - {sid}) else t
  }

  predicate IsMatch(c: Code, id: int, hash: string) {
    c.user == id && c.hash == hash && c.usedAt == 0
  }

  lemma Regroup(a: seq<Code>, b: seq<Code>, c: seq<Code>)
    ensures (a + b) + c == a + (b + c)
  {
  }

  // The rows that an update of unused codes hits.
  function Matches(codes: seq<Code>, id: int, hash: string): nat {
    if codes == [] then 0 else (if IsMatch(codes[0], id, hash) then 1 else 0) + Matches(codes[1..], id, hash)
  }

  function Spend(codes: seq<Code>, id: int, hash: string, now: int): seq<Code> {
    if codes == [] then []
    else [if IsMatch(codes[0], id, hash) then codes[0].(usedAt := now) else codes[0]] + Spend(codes[1..], id, hash, now)
  }

  function CodesOfOthers(codes: seq<Code>, id: int): seq<Code> {
    if codes == [] then []
    else (if codes[0].user == id then [] else [codes[0]]) + CodesOfOthers(codes[1..], id)
  }

  function Issue(id: int, hashes: seq<string>): seq<Code> {
    if hashes == [] then [] else [Code(id, hashes[0], 0)] + Issue(id, hashes[1..])
  }

  function Hashes(k: Checks, codes: seq<string>): seq<string> {
    if codes == [] then [] else [k.hash(codes[0])] + Hashes(k, codes[1..])
  }

  function SessionsOfOthers(t: Tables, id: int): map<string, Session> {
    map sid | sid in t.sessions && t.sessions[sid].user != id :: t.sessions[sid]
  }

  datatype Factor = Refused | ByTOTP | ByRecovery

  // What the second factor presented amounts to.
  function SecondFactor(t: Tables, k: Checks, now: nat, id: int, code: string): Factor
    requires id in t.users
  {
    var u := t.users[id];
    if !u.enrolled then Refused
    else if k.totp(u.secret, code, now) then (if TimeStep(now) <= u.lastStep then Refused else ByTOTP)
    else if Matches(t.codes, id, k.hash(code)) == 1 then ByRecovery
    else Refused
  }

  // A code that is not a TOTP is spent as a recovery code, whether or not it is then accepted.
  function Presented(t: Tables, k: Checks, now: nat, id: int, code: string): Tables
    requires id in t.users
  {
    var u := t.users[id];
    if !u.enrolled then t
    else if k.totp(u.secret, code, now) then
      (if TimeStep(now) <= u.lastStep then t else WithUser(t, id, u.(lastStep := TimeStep(now))))
    else t.(codes := Spend(t.codes, id, k.hash(code), now))
  }

  // The session is through; its user has logged in.
  function SignedIn(t: Tables, now: int, sid: string, id: int): Tables
    requires id in t.users
  {
    var marked := if sid in t.sessions then t.(sessions := t.sessions[sid := t.sessions[sid].(mfaOK := true)]) else t;
    WithUser(marked, id, t.users[id].(lastLogin := now))
  }

  predicate EnrolmentOK(t: Tables, k: Checks, now: int, id: int, code: string)
    requires id in t.users
  {
    t.users[id].secret != "" && k.totp(t.users[id].secret, code, now)
  }

  function Enrolled(t: Tables, k: Checks, now: nat, id: int, codes: seq<string>): Tables
    requires id in t.users
  {
    WithUser(t, id, t.users[id].(enrolled := true, lastStep := TimeStep(now)))
      .(codes := CodesOfOthers(t.codes, id) + Issue(id, Hashes(k, codes)))
  }

  // An enrolment that is under way is resumed.
  function Begun(t: Tables, id: int, newSecret: string): Tables
    requires id in t.users
  {
    var u := t.users[id];
    if u.secret != "" && !u.enrolled then t else WithUser(t, id, u.(secret := newSecret, enrolled := false))
  }

  function Reset(t: Tables, id: int): Tables {
    var cleared :=
      if id in t.users then WithUser(t, id, t.users[id].(secret := "", enrolled := false, lastStep := 0)) else t;
    cleared.(codes := CodesOfOthers(t.codes, id), sessions := SessionsOfOthers(t, id))
  }

  function WithDisabled(t: Tables, id: int, disabled: bool): Tables {
    var set' := if id in t.users then WithUser(t, id, t.users[id].(disabled := disabled)) else t;
    if disabled then set'.(sessions := SessionsOfOthers(t, id)) else set'
  }

  predicate IsRole(role: string) {
    role == "admin" || role == "operator" || role == "viewer"
  }

  function NewUser(name: string, pass: string, role: string): User {
    User(name, pass, role, "", false, 0, false, 0, 0, 0)
  }

  // ---------------------------------------------------------------------
  // Requests
  // ---------------------------------------------------------------------

  // newSid, newSecret and codes are what the random source would give; pass is the hashed password
  // and policy whether the plain one is acceptable.
  datatype Request =
    | Login(name: string, password: string, newSid: string)
    | Logout(sid: string)
    | Look(sid: string)
    | Setup(sid: string, newSecret: string)
    | Confirm(sid: string, code: string, codes: seq<string>)
    | Verify(sid: string, code: string)
    | CreateUser(sid: string, name: string, pass: string, policy: bool, role: string)
    | Bootstrap(name: string, pass: string, policy: bool)
    | ResetMFA(sid: string, id: int)
    | Disable(sid: string, id: int, disabled: bool)
    | Prune

  predicate Admin(t: Tables, now: int, sid: string) {
    Live(t, now, sid) && t.sessions[sid].mfaOK && t.users[t.sessions[sid].user].role == "admin"
  }

  ghost predicate MayAdd(t: Tables, name: string, policy: bool, role: string) {
    IsRole(role) && name != "" && policy && forall id :: id in t.users ==> t.users[id].name != name
  }

  function Added(t: Tables, name: string, pass: string, role: string): Tables {
    WithUser(t, t.nextUser, NewUser(name, pass, role)).(nextUser := t.nextUser + 1)
  }

  function Owner(t: Tables, sid: string): int
    requires sid in t.sessions
  {
    t.sessions[sid].user
  }

  // Whose password is tried.
  ghost function Who(t: Tables, name: string): Option<int> {
    if exists id :: Named(t, name, id) then
      var id :| Named(t, name, id); Some(id)
    else
      None
  }

  function Opened(t: Tables, now: int, sid: string, id: int): Tables {
    if sid in t.sessions then t else t.(sessions := t.sessions[sid := Session(id, now + SESSION_TTL, false)])
  }

  function Unexpired(t: Tables, now: int): map<string, Session> {
    map sid | sid in t.sessions && now <= t.sessions[sid].expires :: t.sessions[sid]
  }

  ghost function Next(t: Tables, k: Checks, now: nat, r: Request): Tables {
    match r
    case Login(name, password, newSid) =>
      (match Who(t, name)
       case None => t
       case Some(id) =>
         var t1 := Tried(t, k, now, id, password);
         if PasswordOK(t, k, now, id, password) then Opened(t1, now, newSid, id) else t1)
    case Logout(sid) => t.(sessions := t.sessions - {sid})
    case Look(sid) => LookedUp(t, now, sid)
    case Setup(sid, newSecret) =>
      if Live(t, now, sid) && !t.users[Owner(t, sid)].enrolled then Begun(t, Owner(t, sid), newSecret)
      else LookedUp(t, now, sid)
    case Confirm(sid, code, codes) =>
      if Live(t, now, sid) && EnrolmentOK(t, k, now, Owner(t, sid), code) then
        SignedIn(Enrolled(t, k, now, Owner(t, sid), codes), now, sid, Owner(t, sid))
      else LookedUp(t, now, sid)
    case Verify(sid, code) =>
      if !Live(t, now, sid) then LookedUp(t, now, sid)
      else if SecondFactor(t, k, now, Owner(t, sid), code).Refused? then Presented(t, k, now, Owner(t, sid), code)
      else SignedIn(Presented(t, k, now, Owner(t, sid), code), now, sid, Owner(t, sid))
    case CreateUser(sid, name, pass, policy, role) =>
      if Admin(t, now, sid) && MayAdd(t, name, policy, role) then Added(t, name, pass, role) else LookedUp(t, now, sid)
    case Bootstrap(name, pass, policy) =>
      if t.users == map[] && MayAdd(t, name, policy, "admin") then Added(t, name, pass, "admin") else t
    case ResetMFA(sid, id) =>
      if Admin(t, now, sid) then Reset(t, id) else LookedUp(t, now, sid)
    case Disable(sid, id, disabled) =>
      if Admin(t, now, sid) && id != Owner(t, sid) then WithDisabled(t, id, disabled) else LookedUp(t, now, sid)
    case Prune => t.(sessions := Unexpired(t, now))
  }

  // ---------------------------------------------------------------------
  // The console
  // ---------------------------------------------------------------------

  class Console {
    const checks: Checks
    var users: map<int, User>
    var sessions: map<string, Session>
    var codes: seq<Code>
    var nextUser: int

    ghost function Now(): Tables
      reads this
    {
      Tables(users, sessions, codes, nextUser)
    }

    constructor (k: Checks)
      ensures checks == k && Now() == Tables(map[], map[], [], 1)
    {
      checks := k;
      users, sessions, codes, nextUser := map[], map[], [], 1;
    }

    // The row of a name; names are unique.
    method FindUser(name: string) returns (id: Option<int>)
      requires Unique(Now())
      ensures id == Who(Now(), name)
    {
      if i :| i in users && users[i].name == name {
        assert Named(Now(), name, i);
        return Some(i);
      }
      assert forall i :: i in users ==> users[i].name != name;
      return None;
    }

    method VerifyPassword(now: nat, name: string, password: string) returns (id: Option<int>)
      requires Unique(Now())
      modifies this
      ensures Who(old(Now()), name).None? ==> id == None && Now() == old(Now())
      ensures Who(old(Now()), name).Some? ==>
                var who := Who(old(Now()), name).value;
                && Now() == Tried(old(Now()), checks, now, who, password)
                && id == (if PasswordOK(old(Now()), checks, now, who, password) then Some(who) else None)
    {
      var who := FindUser(name);
      if who.None? { return None; }
      var u := users[who.value];
      if u.disabled { return None; }
      if u.lockedUntil != 0 && now < u.lockedUntil { return None; }
      if !checks.pass(password, u.pass) {
        var failed := u.failed + 1;
        if failed >= MAX_FAILED {
          users := users[who.value := u.(failed := 0, lockedUntil := now + LOCKOUT)];
        } else {
          users := users[who.value := u.(failed := failed)];
        }
        return None;
      }
      users := users[who.value := u.(failed := 0, lockedUntil := 0)];
      return who;
    }

    method LookupSession(now: nat, sid: string) returns (id: Option<int>)
      modifies this
      ensures Now() == LookedUp(old(Now()), now, sid)
      ensures id == if Live(old(Now()), now, sid) then Some(Owner(old(Now()), sid)) else None
      ensures id.Some? ==> Now() == old(Now())
    {
      if sid !in sessions { return None; }
      var s := sessions[sid];
      if now > s.expires {
        sessions := sessions - {sid};
        return None;
      }
      if s.user !in users || users[s.user].disabled { return None; }
      return Some(s.user);
    }

    method BeginTOTPEnrollment(id: int, newSecret: string) returns (secret: string)
      requires id in users
      modifies this
      ensures Now() == Begun(old(Now()), id, newSecret)
      ensures id in users && secret == users[id].secret
    {
      var u := users[id];
      if u.secret != "" && !u.enrolled { return u.secret; }
      users := users[id := u.(secret := newSecret, enrolled := false)];
      return newSecret;
    }

    // DELETE FROM recovery_codes WHERE user_id = id
    method DeleteCodes(id: int)
      modifies this
      ensures Now() == old(Now()).(codes := CodesOfOthers(old(codes), id))
    {
      var kept, rest := [], codes;
      while rest != []
        invariant Now() == old(Now())
        invariant kept + CodesOfOthers(rest, id) == CodesOfOthers(codes, id)
        decreases |rest|
      {
        if rest[0].user != id {
          Regroup(kept, [rest[0]], CodesOfOthers(rest[1..], id));
          kept := kept + [rest[0]];
        } else {
          assert CodesOfOthers(rest, id) == CodesOfOthers(rest[1..], id);
        }
        rest := rest[1..];
      }
      codes := kept;
    }

    method InsertCodes(id: int, plain: seq<string>)
      modifies this
      ensures Now() == old(Now()).(codes := old(codes) + Issue(id, Hashes(checks, plain)))
    {
      var rest := plain;
      while rest != []
        invariant users == old(users) && sessions == old(sessions) && nextUser == old(nextUser)
        invariant codes + Issue(id, Hashes(checks, rest)) == old(codes) + Issue(id, Hashes(checks, plain))
        decreases |rest|
      {
        Regroup(codes, [Code(id, checks.hash(rest[0]), 0)], Issue(id, Hashes(checks, rest[1..])));
        codes := codes + [Code(id, checks.hash(rest[0]), 0)];
        rest := rest[1..];
      }
    }

    method CompleteTOTPEnrollment(now: nat, id: int, code: string, newCodes: seq<string>) returns (ok: bool)
      requires id in users
      modifies this
      ensures ok == EnrolmentOK(old(Now()), checks, now, id, code)
      ensures Now() == if ok then Enrolled(old(Now()), checks, now, id, newCodes) else old(Now())
    {
      var u := users[id];
      if u.secret == "" { return false; }
      if !checks.totp(u.secret, code, now) { return false; }
      users := users[id := u.(enrolled := true, lastStep := now / PERIOD)];
      DeleteCodes(id);
      InsertCodes(id, newCodes);
      return true;
    }

    // UPDATE recovery_codes SET used_at = now WHERE user_id = id AND code_hash = hash AND used_at = 0
    method UseCode(now: nat, id: int, hash: string) returns (affected: nat)
      modifies this
      ensures Now() == old(Now()).(codes := Spend(old(codes), id, hash, now))
      ensures affected == Matches(old(codes), id, hash)
    {
      var updated, rest := [], codes;
      affected := 0;
      while rest != []
        invariant Now() == old(Now())
        invariant updated + Spend(rest, id, hash, now) == Spend(codes, id, hash, now)
        invariant affected + Matches(rest, id, hash) == Matches(codes, id, hash)
        decreases |rest|
      {
        var c := rest[0];
        Regroup(updated, [if IsMatch(c, id, hash) then c.(usedAt := now) else c], Spend(rest[1..], id, hash, now));
        if c.user == id && c.hash == hash && c.usedAt == 0 {
          updated := updated + [c.(usedAt := now)];
          affected := affected + 1;
        } else {
          updated := updated + [c];
        }
        rest := rest[1..];
      }
      codes := updated;
    }

    method VerifySecondFactor(now: nat, id: int, code: string) returns (ok: bool)
      requires id in users
      modifies this
      ensures ok == !SecondFactor(old(Now()), checks, now, id, code).Refused?
      ensures Now() == Presented(old(Now()), checks, now, id, code)
      ensures var u := old(users)[id];
              ok <==> u.enrolled && if checks.totp(u.secret, code, now) then u.lastStep < now / PERIOD
                                    else Matches(old(codes), id, checks.hash(code)) == 1
      ensures ok && checks.totp(old(users)[id].secret, code, now) ==>
                users == old(users)[id := old(users)[id].(lastStep := now / PERIOD)] && codes == old(codes)
    {
      var u := users[id];
      if !u.enrolled { return false; }
      if checks.totp(u.secret, code, now) {
        var step := now / PERIOD;
        if step <= u.lastStep { return false; }
        users := users[id := u.(lastStep := step)];
        return true;
      }
      var n := UseCode(now, id, checks.hash(code));
      return n == 1;
    }

    method MarkSignedIn(now: nat, sid: string, id: int)
      requires id in users
      modifies this
      ensures Now() == SignedIn(old(Now()), now, sid, id)
    {
      if sid in sessions { sessions := sessions[sid := sessions[sid].(mfaOK := true)]; }
      users := users[id := users[id].(lastLogin := now)];
    }

    // DELETE FROM sessions WHERE user_id = id
    method DeleteSessions(id: int)
      modifies this
      ensures Now() == old(Now()).(sessions := SessionsOfOthers(old(Now()), id))
    {
      sessions := map sid | sid in sessions && sessions[sid].user != id :: sessions[sid];
    }

    method ClearMFA(id: int)
      modifies this
      ensures Now() == Reset(old(Now()), id)
    {
      if id in users { users := users[id := users[id].(secret := "", enrolled := false, lastStep := 0)]; }
      DeleteCodes(id);
      DeleteSessions(id);
    }

    method SetUserDisabled(id: int, disabled: bool)
      modifies this
      ensures Now() == WithDisabled(old(Now()), id, disabled)
    {
      if id in users { users := users[id := users[id].(disabled := disabled)]; }
      if disabled { DeleteSessions(id); }
    }

    method AddUser(name: string, pass: string, policy: bool, role: string) returns (ok: bool)
      requires Unique(Now())
      modifies this
      ensures ok == MayAdd(old(Now()), name, policy, role)
      ensures Now() == if ok then Added(old(Now()), name, pass, role) else old(Now())
      ensures ok ==> users == old(users)[old(nextUser) := User(name, pass, role, "", false, 0, false, 0, 0, 0)]
    {
      if role != "admin" && role != "operator" && role != "viewer" { return false; }
      if name == "" { return false; }
      if !policy { return false; }
      var clash := FindUser(name);
      if clash.Some? { return false; }
      assert forall id :: id in users && users[id].name == name ==> Named(Now(), name, id);
      users := users[nextUser := User(name, pass, role, "", false, 0, false, 0, 0, 0)];
      nextUser := nextUser + 1;
      return true;
    }

    // ------------------------------------------------------------------
    // Handlers
    // ------------------------------------------------------------------

    // pass says whether the header and CSRF checks, the body and the rate limiter let
    // a request through; one that is turned away has at most its session looked up.

    method HandleLogin(now: nat, pass: bool, name: string, password: string, newSid: string) returns (ok: bool)
      requires Unique(Now())
      modifies this
      ensures Now() == if pass then Next(old(Now()), checks, now, Login(name, password, newSid)) else old(Now())
      ensures ok <==> pass && newSid !in old(sessions) && Who(old(Now()), name).Some? &&
                      PasswordOK(old(Now()), checks, now, Who(old(Now()), name).value, password)
    {
      if !pass { return false; }
      var id := VerifyPassword(now, name, password);
      if id.None? { return false; }
      if newSid in sessions { return false; }
      sessions := sessions[newSid := Session(id.value, now + SESSION_TTL, false)];
      return true;
    }

    method HandleLogout(sid: string)
      modifies this
      ensures forall now: nat :: Now() == Next(old(Now()), checks, now, Logout(sid))
    {
      sessions := sessions - {sid};
    }

    method HandleSetup(now: nat, sid: string, pass: bool, newSecret: string) returns (secret: Option<string>)
      modifies this
      ensures Now() == Next(old(Now()), checks, now, if pass then Setup(sid, newSecret) else Look(sid))
      ensures secret.Some? <==> pass && Live(old(Now()), now, sid) && !old(users)[Owner(old(Now()), sid)].enrolled
      ensures secret.Some? ==> Owner(old(Now()), sid) in users && secret.value == users[Owner(old(Now()), sid)].secret
    {
      var id := LookupSession(now, sid);
      if id.None? || !pass { return None; }
      if users[id.value].enrolled { return None; }
      var s := BeginTOTPEnrollment(id.value, newSecret);
      return Some(s);
    }

    method HandleConfirm(now: nat, sid: string, pass: bool, code: string, newCodes: seq<string>) returns (ok: bool)
      modifies this
      ensures Now() == Next(old(Now()), checks, now, if pass then Confirm(sid, code, newCodes) else Look(sid))
      ensures ok <==> pass && Live(old(Now()), now, sid) &&
                      EnrolmentOK(old(Now()), checks, now, Owner(old(Now()), sid), code)
      ensures ok ==> sid in old(sessions) && sessions == old(sessions)[sid := old(sessions)[sid].(mfaOK := true)]
      ensures ok ==> Owner(old(Now()), sid) in users && users[Owner(old(Now()), sid)].enrolled
    {
      var id := LookupSession(now, sid);
      if id.None? || !pass { return false; }
      ok := CompleteTOTPEnrollment(now, id.value, code, newCodes);
      if ok { MarkSignedIn(now, sid, id.value); }
    }

    method HandleVerify(now: nat, sid: string, pass: bool, code: string) returns (ok: bool)
      modifies this
      ensures Now() == Next(old(Now()), checks, now, if pass then Verify(sid, code) else Look(sid))
      ensures ok <==> pass && Live(old(Now()), now, sid) &&
                      !SecondFactor(old(Now()), checks, now, Owner(old(Now()), sid), code).Refused?
      ensures ok ==> sid in old(sessions) && sessions == old(sessions)[sid := old(sessions)[sid].(mfaOK := true)]
    {
      var id := LookupSession(now, sid);
      if id.None? || !pass { return false; }
      ok := VerifySecondFactor(now, id.value, code);
      if ok { MarkSignedIn(now, sid, id.value); }
    }

    method RequireAdmin(now: nat, sid: string, pass: bool) returns (id: Option<int>)
      modifies this
      ensures Now() == LookedUp(old(Now()), now, sid)
      ensures id == if pass && Admin(old(Now()), now, sid) then Some(Owner(old(Now()), sid)) else None
      ensures id.Some? ==> Now() == old(Now())
    {
      id := LookupSession(now, sid);
      if id.None? { return None; }
      if !sessions[sid].mfaOK { return None; }
      if !pass { return None; }
      if users[id.value].role != "admin" { return None; }
    }

    method HandleCreateUser(now: nat, sid: string, pass: bool, name: string, hashed: string, policy: bool, role: string)
      returns (ok: bool)
      requires Unique(Now())
      modifies this
      ensures Now() ==
                Next(old(Now()), checks, now, if pass then CreateUser(sid, name, hashed, policy, role) else Look(sid))
      ensures ok <==> pass && Admin(old(Now()), now, sid) && MayAdd(old(Now()), name, policy, role)
    {
      var id := RequireAdmin(now, sid, pass);
      if id.None? { return false; }
      ok := AddUser(name, hashed, policy, role);
    }

    method BootstrapAdmin(name: string, pass: string, policy: bool)
      requires Unique(Now())
      modifies this
      ensures forall now: nat :: Now() == Next(old(Now()), checks, now, Bootstrap(name, pass, policy))
    {
      if |users| > 0 { return; }
      assert users == map[];
      var ok := AddUser(name, pass, policy, "admin");
    }

    method HandleResetMFA(now: nat, sid: string, pass: bool, id: int)
      modifies this
      ensures Now() == Next(old(Now()), checks, now, if pass then ResetMFA(sid, id) else Look(sid))
    {
      var admin := RequireAdmin(now, sid, pass);
      if admin.Some? { ClearMFA(id); }
    }

    method HandleDisableUser(now: nat, sid: string, pass: bool, id: int, disabled: bool)
      modifies this
      ensures Now() == Next(old(Now()), checks, now, if pass then Disable(sid, id, disabled) else Look(sid))
    {
      var admin := RequireAdmin(now, sid, pass);
      if admin.None? { return; }
      if id == admin.value { return; }
      SetUserDisabled(id, disabled);
    }

    method PruneSessions(now: nat)
      modifies this
      ensures Now() == Next(old(Now()), checks, now, Prune)
    {
      sessions := map sid | sid in sessions && !(sessions[sid].expires < now) :: sessions[sid];
    }
  }
}
