/**
  Logins against password changes. A login checks the credentials in one statement and inserts its session
  in a later one, so a change in between revokes the sessions there are and misses the one to come.
 */
module LoginRaces {
  import opened Wrappers
  import opened Database
  import opened StoreRuns
  import opened Base64
  import opened Password
  import opened Authentication
  import Timestamps

  /** Logins that ever began, and for those past their credential check the user found. */
  datatype State = State(sys: System, begun: set<nat>, passed: map<nat, string>)

  /** `Other` is any step of the store but the creation of a session. */
  datatype Act =
    | Check(l: nat, username: string, password: seq<byte>, id: string)
    | Open(l: nat, tokenHash: string, csrfHash: string, expiresAt: string)
    | Other(op: Op)

  predicate Enabled(s: State, a: Act, kdf: Kdf) {
    match a
    case Check(l, username, password, id) => l !in s.begun && Accepts(s.sys.db, username, password, kdf, id)
    case Open(l, _, _, _) => l in s.passed
    case Other(op) => !(op.OnSessions? && op.s.CreateSession?)
  }

  ghost function Do(s: State, a: Act): State {
    match a
    case Check(l, _, _, id) => s.(begun := s.begun + {l}, passed := s.passed[l := id])
    case Open(l, h, c, e) =>
      if l in s.passed
      then s.(sys := Apply(s.sys, OnSessions(CreateSession(h, s.passed[l], c, e))), passed := s.passed - {l})
      else s
    case Other(op) => s.(sys := Apply(s.sys, op))
  }

  ghost predicate Next(s: State, a: Act, s': State, kdf: Kdf) {
    Enabled(s, a, kdf) && s' == Do(s, a)
  }

  ghost predicate Starts(s: State) {
    Inv(s.sys) && s.begun == {} && s.passed == map[]
  }

  ghost predicate IsRun(run: seq<State>, acts: seq<Act>, kdf: Kdf) {
    && |run| == |acts| + 1 && Starts(run[0])
    && forall i :: 0 <= i < |acts| ==> Next(run[i], acts[i], run[i + 1], kdf)
  }

  lemma NextKeepsInv(s: State, a: Act, s': State, kdf: Kdf)
    requires Inv(s.sys) && Next(s, a, s', kdf)
    ensures Inv(s'.sys)
  {
    hide Inv, Apply, Accepts;
    match a
    case Check(_, _, _, _) =>
    case Open(l, h, c, e) => ApplyKeepsInv(s.sys, OnSessions(CreateSession(h, s.passed[l], c, e)));
    case Other(op) => ApplyKeepsInv(s.sys, op);
  }

  lemma {:induction false} RunIsValid(run: seq<State>, acts: seq<Act>, kdf: Kdf, n: nat)
    requires IsRun(run, acts, kdf) && n < |run|
    ensures Inv(run[n].sys)
  {
    hide Inv, Next;
    if n > 0 {
      RunIsValid(run, acts, kdf, n - 1);
      NextKeepsInv(run[n - 1], acts[n - 1], run[n], kdf);
    }
  }

  lemma StepAt(run: seq<State>, acts: seq<Act>, kdf: Kdf, n: nat)
    requires IsRun(run, acts, kdf) && n < |acts|
    ensures |run| == |acts| + 1 && Inv(run[n].sys) && Next(run[n], acts[n], run[n + 1], kdf)
  {
    hide Inv, Next;
    RunIsValid(run, acts, kdf, n);
  }

  lemma RunStarts(run: seq<State>, acts: seq<Act>, kdf: Kdf)
    requires IsRun(run, acts, kdf)
    ensures |run| == |acts| + 1 && run[0].begun == {} && run[0].passed == map[]
  {
    hide Inv, Next;
  }

  // ----- Sessions come from logins only -----

  lemma NoOtherSessions(s: System, op: Op, h: string)
    requires Inv(s) && !(op.OnSessions? && op.s.CreateSession?) && h in Apply(s, op).db.sessions
    ensures h in s.db.sessions
  {
    hide Valid, ClearedKept, ApplyUser, ApplySession, ApplyRole, ApplyPolicy, ApplyOther;
    match op
    case OnUsers(u) => UserOpAddsNoSession(s.db, u);
    case OnSessions(x) => RevokingAddsNoSession(s.db, x);
    case OnRoles(r) => RoleOpFrame(s, r);
    case OnPolicies(p) => PolicyOpKeeps(s.db, p);
    case OnOthers(o) => OtherOpKeeps(s.db, o);
  }

  lemma RevokingAddsNoSession(db: Db, op: SessionOp)
    requires !op.CreateSession?
    ensures ApplySession(db, op).sessions.Keys == db.sessions.Keys
  {
  }

  lemma UserOpAddsNoSession(db: Db, op: UserOp)
    requires Valid(db)
    ensures ApplyUser(db, op).sessions.Keys == db.sessions.Keys
  {
    hide Valid, AfterSeed, AfterCreateUser, AfterBootstrap, AfterUpdateUser, AfterRecover;
    match op
    case Seed => if AfterSeed(db, CATALOG, SEEDS).Some? { SeedKeepsValid(db, CATALOG, SEEDS); }
    case CreateUser(id, n, h, rs, e) =>
      if AfterCreateUser(db, id, n, h, rs, e).Some? { CreateUserKeepsValid(db, id, n, h, rs, e); }
    case Bootstrap(id, n, h) => if AfterBootstrap(db, id, n, h).Some? { BootstrapKeepsValid(db, id, n, h); }
    case UpdateUser(id, e, rs, p) => if AfterUpdateUser(db, id, e, rs, p).Done? { UpdateUserEffects(db, id, e, rs, p); }
    case Recover(f, h, a, t) => if AfterRecover(db, f, h, a, t).Some? { RecoverKeepsValid(db, f, h, a, t); }
  }

  /** What a step does to one session: it stays the user's, or the step is the login that opens it. */
  lemma SessionAfter(s: State, a: Act, s': State, kdf: Kdf, h: string)
    requires Inv(s.sys) && Next(s, a, s', kdf) && h in s'.sys.db.sessions
    ensures h in s.sys.db.sessions ==> s'.sys.db.sessions[h].userId == s.sys.db.sessions[h].userId
    ensures h !in s.sys.db.sessions ==>
              a.Open? && a.tokenHash == h && a.l in s.passed && s'.sys.db.sessions[h].userId == s.passed[a.l]
  {
    hide Inv, Accepts;
    match a
    case Check(_, _, _, _) =>
    case Open(l, t, c, e) =>
    case Other(op) =>
      hide Apply;
      NoOtherSessions(s.sys, op, h);
      ApplyOnlyEndsSessions(s.sys, op);
  }

  /** A session that is new since state `i` was opened by a login in between, for the user that login had found. */
  lemma {:induction false} OpenedBetween(run: seq<State>, acts: seq<Act>, kdf: Kdf, i: nat, j: nat, h: string)
    returns (k: nat)
    requires IsRun(run, acts, kdf) && i <= j < |run| && h in run[j].sys.db.sessions && h !in run[i].sys.db.sessions
    ensures i <= k < j && k < |acts| && acts[k].Open? && acts[k].tokenHash == h && acts[k].l in run[k].passed
    ensures run[j].sys.db.sessions[h].userId == run[k].passed[acts[k].l]
  {
    hide IsRun, Next, Inv;
    RunStarts(run, acts, kdf);
    StepAt(run, acts, kdf, j - 1);
    SessionAfter(run[j - 1], acts[j - 1], run[j], kdf, h);
    if h in run[j - 1].sys.db.sessions {
      k := OpenedBetween(run, acts, kdf, i, j - 1, h);
    } else {
      k := j - 1;
    }
  }

  // ----- Logins in flight -----

  /** A login past its check made that check at a step of its own and has been in flight since. */
  ghost predicate InFlightSince(run: seq<State>, acts: seq<Act>, kdf: Kdf, l: nat, v: nat, n: nat)
    requires v < n < |run| == |acts| + 1
  {
    && acts[v].Check? && acts[v].l == l && Accepts(run[v].sys.db, acts[v].username, acts[v].password, kdf, acts[v].id)
    && forall m :: v < m <= n ==> l in run[m].passed && run[m].passed[l] == acts[v].id
  }

  lemma PassedAfter(s: State, a: Act, s': State, kdf: Kdf, l: nat)
    requires Next(s, a, s', kdf) && l in s'.passed
    ensures if l in s.passed then s'.passed[l] == s.passed[l] || a.Check?
            else a.Check? && a.l == l && s'.passed[l] == a.id && Accepts(s.sys.db, a.username, a.password, kdf, a.id)
    ensures l in s.passed && l in s.begun ==> s'.passed[l] == s.passed[l]
  {
    hide Apply, Accepts;
  }

  lemma {:induction false} PassedHaveBegun(run: seq<State>, acts: seq<Act>, kdf: Kdf, n: nat, l: nat)
    requires IsRun(run, acts, kdf) && n < |run| && l in run[n].passed
    ensures l in run[n].begun
  {
    hide IsRun, Inv, Apply, Accepts;
    RunStarts(run, acts, kdf);
    if n > 0 {
      StepAt(run, acts, kdf, n - 1);
      if l in run[n - 1].passed { PassedHaveBegun(run, acts, kdf, n - 1, l); }
    }
  }

  lemma {:induction false} CheckedBefore(run: seq<State>, acts: seq<Act>, kdf: Kdf, n: nat, l: nat) returns (v: nat)
    requires IsRun(run, acts, kdf) && n < |run| && l in run[n].passed
    ensures |run| == |acts| + 1 && v < n && InFlightSince(run, acts, kdf, l, v, n)
  {
    hide IsRun, Next, Inv, Accepts;
    RunStarts(run, acts, kdf);
    StepAt(run, acts, kdf, n - 1);
    PassedAfter(run[n - 1], acts[n - 1], run[n], kdf, l);
    if l in run[n - 1].passed {
      v := CheckedBefore(run, acts, kdf, n - 1, l);
      PassedHaveBegun(run, acts, kdf, n - 1, l);
    } else {
      v := n - 1;
    }
  }

  // ----- What a password change leaves -----

  /** The sessions there are when the password changes never resolve again. */
  lemma {:induction false} RevokedStays(run: seq<State>, acts: seq<Act>, kdf: Kdf, i: nat, j: nat, h: string)
    requires IsRun(run, acts, kdf) && i <= j < |run| && h in run[i].sys.db.sessions && run[i].sys.db.sessions[h].revoked
    ensures h in run[j].sys.db.sessions && run[j].sys.db.sessions[h].revoked
  {
    hide IsRun, Inv, Apply, Accepts;
    RunStarts(run, acts, kdf);
    if i < j {
      RevokedStays(run, acts, kdf, i, j - 1, h);
      StepAt(run, acts, kdf, j - 1);
      var s, a := run[j - 1], acts[j - 1];
      if a.Open? {
        ApplyOnlyEndsSessions(s.sys, OnSessions(CreateSession(a.tokenHash, s.passed[a.l], a.csrfHash, a.expiresAt)));
      }
      if a.Other? { ApplyOnlyEndsSessions(s.sys, a.op); }
    }
  }

  /**
    After a password change at step `i`, every session that resolves for that user was opened later, at step
    `k`, by a login that checked credentials at step `v`; either those credentials were good after the change,
    or that login was already in flight when the password changed.
   */
  lemma SessionsAfterChange(run: seq<State>, acts: seq<Act>, kdf: Kdf, i: nat, j: nat, user: string, h: string,
                            now: string)
    returns (v: nat, k: nat)
    requires IsRun(run, acts, kdf) && i < j < |run| && i < |acts| && acts[i].Other? && acts[i].op.OnUsers?
    requires ChangesPassword(run[i].sys.db, acts[i].op.u, user)
    requires Resolves(run[j].sys.db, h, now) && run[j].sys.db.sessions[h].userId == user
    ensures |run| == |acts| + 1 && i < k < j && acts[k].Open? && acts[k].tokenHash == h
    ensures v < k && InFlightSince(run, acts, kdf, acts[k].l, v, k) && acts[v].id == user
    ensures v < i ==> acts[k].l in run[i].passed && acts[k].l in run[i + 1].passed && run[i].passed[acts[k].l] == user
  {
    hide IsRun, Next, Inv, Accepts, ChangesPassword;
    RunStarts(run, acts, kdf);
    StepAt(run, acts, kdf, i);
    ChangeRevokes(run[i], acts[i], run[i + 1], kdf, user);
    if h in run[i + 1].sys.db.sessions {
      UserStays(run, acts, kdf, i + 1, j, h);
      RevokedStays(run, acts, kdf, i + 1, j, h);
      assert false;
    }
    k := OpenedBetween(run, acts, kdf, i + 1, j, h);
    v := CheckedBefore(run, acts, kdf, k, acts[k].l);
  }

  lemma {:induction false} UserStays(run: seq<State>, acts: seq<Act>, kdf: Kdf, i: nat, j: nat, h: string)
    requires IsRun(run, acts, kdf) && i <= j < |run| && h in run[i].sys.db.sessions
    ensures h in run[j].sys.db.sessions && run[j].sys.db.sessions[h].userId == run[i].sys.db.sessions[h].userId
  {
    hide IsRun, Inv, Apply, Accepts;
    RunStarts(run, acts, kdf);
    if i < j {
      UserStays(run, acts, kdf, i, j - 1, h);
      StepAt(run, acts, kdf, j - 1);
      var s, a := run[j - 1], acts[j - 1];
      if a.Open? {
        ApplyOnlyEndsSessions(s.sys, OnSessions(CreateSession(a.tokenHash, s.passed[a.l], a.csrfHash, a.expiresAt)));
      }
      if a.Other? { ApplyOnlyEndsSessions(s.sys, a.op); }
    }
  }

  lemma ChangeRevokes(s: State, a: Act, s': State, kdf: Kdf, user: string)
    requires Inv(s.sys) && Next(s, a, s', kdf) && a.Other? && a.op.OnUsers? && ChangesPassword(s.sys.db, a.op.u, user)
    ensures forall h :: h in s'.sys.db.sessions && s'.sys.db.sessions[h].userId == user ==>
              s'.sys.db.sessions[h].revoked
  {
    hide Inv, ChangesPassword, ApplyUser;
    forall h | h in s'.sys.db.sessions && s'.sys.db.sessions[h].userId == user ensures s'.sys.db.sessions[h].revoked {
      SessionAfter(s, a, s', kdf, h);
      PasswordChangeRevokes(s.sys.db, a.op.u, user, h);
    }
  }

  // ----- Such a run exists wherever somebody can log in -----

  /** The login checks the old password, the password is changed, the login opens its session. */
  function Race(username: string, password: seq<byte>, id: string, hash: string, token: string, csrf: string,
                expires: string): seq<Act> {
    [Check(0, username, password, id),
     Other(OnUsers(UpdateUser(id, None, None, Some(Some(hash))))),
     Open(0, token, csrf, expires)]
  }

  lemma ChangeIsDone(db: Db, id: string, hash: string)
    ensures var out := AfterUpdateUser(db, id, None, None, Some(Some(hash)));
            && out.Done? && out.db.users == SetHash(db.users, id, hash)
               && out.db.sessions == RevokeAllOf(db.sessions, id)
  {
    assert KeepsAdmin(None);
  }

  /** From any first state in which the credentials are good, the session survives the change of the password. */
  lemma OldPasswordSurvives(s: State, username: string, password: seq<byte>, id: string, hash: string, token: string,
                            csrf: string, expires: string, kdf: Kdf)
    returns (run: seq<State>)
    requires Starts(s) && Accepts(s.sys.db, username, password, kdf, id) && token !in s.sys.db.sessions
    ensures var acts := Race(username, password, id, hash, token, csrf, expires);
            && IsRun(run, acts, kdf) && run[0] == s && ChangesPassword(run[1].sys.db, acts[1].op.u, id)
            && token in run[3].sys.db.sessions && run[3].sys.db.sessions[token].userId == id
            && forall now :: Timestamps.Less(now, expires) ==> Resolves(run[3].sys.db, token, now)
  {
    hide Inv, AfterUpdateUser, VerifyPassword;
    var acts := Race(username, password, id, hash, token, csrf, expires);
    var s1 := Do(s, acts[0]);
    var s2 := Do(s1, acts[1]);
    var s3 := Do(s2, acts[2]);
    ChangeIsDone(s.sys.db, id, hash);
    run := [s, s1, s2, s3];
  }
}
