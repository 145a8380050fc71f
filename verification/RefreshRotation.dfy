/** Refresh-token rotation and logout, server/backend/app/services/auth_service.py over
    server/backend/app/repositories/refresh_session_repository.py. Requests interleave; a SELECT ... FOR UPDATE
    waits for the row's lock and then sees the committed row, an UPDATE works on the rows its statement saw. */
module RefreshRotation {
  import opened Wrappers

  /** login, generation and parent only record where a session came from. */
  datatype Session = Session(user: nat, expiresAt: int, revoked: bool, login: nat, generation: nat, parent: Option<nat>)

  /** A request holding row locks; tokens stand for their hashes. */
  datatype Phase =
    | Rotating(token: nat)                                     // refresh_access_token found its session
    | Revoking(token: nat)                                     // logout found its session
    | RevokingAll(user: nat, todo: set<nat>, taken: set<nat>)  // logout_all's UPDATE, row by row

  datatype State = State(sessions: map<nat, Session>, phases: map<nat, Phase>, used: set<nat>)

  const INIT := State(map[], map[], {})

  predicate Active(s: State, token: nat, now: int) {
    token in s.sessions && !s.sessions[token].revoked && s.sessions[token].expiresAt > now
  }

  predicate HoldsLock(p: Phase, token: nat) {
    match p
    case Rotating(t) => t == token
    case Revoking(t) => t == token
    case RevokingAll(_, _, taken) => token in taken
  }

  predicate IsLocked(s: State, token: nat) { exists r :: r in s.phases && HoldsLock(s.phases[r], token) }

  function LiveSessions(s: State, user: nat): set<nat> {
    set t | t in s.sessions && s.sessions[t].user == user && !s.sessions[t].revoked
  }

  // ---- steps ----

  datatype Step =
    | Login(user: nat, token: nat, expiresAt: int)
    | RefreshLock(request: nat, token: nat, now: int)
    | RefreshCommit(request: nat, newToken: nat, expiresAt: int)
    | LogoutLock(request: nat, token: nat, now: int)
    | LogoutCommit(request: nat)
    | RevokeAllStart(request: nat, user: nat)
    | RevokeAllTake(request: nat, token: nat)
    | RevokeAllCommit(request: nat)
    | Abort(request: nat)                      // any error, an inactive user, or a crash

  predicate Enabled(s: State, step: Step) {
    match step
    case Login(user, token, _) => token !in s.sessions
    case RefreshLock(r, token, _) => r !in s.used && !IsLocked(s, token)
    case RefreshCommit(r, newToken, _) =>
      r in s.phases && s.phases[r].Rotating? && s.phases[r].token in s.sessions && newToken !in s.sessions
    case LogoutLock(r, token, _) => r !in s.used && !IsLocked(s, token)
    case LogoutCommit(r) => r in s.phases && s.phases[r].Revoking? && s.phases[r].token in s.sessions
    case RevokeAllStart(r, _) => r !in s.used
    case RevokeAllTake(r, token) =>
      && r in s.phases && s.phases[r].RevokingAll? && token in s.phases[r].todo
      && token in s.sessions && !IsLocked(s, token)
    case RevokeAllCommit(r) =>
      r in s.phases && s.phases[r].RevokingAll? && s.phases[r].todo == {} && s.phases[r].taken <= s.sessions.Keys
    case Abort(r) => r in s.phases
  }

  function End(s: State, r: nat): State { s.(phases := s.phases - {r}) }

  function Begin(s: State, r: nat, p: Phase): State { s.(phases := s.phases[r := p], used := s.used + {r}) }

  function Revoked(s: State, tokens: set<nat>): State
    requires tokens <= s.sessions.Keys
  {
    s.(sessions := map t | t in s.sessions :: if t in tokens then s.sessions[t].(revoked := true) else s.sessions[t])
  }

  function Rotated(s: State, token: nat, newToken: nat, expiresAt: int): State
    requires token in s.sessions
  {
    var current := s.sessions[token];
    s.(sessions := s.sessions[token := current.(revoked := true)][
         newToken := Session(current.user, expiresAt, false, current.login, current.generation + 1, Some(token))])
  }

  function Perform(s: State, step: Step): State
    requires Enabled(s, step)
  {
    match step
    case Login(user, token, expiresAt) =>
      s.(sessions := s.sessions[token := Session(user, expiresAt, false, token, 0, None)])
    case RefreshLock(r, token, now) =>
      if Active(s, token, now) then Begin(s, r, Rotating(token)) else s.(used := s.used + {r})
    case RefreshCommit(r, newToken, expiresAt) => End(Rotated(s, s.phases[r].token, newToken, expiresAt), r)
    case LogoutLock(r, token, now) =>
      if Active(s, token, now) then Begin(s, r, Revoking(token)) else s.(used := s.used + {r})
    case LogoutCommit(r) => End(Revoked(s, {s.phases[r].token}), r)
    case RevokeAllStart(r, user) => Begin(s, r, RevokingAll(user, LiveSessions(s, user), {}))
    case RevokeAllTake(r, token) =>
      var RevokingAll(user, todo, taken) := s.phases[r];
      var taking := if s.sessions[token].revoked then taken else taken + {token};
      s.(phases := s.phases[r := RevokingAll(user, todo - {token}, taking)])
    case RevokeAllCommit(r) => End(Revoked(s, s.phases[r].taken), r)
    case Abort(r) => End(s, r)
  }

  function Next(s: State, step: Step): State { if Enabled(s, step) then Perform(s, step) else s }

  function After(s: State, steps: seq<Step>): State
    decreases |steps|
  {
    if steps == [] then s else After(Next(s, steps[0]), steps[1..])
  }

  // ---- the invariant ----

  /** Sessions of one login form a line: one per generation, all but the newest revoked. */
  predicate InLine(s: State, a: nat, b: nat)
    requires a in s.sessions && b in s.sessions
  {
    s.sessions[a].login == s.sessions[b].login ==>
      (s.sessions[a].generation == s.sessions[b].generation ==> a == b)
      && (s.sessions[a].generation < s.sessions[b].generation ==> s.sessions[a].revoked)
  }

  predicate ParentOk(s: State, t: nat)
    requires t in s.sessions
  {
    var x := s.sessions[t];
    if x.parent.None? then x.generation == 0 && x.login == t
    else
      x.parent.value in s.sessions
      && var p := s.sessions[x.parent.value];
      p.login == x.login && p.generation + 1 == x.generation && p.user == x.user
  }

  /** A login's own token starts its line. */
  predicate LoginOk(s: State, t: nat)
    requires t in s.sessions
  {
    s.sessions[t].login in s.sessions
  }

  predicate LockOk(s: State, r: nat, token: nat)
    requires r in s.phases
  {
    HoldsLock(s.phases[r], token) ==>
      token in s.sessions && !s.sessions[token].revoked && r in s.used
      && (s.phases[r].RevokingAll? ==> token !in s.phases[r].todo)
  }

  ghost predicate LocksExclusive(s: State) {
    forall q, r, token ::
      q in s.phases && r in s.phases && HoldsLock(s.phases[q], token) && HoldsLock(s.phases[r], token) ==> q == r
  }

  ghost predicate Inv(s: State) {
    && (forall a, b :: a in s.sessions && b in s.sessions ==> InLine(s, a, b))
    && (forall t :: t in s.sessions ==> ParentOk(s, t) && LoginOk(s, t))
    && (forall r, token :: r in s.phases ==> LockOk(s, r, token))
    && (forall r :: r in s.phases ==> r in s.used)
    && LocksExclusive(s)
  }

  lemma EndKeepsInv(s: State, r: nat)
    requires Inv(s)
    ensures Inv(End(s, r))
  {
    var t := End(s, r);
    forall a, b | a in t.sessions && b in t.sessions ensures InLine(t, a, b) {
      assert InLine(s, a, b);
    }
    forall x | x in t.sessions ensures ParentOk(t, x) && LoginOk(t, x) {
      assert ParentOk(s, x) && LoginOk(s, x);
    }
    forall q, token | q in t.phases ensures LockOk(t, q, token) {
      assert LockOk(s, q, token);
    }
  }

  /** Taking a lock, or starting a request that holds none yet. */
  lemma PhaseKeepsInv(s: State, r: nat, p: Phase)
    requires Inv(s)
    requires forall token :: HoldsLock(p, token) ==>
      token in s.sessions && !s.sessions[token].revoked && (p.RevokingAll? ==> token !in p.todo)
    requires forall q, token :: q in s.phases && q != r && HoldsLock(s.phases[q], token) ==> !HoldsLock(p, token)
    ensures Inv(Begin(s, r, p))
  {
    var t := Begin(s, r, p);
    forall a, b | a in t.sessions && b in t.sessions ensures InLine(t, a, b) {
      assert InLine(s, a, b);
    }
    forall x | x in t.sessions ensures ParentOk(t, x) && LoginOk(t, x) {
      assert ParentOk(s, x) && LoginOk(s, x);
    }
    forall q, token | q in t.phases ensures LockOk(t, q, token) {
      if q != r {
        assert LockOk(s, q, token);
      }
    }
  }

  /** Revoking sessions nobody else has locked. */
  lemma RevokedKeepsInv(s: State, tokens: set<nat>, r: nat)
    requires Inv(s) && tokens <= s.sessions.Keys
    requires forall q, token :: q in s.phases && q != r && token in tokens ==> !HoldsLock(s.phases[q], token)
    ensures Inv(End(Revoked(s, tokens), r))
  {
    hide HoldsLock;
    var t := End(Revoked(s, tokens), r);
    forall a, b | a in t.sessions && b in t.sessions ensures InLine(t, a, b) {
      assert InLine(s, a, b);
    }
    forall x | x in t.sessions ensures ParentOk(t, x) && LoginOk(t, x) {
      assert ParentOk(s, x) && LoginOk(s, x);
    }
    forall q, token | q in t.phases ensures LockOk(t, q, token) {
      assert LockOk(s, q, token);
    }
  }

  lemma RotatedLine(s: State, token: nat, newToken: nat, expiresAt: int, a: nat, b: nat)
    requires Inv(s) && token in s.sessions && !s.sessions[token].revoked && newToken !in s.sessions
    requires a in Rotated(s, token, newToken, expiresAt).sessions
    requires b in Rotated(s, token, newToken, expiresAt).sessions
    ensures InLine(Rotated(s, token, newToken, expiresAt), a, b)
  {
    hide LockOk, LocksExclusive, ParentOk, LoginOk;
    if a != newToken && b != newToken {
      assert InLine(s, a, b);
    } else if a != newToken {
      assert InLine(s, a, token) && InLine(s, token, a);
    } else if b != newToken {
      assert InLine(s, b, token) && InLine(s, token, b);
    }
  }

  lemma RotatedKeepsInv(s: State, token: nat, newToken: nat, expiresAt: int, r: nat)
    requires Inv(s) && r in s.phases && s.phases[r] == Rotating(token) && token in s.sessions && newToken !in s.sessions
    ensures Inv(End(Rotated(s, token, newToken, expiresAt), r))
  {
    assert LockOk(s, r, token);
    var u := Rotated(s, token, newToken, expiresAt);
    var t := End(u, r);
    forall a, b | a in t.sessions && b in t.sessions ensures InLine(t, a, b) {
      RotatedLine(s, token, newToken, expiresAt, a, b);
      assert InLine(u, a, b);
    }
    forall x | x in t.sessions ensures ParentOk(t, x) && LoginOk(t, x) {
      assert x in s.sessions ==> ParentOk(s, x) && LoginOk(s, x);
      assert LoginOk(s, token);
    }
    forall q, k | q in t.phases ensures LockOk(t, q, k) {
      assert LockOk(s, q, k);
    }
  }

  lemma LoginKeepsInv(s: State, user: nat, token: nat, expiresAt: int)
    requires Inv(s) && token !in s.sessions
    ensures Inv(Perform(s, Login(user, token, expiresAt)))
  {
    var t := Perform(s, Login(user, token, expiresAt));
    forall a, b | a in t.sessions && b in t.sessions ensures InLine(t, a, b) {
      if a in s.sessions && b in s.sessions {
        assert InLine(s, a, b);
      } else {
        assert a in s.sessions ==> LoginOk(s, a);
        assert b in s.sessions ==> LoginOk(s, b);
      }
    }
    forall x | x in t.sessions ensures ParentOk(t, x) && LoginOk(t, x) {
      assert x in s.sessions ==> ParentOk(s, x) && LoginOk(s, x);
    }
    forall q, k | q in t.phases ensures LockOk(t, q, k) {
      assert LockOk(s, q, k);
    }
  }

  lemma TakeKeepsInv(s: State, r: nat, token: nat)
    requires Inv(s) && Enabled(s, RevokeAllTake(r, token))
    ensures Inv(Perform(s, RevokeAllTake(r, token)))
  {
    hide InLine, ParentOk, LoginOk;
    var RevokingAll(user, todo, taken) := s.phases[r];
    var p := RevokingAll(user, todo - {token}, if s.sessions[token].revoked then taken else taken + {token});
    forall k | HoldsLock(p, k)
      ensures k in s.sessions && !s.sessions[k].revoked && k !in p.todo
      ensures forall q :: q in s.phases && q != r ==> !HoldsLock(s.phases[q], k)
    {
      assert LockOk(s, r, k);
    }
    PhaseKeepsInv(s, r, p);
    assert s.used + {r} == s.used;
  }

  lemma StepKeepsInv(s: State, step: Step)
    requires Inv(s)
    ensures Inv(Next(s, step))
  {
    hide InLine, ParentOk, LoginOk, LiveSessions, Rotated, Revoked;
    if Enabled(s, step) {
      match step
      case Login(user, token, expiresAt) => LoginKeepsInv(s, user, token, expiresAt);
      case RefreshLock(r, token, now) => LockKeepsInv(s, r, token, Rotating(token));
      case LogoutLock(r, token, now) => LockKeepsInv(s, r, token, Revoking(token));
      case RefreshCommit(r, newToken, expiresAt) => RotatedKeepsInv(s, s.phases[r].token, newToken, expiresAt, r);
      case LogoutCommit(r) =>
        assert HoldsLock(s.phases[r], s.phases[r].token);
        RevokedKeepsInv(s, {s.phases[r].token}, r);
      case RevokeAllStart(r, user) => PhaseKeepsInv(s, r, RevokingAll(user, LiveSessions(s, user), {}));
      case RevokeAllTake(r, token) => TakeKeepsInv(s, r, token);
      case RevokeAllCommit(r) => RevokedKeepsInv(s, s.phases[r].taken, r);
      case Abort(r) => EndKeepsInv(s, r);
    }
  }

  lemma LockKeepsInv(s: State, r: nat, token: nat, p: Phase)
    requires Inv(s) && r !in s.used && !IsLocked(s, token) && (p == Rotating(token) || p == Revoking(token))
    ensures token in s.sessions && !s.sessions[token].revoked ==> Inv(Begin(s, r, p))
    ensures Inv(s.(used := s.used + {r}))
  {
    if token in s.sessions && !s.sessions[token].revoked {
      PhaseKeepsInv(s, r, p);
    }
    var t := s.(used := s.used + {r});
    forall a, b | a in t.sessions && b in t.sessions ensures InLine(t, a, b) {
      assert InLine(s, a, b);
    }
    forall x | x in t.sessions ensures ParentOk(t, x) && LoginOk(t, x) {
      assert ParentOk(s, x) && LoginOk(s, x);
    }
    forall q, k | q in t.phases ensures LockOk(t, q, k) {
      assert LockOk(s, q, k);
    }
  }

  lemma InitInv()
    ensures Inv(INIT)
  {
  }

  lemma {:induction false} RunKeepsInv(s: State, steps: seq<Step>)
    requires Inv(s)
    ensures Inv(After(s, steps))
    decreases |steps|
  {
    hide Inv, Next;
    if steps != [] {
      StepKeepsInv(s, steps[0]);
      RunKeepsInv(Next(s, steps[0]), steps[1..]);
    }
  }

  // ---- rotation ----

  /** Over every interleaving a refresh token is exchanged for at most one new session, and at most one session
      of each login is not revoked. */
  lemma RotatesOnce(steps: seq<Step>, a: nat, b: nat)
    requires var s := After(INIT, steps); a in s.sessions && b in s.sessions
    ensures var s := After(INIT, steps);
      s.sessions[a].parent.Some? && s.sessions[a].parent == s.sessions[b].parent ==> a == b
    ensures var s := After(INIT, steps);
      s.sessions[a].login == s.sessions[b].login && !s.sessions[a].revoked && !s.sessions[b].revoked ==> a == b
  {
    hide After, LockOk, LocksExclusive;
    InitInv();
    RunKeepsInv(INIT, steps);
    var s := After(INIT, steps);
    assert InLine(s, a, b) && InLine(s, b, a) && ParentOk(s, a) && ParentOk(s, b);
  }

  /** A revoked session stays revoked, and every session keeps its user and login. */
  lemma {:induction false} RevokedForever(s: State, steps: seq<Step>, t: nat)
    requires t in s.sessions
    ensures t in After(s, steps).sessions
    ensures var x, y := s.sessions[t], After(s, steps).sessions[t];
      y.user == x.user && y.login == x.login && (x.revoked ==> y.revoked)
    decreases |steps|
  {
    if steps != [] {
      StepKeepsSession(s, steps[0], t);
      hide Next;
      RevokedForever(Next(s, steps[0]), steps[1..], t);
    }
  }

  lemma StepKeepsSession(s: State, step: Step, t: nat)
    requires t in s.sessions
    ensures t in Next(s, step).sessions
    ensures var x, y := s.sessions[t], Next(s, step).sessions[t];
      y.user == x.user && y.login == x.login && (x.revoked ==> y.revoked)
  {
    hide LiveSessions, IsLocked, Active;
  }

  // ---- logout ----

  /** No session of the login is left unrevoked. */
  ghost predicate LoginEnded(s: State, login: nat) {
    login in s.sessions && forall t :: t in s.sessions && s.sessions[t].login == login ==> s.sessions[t].revoked
  }

  lemma StepKeepsEnded(s: State, step: Step, login: nat)
    requires Inv(s) && LoginEnded(s, login)
    ensures LoginEnded(Next(s, step), login)
  {
    hide LiveSessions, IsLocked, Active, InLine, ParentOk, LoginOk, LocksExclusive;
    if Enabled(s, step) && step.RefreshCommit? {
      assert LockOk(s, step.request, s.phases[step.request].token);
    }
  }

  /** Once a login has ended it never has an unrevoked session again. */
  lemma {:induction false} EndedForever(s: State, steps: seq<Step>, login: nat)
    requires Inv(s) && LoginEnded(s, login)
    ensures LoginEnded(After(s, steps), login)
    decreases |steps|
  {
    hide Inv, Next, LoginEnded;
    if steps != [] {
      StepKeepsInv(s, steps[0]);
      StepKeepsEnded(s, steps[0], login);
      EndedForever(Next(s, steps[0]), steps[1..], login);
    }
  }

  /** A logout that found its token's session ends the whole login at its commit, whatever ran between its lock
      and its commit, and for ever after. */
  lemma LogoutEndsLogin(past: seq<Step>, request: nat, future: seq<Step>)
    requires Enabled(After(INIT, past), LogoutCommit(request))
    ensures var s := After(INIT, past);
      LoginEnded(After(Next(s, LogoutCommit(request)), future), s.sessions[s.phases[request].token].login)
  {
    hide After;
    var s := After(INIT, past);
    RunKeepsInv(INIT, past);
    CommitEndsLogin(s, request);
    StepKeepsInv(s, LogoutCommit(request));
    hide Inv, Next, Enabled;
    EndedForever(Next(s, LogoutCommit(request)), future, s.sessions[s.phases[request].token].login);
  }

  lemma CommitEndsLogin(s: State, request: nat)
    requires Inv(s) && Enabled(s, LogoutCommit(request))
    ensures LoginEnded(Next(s, LogoutCommit(request)), s.sessions[s.phases[request].token].login)
  {
    hide LocksExclusive, ParentOk;
    var token := s.phases[request].token;
    assert LockOk(s, request, token) && LoginOk(s, token);
    forall t | t in s.sessions && s.sessions[t].login == s.sessions[token].login && t != token
      ensures s.sessions[t].revoked
    {
      assert InLine(s, t, token) && InLine(s, token, t);
    }
  }

  /** A logout whose token is not active does nothing. */
  lemma LogoutMissed(s: State, request: nat, token: nat, now: int)
    requires Inv(s) && Enabled(s, LogoutLock(request, token, now)) && !Active(s, token, now)
    ensures Next(Next(s, LogoutLock(request, token, now)), LogoutCommit(request)).sessions == s.sessions
  {
    hide InLine, ParentOk, LocksExclusive, IsLocked, LoginOk, LockOk;
    var u := Next(s, LogoutLock(request, token, now));
    assert request !in u.phases;
  }

  lemma LogoutFound(s: State, request: nat, token: nat, now: int)
    requires Inv(s) && Enabled(s, LogoutLock(request, token, now)) && Active(s, token, now)
    ensures LoginEnded(Next(Next(s, LogoutLock(request, token, now)), LogoutCommit(request)), s.sessions[token].login)
  {
    StepKeepsInv(s, LogoutLock(request, token, now));
    hide Inv, IsLocked, Revoked, LoginEnded;
    CommitEndsLogin(Begin(s, request, Revoking(token)), request);
  }

  /** A logout run without interruption leaves its token's login ended exactly when it found the token active
      or the login had ended before; a token already exchanged for a new one leaves the new one valid. */
  lemma LogoutExact(s: State, request: nat, token: nat, now: int)
    requires Inv(s) && token in s.sessions && Enabled(s, LogoutLock(request, token, now))
    ensures var t := Next(Next(s, LogoutLock(request, token, now)), LogoutCommit(request));
      LoginEnded(t, s.sessions[token].login) <==> Active(s, token, now) || LoginEnded(s, s.sessions[token].login)
  {
    hide Inv, Next, Enabled, Active;
    if Active(s, token, now) {
      LogoutFound(s, request, token, now);
    } else {
      LogoutMissed(s, request, token, now);
    }
  }

  // ---- logout everywhere ----

  /** Every session of the snapshot is revoked or still on the request's list. */
  predicate Covers(s: State, request: nat, user: nat, snapshot: set<nat>) {
    request in s.phases && s.phases[request].RevokingAll? ==>
      s.phases[request].user == user
      && forall t :: t in snapshot ==>
           t in s.sessions && (s.sessions[t].revoked || t in s.phases[request].todo || t in s.phases[request].taken)
  }

  lemma StepKeepsCovers(s: State, step: Step, request: nat, user: nat, snapshot: set<nat>)
    requires request in s.used && Covers(s, request, user, snapshot)
    ensures request in Next(s, step).used && Covers(Next(s, step), request, user, snapshot)
  {
    hide LiveSessions, IsLocked, Active;
  }

  lemma {:induction false} RunKeepsCovers(s: State, steps: seq<Step>, request: nat, user: nat, snapshot: set<nat>)
    requires request in s.used && Covers(s, request, user, snapshot)
    ensures Covers(After(s, steps), request, user, snapshot)
    decreases |steps|
  {
    if steps != [] {
      hide Next, Covers;
      StepKeepsCovers(s, steps[0], request, user, snapshot);
      RunKeepsCovers(Next(s, steps[0]), steps[1..], request, user, snapshot);
    }
  }

  /** The session of the user that a step creates. */
  function Created(s: State, step: Step, user: nat): set<nat> {
    if !Enabled(s, step) then {}
    else
      match step
      case Login(owner, token, _) => if owner == user then {token} else {}
      case RefreshCommit(r, newToken, _) => if s.sessions[s.phases[r].token].user == user then {newToken} else {}
      case _ => {}
  }

  /** The sessions a step revokes. */
  function RevokedBy(s: State, step: Step): set<nat> {
    if !Enabled(s, step) then {}
    else
      match step
      case RefreshCommit(r, _, _) => {s.phases[r].token}
      case LogoutCommit(r) => {s.phases[r].token}
      case RevokeAllCommit(r) => s.phases[r].taken
      case _ => {}
  }

  function RevokedDuring(s: State, steps: seq<Step>): set<nat>
    decreases |steps|
  {
    if steps == [] then {} else RevokedBy(s, steps[0]) + RevokedDuring(Next(s, steps[0]), steps[1..])
  }

  function CreatedDuring(s: State, steps: seq<Step>, user: nat): set<nat>
    decreases |steps|
  {
    if steps == [] then {} else Created(s, steps[0], user) + CreatedDuring(Next(s, steps[0]), steps[1..], user)
  }

  /** The sessions of the user that some step creates and no later step revokes. */
  function CreatedAndKept(s: State, steps: seq<Step>, user: nat): set<nat>
    decreases |steps|
  {
    if steps == [] then {}
    else
      var next := Next(s, steps[0]);
      Created(s, steps[0], user) - RevokedDuring(next, steps[1..]) + CreatedAndKept(next, steps[1..], user)
  }

  lemma StepLive(s: State, step: Step, user: nat)
    ensures LiveSessions(Next(s, step), user) == LiveSessions(s, user) - RevokedBy(s, step) + Created(s, step, user)
    ensures s.sessions.Keys <= Next(s, step).sessions.Keys && Created(s, step, user) !! s.sessions.Keys
  {
    hide IsLocked, Active;
  }

  lemma {:induction false} RunLive(s: State, steps: seq<Step>, user: nat)
    ensures LiveSessions(After(s, steps), user)
      == LiveSessions(s, user) - RevokedDuring(s, steps) + CreatedAndKept(s, steps, user)
    ensures CreatedAndKept(s, steps, user) !! s.sessions.Keys
    ensures CreatedAndKept(s, steps, user) <= CreatedDuring(s, steps, user)
    decreases |steps|
  {
    hide LiveSessions, RevokedBy, Created, Next;
    if steps != [] {
      StepLive(s, steps[0], user);
      RunLive(Next(s, steps[0]), steps[1..], user);
    }
  }

  /** When logout_all commits, everything that was live when its statement began is revoked, and what is live for
      the user is exactly what was created since and not revoked again; so nothing is when no login of the user
      and no rotation of a session of the user's was committed in between. */
  lemma LogoutAllExact(past: seq<Step>, request: nat, user: nat, during: seq<Step>)
    requires Enabled(After(INIT, past), RevokeAllStart(request, user))
    requires Enabled(After(Next(After(INIT, past), RevokeAllStart(request, user)), during), RevokeAllCommit(request))
    ensures var s := After(INIT, past);
      var u := Next(s, RevokeAllStart(request, user));
      var end := Next(After(u, during), RevokeAllCommit(request));
      LiveSessions(end, user) !! LiveSessions(s, user)
      && LiveSessions(end, user) == CreatedAndKept(u, during, user)
      && (CreatedDuring(u, during, user) == {} ==> LiveSessions(end, user) == {})
  {
    var s := After(INIT, past);
    var u := Next(s, RevokeAllStart(request, user));
    RunKeepsInv(INIT, past);
    StepKeepsInv(s, RevokeAllStart(request, user));
    RunLive(u, during, user);
    assert u.sessions == s.sessions && LiveSessions(u, user) == LiveSessions(s, user);
    SnapshotHandled(u, during, request, user);
    var t := After(u, during);
    StepLive(t, RevokeAllCommit(request), user);
    hide After, Inv, CreatedAndKept, CreatedDuring, Next, RevokedDuring;
    assert LiveSessions(s, user) <= s.sessions.Keys;
  }

  /** At the commit every session of the snapshot is revoked or about to be, and nothing else is about to be. */
  lemma SnapshotHandled(u: State, during: seq<Step>, request: nat, user: nat)
    requires Inv(u) && request in u.phases && request in u.used
    requires u.phases[request] == RevokingAll(user, LiveSessions(u, user), {})
    requires Enabled(After(u, during), RevokeAllCommit(request))
    ensures var taken := After(u, during).phases[request].taken;
      taken <= LiveSessions(u, user)
      && forall x :: x in LiveSessions(u, user) ==> x in taken || x !in LiveSessions(After(u, during), user)
  {
    var snapshot := LiveSessions(u, user);
    assert Covers(u, request, user, snapshot);
    RunKeepsCovers(u, during, request, user, snapshot);
    TakenOnlyOld(u, during, request, user, snapshot);
  }

  /** The list only ever holds sessions of the snapshot. */
  predicate OnlyOld(s: State, request: nat, snapshot: set<nat>) {
    request in s.phases && s.phases[request].RevokingAll? ==>
      s.phases[request].todo <= snapshot && s.phases[request].taken <= snapshot
  }

  lemma StepKeepsOnlyOld(s: State, step: Step, request: nat, snapshot: set<nat>)
    requires request in s.used && OnlyOld(s, request, snapshot)
    ensures request in Next(s, step).used && OnlyOld(Next(s, step), request, snapshot)
  {
    hide LiveSessions, IsLocked, Active;
  }

  lemma {:induction false} TakenOnlyOld(s: State, steps: seq<Step>, request: nat, user: nat, snapshot: set<nat>)
    requires request in s.used && OnlyOld(s, request, snapshot)
    ensures OnlyOld(After(s, steps), request, snapshot)
    decreases |steps|
  {
    if steps != [] {
      hide Next, OnlyOld;
      StepKeepsOnlyOld(s, steps[0], request, snapshot);
      TakenOnlyOld(Next(s, steps[0]), steps[1..], request, user, snapshot);
    }
  }

  const FIRST_SESSION := Session(0, 100, false, 7, 0, None)

  const BOTH_SESSIONS := map[7 := FIRST_SESSION.(revoked := true), 8 := Session(0, 100, false, 7, 1, Some(7))]

  lemma RotationUnderWay()
    ensures After(INIT, [Login(0, 7, 100), RefreshLock(1, 7, 50)])
         == State(map[7 := FIRST_SESSION], map[1 := Rotating(7)], {1})
  {
    TwoSteps(INIT, Login(0, 7, 100), RefreshLock(1, 7, 50));
    assert Next(INIT, Login(0, 7, 100)) == State(map[7 := FIRST_SESSION], map[], {});
  }

  lemma RotatedWhileRevoking()
    ensures var u := State(map[7 := FIRST_SESSION], map[1 := Rotating(7), 2 := RevokingAll(0, {7}, {})], {1, 2});
      After(u, [RefreshCommit(1, 8, 100), RevokeAllTake(2, 7)])
      == State(BOTH_SESSIONS, map[2 := RevokingAll(0, {}, {})], {1, 2})
  {
    var u := State(map[7 := FIRST_SESSION], map[1 := Rotating(7), 2 := RevokingAll(0, {7}, {})], {1, 2});
    var v := State(BOTH_SESSIONS, map[2 := RevokingAll(0, {7}, {})], {1, 2});
    TwoSteps(u, RefreshCommit(1, 8, 100), RevokeAllTake(2, 7));
    assert Next(u, RefreshCommit(1, 8, 100)) == v;
    assert !IsLocked(v, 7) && {7} - {7} == {};
    assert Enabled(v, RevokeAllTake(2, 7));
  }

  /** A rotation that held its lock when logout_all began survives it. */
  lemma LogoutAllMissesRotation() returns (past: seq<Step>, during: seq<Step>)
    ensures Enabled(After(INIT, past), RevokeAllStart(2, 0))
    ensures var t := After(Next(After(INIT, past), RevokeAllStart(2, 0)), during);
      Enabled(t, RevokeAllCommit(2)) && LiveSessions(Next(t, RevokeAllCommit(2)), 0) == {8}
  {
    past, during := [Login(0, 7, 100), RefreshLock(1, 7, 50)], [RefreshCommit(1, 8, 100), RevokeAllTake(2, 7)];
    RotationUnderWay();
    RotatedWhileRevoking();
    var s := After(INIT, past);
    assert LiveSessions(s, 0) == {7};
    assert Next(s, RevokeAllStart(2, 0))
        == State(s.sessions, map[1 := Rotating(7), 2 := RevokingAll(0, {7}, {})], {1, 2});
    hide After;
    var t := After(Next(s, RevokeAllStart(2, 0)), during);
    assert Next(t, RevokeAllCommit(2)).sessions == BOTH_SESSIONS;
  }

  lemma TwoSteps(s: State, first: Step, second: Step)
    ensures After(s, [first, second]) == Next(Next(s, first), second)
  {
    hide Next;
    assert [first, second][1..] == [second] && [second][1..] == [];
    assert After(Next(s, first), [second]) == Next(Next(s, first), second);
  }

  // ---- the service, one request at a time ----

  class AuthService {
    var s: State

    constructor ()
      ensures s == INIT
    {
      s := INIT;
    }

    /** create_login_tokens: a first session whose token starts its own line. */
    method CreateLoginTokens(user: nat, token: nat, expiresAt: int)
      requires Inv(s) && token !in s.sessions
      modifies this
      ensures Inv(s) && s.phases == old(s).phases && s.used == old(s).used
      ensures s.sessions == old(s).sessions[token := Session(user, expiresAt, false, token, 0, None)]
    {
      StepKeepsInv(s, Login(user, token, expiresAt));
      s := Next(s, Login(user, token, expiresAt));
    }

    /** refresh_access_token: the new token, or None for an AuthError, which leaves every session as it was. Other
        requests may be under way; one that had locked this session would have to end first. */
    method RefreshAccessToken(request: nat, token: nat, newToken: nat, now: int, expiresAt: int, userActive: bool)
        returns (r: Option<nat>)
      requires Inv(s) && !IsLocked(s, token) && request !in s.used && newToken !in s.sessions
      modifies this
      ensures Inv(s) && s.phases == old(s).phases
      ensures r.Some? <==>
                && token in old(s).sessions && !old(s).sessions[token].revoked && old(s).sessions[token].expiresAt > now
                && userActive
      ensures r.Some? ==>
                && r.value == newToken
                && var before := old(s).sessions[token];
                s.sessions == old(s).sessions[token := before.(revoked := true)][
                  newToken := Session(before.user, expiresAt, false, before.login, before.generation + 1, Some(token))]
      ensures r.None? ==> s.sessions == old(s).sessions
    {
      RequestUnused(s, request);
      ActiveOutright(s, token, now);
      hide Inv, Rotated, Active, IsLocked;
      StepKeepsInv(s, RefreshLock(request, token, now));
      s := Next(s, RefreshLock(request, token, now));
      if request !in s.phases {
        return None;
      }
      assert Active(old(s), token, now);
      ActiveIsStored(old(s), token, now);
      PhasesRestored(old(s).phases, request, Rotating(token));
      if !userActive {
        StepKeepsInv(s, Abort(request));
        s := Next(s, Abort(request));
        return None;
      }
      RotatedSessions(old(s), s, token, newToken, expiresAt);
      RotatedOutright(old(s), token, newToken, expiresAt);
      StepKeepsInv(s, RefreshCommit(request, newToken, expiresAt));
      s := Next(s, RefreshCommit(request, newToken, expiresAt));
      r := Some(newToken);
    }

    /** logout: revokes the session of an active token; always reports success. */
    method Logout(request: nat, token: nat, now: int) returns (r: bool)
      requires Inv(s) && !IsLocked(s, token) && request !in s.used
      modifies this
      ensures Inv(s) && s.phases == old(s).phases && r
      ensures s.sessions == if token in old(s).sessions && !old(s).sessions[token].revoked
                               && old(s).sessions[token].expiresAt > now
                            then old(s).sessions[token := old(s).sessions[token].(revoked := true)]
                            else old(s).sessions
    {
      RequestUnused(s, request);
      hide Inv, IsLocked;
      PhasesRestored(s.phases, request, Revoking(token));
      StepKeepsInv(s, LogoutLock(request, token, now));
      s := Next(s, LogoutLock(request, token, now));
      if request in s.phases {
        assert s.phases == old(s).phases[request := Revoking(token)];
        StepKeepsInv(s, LogoutCommit(request));
        s := Next(s, LogoutCommit(request));
      }
      r := true;
    }

    /** The rows of logout_all's UPDATE, one by one. */
    method TakeAll(request: nat, user: nat, ghost live: set<nat>)
      requires Inv(s) && s.phases == map[request := RevokingAll(user, live, {})]
      requires forall t :: t in live ==> t in s.sessions && !s.sessions[t].revoked
      modifies this
      ensures Inv(s) && s.phases == map[request := RevokingAll(user, {}, live)] && s.sessions == old(s).sessions
    {
      var todo := s.phases[request].todo;
      assert live - live == {};
      while todo != {}
        invariant Inv(s) && s.sessions == old(s).sessions && todo <= live
        invariant s.phases == map[request := RevokingAll(user, todo, live - todo)]
        decreases todo
      {
        var t :| t in todo;
        NotTakenYet(s, request, t);
        StepKeepsInv(s, RevokeAllTake(request, t));
        hide Inv, IsLocked;
        s := Next(s, RevokeAllTake(request, t));
        assert live - (todo - {t}) == live - todo + {t};
        todo := todo - {t};
      }
      assert live - {} == live;
    }

    /** logout_all: with no other request under way, exactly the user's live sessions are revoked, and counted. */
    method LogoutAll(request: nat, user: nat) returns (revokedCount: nat)
      requires Inv(s) && s.phases == map[] && request !in s.used
      modifies this
      ensures Inv(s) && s.phases == map[]
      ensures revokedCount == |LiveSessions(old(s), user)|
      ensures s.sessions.Keys == old(s).sessions.Keys
      ensures forall t :: t in old(s).sessions ==>
                            s.sessions[t] == if old(s).sessions[t].user == user
                                             then old(s).sessions[t].(revoked := true) else old(s).sessions[t]
      ensures LiveSessions(s, user) == {}
    {
      StepKeepsInv(s, RevokeAllStart(request, user));
      s := Next(s, RevokeAllStart(request, user));
      TakeAll(request, user, LiveSessions(old(s), user));
      hide Inv;
      revokedCount := |s.phases[request].taken|;
      StepKeepsInv(s, RevokeAllCommit(request));
      s := Next(s, RevokeAllCommit(request));
      assert s.phases == map[];
    }
  }

  lemma RequestUnused(s: State, request: nat)
    requires Inv(s) && request !in s.used
    ensures request !in s.phases
  {
  }

  lemma PhasesRestored(phases: map<nat, Phase>, request: nat, p: Phase)
    requires request !in phases
    ensures phases[request := p] - {request} == phases
  {
  }

  lemma ActiveIsStored(s: State, token: nat, now: int)
    requires Active(s, token, now)
    ensures token in s.sessions
  {
  }

  lemma RotatedSessions(s: State, t: State, token: nat, newToken: nat, expiresAt: int)
    requires token in s.sessions && t.sessions == s.sessions
    ensures Rotated(t, token, newToken, expiresAt).sessions == Rotated(s, token, newToken, expiresAt).sessions
    ensures Rotated(t, token, newToken, expiresAt).phases == t.phases
  {
  }

  lemma ActiveOutright(s: State, token: nat, now: int)
    ensures Active(s, token, now)
      <==> token in s.sessions && !s.sessions[token].revoked && s.sessions[token].expiresAt > now
  {
  }

  lemma RotatedOutright(s: State, token: nat, newToken: nat, expiresAt: int)
    requires token in s.sessions
    ensures var before := s.sessions[token];
      Rotated(s, token, newToken, expiresAt).sessions
      == s.sessions[token := before.(revoked := true)][
           newToken := Session(before.user, expiresAt, false, before.login, before.generation + 1, Some(token))]
  {
  }

  /** A row still on the list of the only request is not locked. */
  lemma NotTakenYet(s: State, request: nat, t: nat)
    requires Inv(s) && s.phases.Keys == {request} && s.phases[request].RevokingAll? && t in s.phases[request].todo
    ensures !IsLocked(s, t)
  {
    assert LockOk(s, request, t);
  }
}
