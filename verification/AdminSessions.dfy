/** Admin sessions: what each request does to the signed cookie, the account file and the break-glass
    record, and which sessions can ever be authenticated. */
module AdminSessions {
  import opened Prelude
  import opened Text
  import BreakGlass
  import Mfa

  const PENDING_SECONDS := 300

  /** A password accepted for an account that also wants a second factor. */
  datatype Pending = Pending(email: string, since: int)

  /** The cookie's content. The three pending keys are only ever set and removed together. */
  datatype Session = Session(
    authenticated: bool,
    email: Option<string>,
    role: Option<string>,
    mfaVerified: Option<bool>,
    version: Option<int>,
    pending: Option<Pending>,
    breakGlass: bool)

  const EMPTY := Session(false, None, None, None, None, None, false)

  /** The account file; an absent secret is the empty string. */
  datatype Account = Account(
    passwordHash: string,
    email: string,
    role: string,
    secret: string,
    enabled: bool,
    recovery: seq<string>,
    version: int)

  datatype World = World(account: Account, token: Option<BreakGlass.Token>)

  /** Password check, one-time password check at a time (None where it raises), and SHA-256. */
  datatype Env = Env(
    verifyPassword: (string, string) -> bool,
    verifyTotp: (string, string, int) -> Option<bool>,
    sha: string -> string)

  function RecoveryHash(env: Env): string -> string { code => env.sha(BreakGlass.Folded(code)) }

  type Secret = s: string | s != "" witness "A"

  /** Freshly generated secrets, hashes and codes, the limiter's verdict and the form token's verdict are
      part of the request. */
  datatype Request =
    | LoginPage
    | Login(email: string, password: string, limited: bool, csrfOk: bool)
    | LoginMfa(code: string, limited: bool, csrfOk: bool)
    | LoginBreakGlass(token: string, csrfOk: bool, unlinked: bool)
    | ChangePassword(current: string, next: string, confirm: string, csrfOk: bool, hashed: string)
    | MfaEnable(code: string, csrfOk: bool)
    | MfaDisable(csrfOk: bool)
    | MfaRecovery(csrfOk: bool, hashes: seq<string>)
    | MfaInit(csrfOk: bool, secret: Secret, hashes: seq<string>)
    | Page

  // ---- Roles ----

  function Level(role: string): int {
    if role == "admin" then 100 else if role == "operator" then 50 else if role == "readonly" then 10 else 0
  }

  function Or<T>(o: Option<T>, default: T): T { if o.Some? then o.value else default }

  /** The check in front of every page. It does not look at the session's version. */
  predicate Admits(s: Session, minRole: string) {
    s.authenticated && Or(s.mfaVerified, true) && Level(Or(s.role, "readonly")) >= Level(minRole)
  }

  // ---- What a request does ----

  predicate PasswordOk(env: Env, a: Account, r: Request)
    requires r.Login?
  {
    !r.limited && r.csrfOk && a.passwordHash != "" && env.verifyPassword(r.password, a.passwordHash)
  }

  /** The code reaches the account: a password was accepted at most 300 seconds ago. */
  predicate CodeConsidered(a: Account, s: Session, r: Request, now: int)
    requires r.LoginMfa?
  {
    s.pending.Some? && !r.limited && r.csrfOk && now - s.pending.value.since <= PENDING_SECONDS && a.secret != ""
  }

  predicate TotpOk(env: Env, a: Account, code: string, now: int) {
    code != "" && env.verifyTotp(a.secret, code, now) == Some(true)
  }

  /** The check raises, and the request ends in an error that saves nothing. */
  predicate TotpRaises(env: Env, a: Account, code: string, now: int) {
    code != "" && env.verifyTotp(a.secret, code, now).None?
  }

  predicate RecoveryOk(env: Env, a: Account, code: string) {
    Mfa.Use(a.recovery, code, RecoveryHash(env)).0
  }

  /** The code is accepted, as a one-time password or else as a recovery code. */
  predicate FactorOk(env: Env, a: Account, code: string, now: int) {
    TotpOk(env, a, code, now) || (!TotpRaises(env, a, code, now) && RecoveryOk(env, a, code))
  }

  function Granted(s: Session, email: string, a: Account): Session {
    s.(authenticated := true, email := Some(email), role := Some(a.role), mfaVerified := Some(true), version := Some(a.version))
  }

  function OnLogin(env: Env, w: World, s: Session, r: Request, now: int): (World, Session)
    requires r.Login?
  {
    if !PasswordOk(env, w.account, r) then (w, s)
    else if w.account.enabled then (w, s.(pending := Some(Pending(r.email, now))))
    else (w, Granted(s, r.email, w.account))
  }

  function OnLoginMfa(env: Env, w: World, s: Session, r: Request, now: int): (World, Session)
    requires r.LoginMfa?
  {
    var a, code := w.account, Strip(r.code);
    if CodeConsidered(a, s, r, now) then
      var granted := Granted(s, s.pending.value.email, a).(pending := None);
      if TotpOk(env, a, code, now) then (w, granted)
      else if FactorOk(env, a, code, now) then
        (w.(account := a.(recovery := Mfa.Use(a.recovery, code, RecoveryHash(env)).1)), granted)
      else (w, s)
    else if s.pending.Some? && !r.limited && r.csrfOk && now - s.pending.value.since > PENDING_SECONDS then
      (w, s.(pending := None))
    else (w, s)
  }

  predicate BreakGlassOk(env: Env, w: World, r: Request, now: int)
    requires r.LoginBreakGlass?
  {
    r.csrfOk && Strip(r.token) != "" && BreakGlass.Accepts(env.sha, w.token, Strip(r.token), now)
  }

  function OnLoginBreakGlass(env: Env, w: World, s: Session, r: Request, now: int): (World, Session)
    requires r.LoginBreakGlass?
  {
    if !BreakGlassOk(env, w, r, now) then (w, s)
    else
      (w.(token := if r.unlinked then None else w.token),
       s.(authenticated := true, email := Some(w.token.value.operator), role := Some("operator"),
          mfaVerified := Some(true), breakGlass := true))
  }

  /** Requests that edit the account; None when the request is refused. */
  function Edited(env: Env, a: Account, s: Session, r: Request, now: int): Option<Account> {
    match r
    case ChangePassword(current, next, confirm, csrfOk, hashed) =>
      if && Admits(s, "admin") && csrfOk && current != "" && next != "" && next == confirm && |next| >= 8
         && a.passwordHash != "" && env.verifyPassword(current, a.passwordHash)
      then Some(a.(passwordHash := hashed)) else None
    case MfaEnable(code, csrfOk) =>
      if Admits(s, "admin") && csrfOk && a.secret != "" && TotpOk(env, a, Strip(code), now)
      then Some(a.(enabled := true, version := a.version + 1)) else None
    case MfaDisable(csrfOk) =>
      if Admits(s, "admin") && csrfOk
      then Some(a.(enabled := false, secret := "", version := a.version + 1)) else None
    case MfaRecovery(csrfOk, hashes) =>
      if Admits(s, "operator") && csrfOk
      then Some(a.(recovery := hashes, version := a.version + 1)) else None
    case MfaInit(csrfOk, secret, hashes) =>
      if Admits(s, "admin") && csrfOk
      then Some(a.(enabled := false, secret := secret, recovery := hashes, version := a.version + 1)) else None
    case _ => None
  }

  /** Only the login page compares versions; a session whose version differs is emptied there. */
  function OnLoginPage(w: World, s: Session): Session {
    if s.authenticated && Or(s.version, -1) != w.account.version then EMPTY else s
  }

  function Respond(env: Env, w: World, s: Session, r: Request, now: int): (World, Session) {
    match r
    case LoginPage => (w, OnLoginPage(w, s))
    case Login(_, _, _, _) => OnLogin(env, w, s, r, now)
    case LoginMfa(_, _, _) => OnLoginMfa(env, w, s, r, now)
    case LoginBreakGlass(_, _, _) => OnLoginBreakGlass(env, w, s, r, now)
    case _ => (w.(account := Or(Edited(env, w.account, s, r, now), w.account)), s)
  }

  /** The handlers as they run: the session being served, the account file and the break-glass file. */
  class Server {
    const env: Env
    const store: BreakGlass.Store
    var account: Account
    var session: Session

    ghost predicate Valid() { store.digest == env.sha }

    function Now(): World
      reads this, store
    {
      World(account, store.stored)
    }

    constructor (env: Env, account: Account, store: BreakGlass.Store)
      requires store.digest == env.sha
      ensures Valid() && this.env == env && this.store == store && this.account == account && session == EMPTY
    {
      this.env, this.store, this.account, this.session := env, store, account, EMPTY;
    }

    method Grant(email: string)
      modifies this`session
      ensures session == Granted(old(session), email, account)
    {
      session := session.(authenticated := true, email := Some(email), role := Some(account.role));
      session := session.(mfaVerified := Some(true), version := Some(account.version));
    }

    method ServeLoginPage()
      requires Valid()
      modifies this`session
      ensures (Now(), session) == Respond(env, old(Now()), old(session), LoginPage, 0)
    {
      if session.authenticated {
        var version := if session.version.Some? then session.version.value else -1;
        if version != account.version {
          session := EMPTY;
        }
      }
    }

    method ServeLogin(r: Request, now: int)
      requires Valid() && r.Login?
      modifies this`session
      ensures (Now(), session) == Respond(env, old(Now()), old(session), r, now)
    {
      if r.limited || !r.csrfOk || account.passwordHash == "" {
        return;
      }
      if !env.verifyPassword(r.password, account.passwordHash) {
        return;
      }
      if account.enabled {
        session := session.(pending := Some(Pending(r.email, now)));
        return;
      }
      Grant(r.email);
    }

    method ServeLoginMfa(r: Request, now: int)
      requires Valid() && r.LoginMfa?
      modifies this
      ensures (Now(), session) == Respond(env, old(Now()), old(session), r, now)
    {
      if session.pending.None? || r.limited || !r.csrfOk {
        return;
      }
      var code, pending := Strip(r.code), session.pending.value;
      if now - pending.since > PENDING_SECONDS {
        session := session.(pending := None);
        return;
      }
      if account.secret == "" {
        return;
      }
      var verdict := if code == "" then Some(false) else env.verifyTotp(account.secret, code, now);
      if verdict.None? {
        return;
      }
      if !verdict.value {
        if code != "" && account.recovery != [] {
          var ok, remaining := Mfa.VerifyAndConsume(account.recovery, code, RecoveryHash(env));
          if ok {
            account := account.(recovery := remaining);
            Grant(pending.email);
            session := session.(pending := None);
          }
        }
        return;
      }
      Grant(pending.email);
      session := session.(pending := None);
    }

    method ServeLoginBreakGlass(r: Request, now: int)
      requires Valid() && r.LoginBreakGlass?
      modifies this`session, store
      ensures (Now(), session) == Respond(env, old(Now()), old(session), r, now)
    {
      var token := Strip(r.token);
      if !r.csrfOk || token == "" {
        return;
      }
      var ok, operator := store.ConsumeToken(token, now, r.unlinked);
      if !ok {
        return;
      }
      session := session.(authenticated := true, email := Some(operator), role := Some("operator"));
      session := session.(mfaVerified := Some(true), breakGlass := true);
    }

    method ServeChangePassword(r: Request, now: int)
      requires Valid() && r.ChangePassword?
      modifies this`account
      ensures (Now(), session) == Respond(env, old(Now()), old(session), r, now)
    {
      if !Admits(session, "admin") || !r.csrfOk {
        return;
      }
      if r.current == "" || r.next == "" || r.confirm == "" || r.next != r.confirm || |r.next| < 8 {
        return;
      }
      if account.passwordHash == "" || !env.verifyPassword(r.current, account.passwordHash) {
        return;
      }
      account := account.(passwordHash := r.hashed);
    }

    method ServeMfaEnable(r: Request, now: int)
      requires Valid() && r.MfaEnable?
      modifies this`account
      ensures (Now(), session) == Respond(env, old(Now()), old(session), r, now)
    {
      if !Admits(session, "admin") || !r.csrfOk {
        return;
      }
      var code := Strip(r.code);
      if account.secret == "" || code == "" || env.verifyTotp(account.secret, code, now) != Some(true) {
        return;
      }
      account := account.(enabled := true);
      account := account.(version := account.version + 1);
    }

    method ServeMfaDisable(r: Request, now: int)
      requires Valid() && r.MfaDisable?
      modifies this`account
      ensures (Now(), session) == Respond(env, old(Now()), old(session), r, now)
    {
      if !Admits(session, "admin") || !r.csrfOk {
        return;
      }
      account := account.(enabled := false);
      account := account.(secret := "");
      account := account.(version := account.version + 1);
    }

    method ServeMfaRecovery(r: Request, now: int)
      requires Valid() && r.MfaRecovery?
      modifies this`account
      ensures (Now(), session) == Respond(env, old(Now()), old(session), r, now)
    {
      if !Admits(session, "operator") || !r.csrfOk {
        return;
      }
      account := account.(recovery := r.hashes);
      account := account.(version := account.version + 1);
    }

    method ServeMfaInit(r: Request, now: int)
      requires Valid() && r.MfaInit?
      modifies this`account
      ensures (Now(), session) == Respond(env, old(Now()), old(session), r, now)
    {
      if !Admits(session, "admin") || !r.csrfOk {
        return;
      }
      account := account.(secret := r.secret);
      account := account.(recovery := r.hashes);
      account := account.(enabled := false);
      account := account.(version := account.version + 1);
    }
  }

  // ---- Runs: any interleaving of requests, replayed cookies and operator commands ----

  datatype Event =
    | Visit(cookie: Option<nat>, request: Request)
    | IssueToken(token: string, operator: string, reason: string, ttl: int)
    | RevokeToken(unlinked: bool)
    | Bootstrap(hash: string)

  /** One event: when, on which stored state, with which cookie, and the cookie handed back. */
  datatype Node = Node(time: int, event: Event, world: World, presented: Session, returned: Session)

  function Effect(env: Env, n: Node): (World, Session) {
    var w := n.world;
    match n.event
    case Visit(_, r) => Respond(env, w, n.presented, r, n.time)
    case IssueToken(token, operator, reason, ttl) =>
      (w.(token := BreakGlass.Step(env.sha, w.token, BreakGlass.Issue(token, operator, reason, n.time, ttl))), EMPTY)
    case RevokeToken(unlinked) => (w.(token := BreakGlass.Step(env.sha, w.token, BreakGlass.Clear(unlinked))), EMPTY)
    case Bootstrap(hash) => (w.(account := Account(hash, "", "admin", "", false, [], 0)), EMPTY)
  }

  /** The earlier event whose cookie is presented: any earlier one, so old cookies can be replayed. */
  function Parent(nodes: seq<Node>, i: nat): (r: Option<nat>)
    requires i < |nodes|
    ensures r.Some? ==> r.value < i
  {
    match nodes[i].event
    case Visit(Some(p), _) => if p < i then Some(p) else None
    case _ => None
  }

  predicate Explained(env: Env, nodes: seq<Node>, i: nat)
    requires i < |nodes|
  {
    && nodes[i].presented == (var p := Parent(nodes, i); if p.Some? then nodes[p.value].returned else EMPTY)
    && nodes[i].returned == Effect(env, nodes[i]).1
    && (i > 0 ==> nodes[i].world == Effect(env, nodes[i-1]).0)
  }

  predicate Run(env: Env, nodes: seq<Node>) { forall i: nat :: i < |nodes| ==> Explained(env, nodes, i) }

  /** The cookie returned at `i` was made from the one returned at `j`, or is that one. */
  predicate Descends(nodes: seq<Node>, i: nat, j: nat)
    requires i < |nodes|
  {
    i == j || (Parent(nodes, i).Some? && Descends(nodes, Parent(nodes, i).value, j))
  }

  // ---- Where authentication comes from ----

  /** A right password on an account with (or without) a second factor. */
  predicate PasswordStep(env: Env, n: Node, enabled: bool) {
    && n.event.Visit? && n.event.request.Login?
    && PasswordOk(env, n.world.account, n.event.request) && n.world.account.enabled == enabled
  }

  /** A one-time password or an unused recovery code. */
  predicate FactorStep(env: Env, n: Node) {
    && n.event.Visit? && n.event.request.LoginMfa? && !n.event.request.limited && n.event.request.csrfOk
    && n.world.account.secret != ""
    && FactorOk(env, n.world.account, Strip(n.event.request.code), n.time)
  }

  /** This event accepted this address's password while a second factor was wanted. */
  predicate PendingFrom(env: Env, n: Node, p: Pending) {
    PasswordStep(env, n, true) && p == Pending(n.event.request.email, n.time)
  }

  predicate BreakGlassStep(env: Env, n: Node) {
    n.event.Visit? && n.event.request.LoginBreakGlass? && BreakGlassOk(env, n.world, n.event.request, n.time)
  }

  /** What the session says about who it is. */
  function Identity(s: Session): (Option<string>, Option<string>) { (s.email, s.role) }

  predicate ByPassword(env: Env, n: Node, s: Session) {
    PasswordStep(env, n, false) && Identity(s) == (Some(n.event.request.email), Some(n.world.account.role))
  }

  ghost predicate BySecondFactor(env: Env, nodes: seq<Node>, j: nat, s: Session)
    requires j < |nodes|
  {
    && FactorStep(env, nodes[j])
    && (exists k: nat :: k < j && Descends(nodes, j, k) && PasswordStep(env, nodes[k], true)
         && nodes[j].time - nodes[k].time <= PENDING_SECONDS
         && Identity(s) == (Some(nodes[k].event.request.email), Some(nodes[j].world.account.role)))
  }

  predicate ByBreakGlass(env: Env, n: Node, s: Session) {
    BreakGlassStep(env, n) && Identity(s) == (Some(n.world.token.value.operator), Some("operator"))
  }

  ghost predicate Origin(env: Env, nodes: seq<Node>, j: nat, s: Session)
    requires j < |nodes|
  {
    ByPassword(env, nodes[j], s) || BySecondFactor(env, nodes, j, s) || ByBreakGlass(env, nodes[j], s)
  }

  /** One request either leaves the pending password alone or is the one that accepted it. */
  lemma PendingStep(env: Env, n: Node)
    requires n.returned == Effect(env, n).1 && n.returned.pending.Some?
    ensures PendingFrom(env, n, n.returned.pending.value) || n.returned.pending == n.presented.pending
  {
  }

  lemma {:induction false} PendingHasOrigin(env: Env, nodes: seq<Node>, i: nat) returns (k: nat)
    requires Run(env, nodes) && i < |nodes| && nodes[i].returned.pending.Some?
    ensures k <= i && Descends(nodes, i, k) && PendingFrom(env, nodes[k], nodes[i].returned.pending.value)
  {
    assert Explained(env, nodes, i);
    PendingStep(env, nodes[i]);
    if PendingFrom(env, nodes[i], nodes[i].returned.pending.value) {
      k := i;
    } else {
      k := PendingHasOrigin(env, nodes, Parent(nodes, i).value);
    }
  }

  /** What one request can have done when the cookie it returns is authenticated. */
  lemma AuthenticatedStep(env: Env, n: Node)
    requires n.returned == Effect(env, n).1 && n.returned.authenticated
    ensures
      || ByPassword(env, n, n.returned)
      || (FactorStep(env, n) && n.presented.pending.Some? && n.time - n.presented.pending.value.since <= PENDING_SECONDS
          && Identity(n.returned) == (Some(n.presented.pending.value.email), Some(n.world.account.role)))
      || ByBreakGlass(env, n, n.returned)
      || (n.presented.authenticated && Identity(n.presented) == Identity(n.returned))
  {
  }

  /** Every authenticated session descends from one of three origins, and still carries the address and
      the role it was given there. */
  lemma {:induction false} AuthenticatedHasOrigin(env: Env, nodes: seq<Node>, i: nat) returns (j: nat)
    requires Run(env, nodes) && i < |nodes| && nodes[i].returned.authenticated
    ensures j <= i && Descends(nodes, i, j) && Origin(env, nodes, j, nodes[i].returned)
  {
    assert Explained(env, nodes, i);
    AuthenticatedStep(env, nodes[i]);
    if nodes[i].presented.authenticated && Identity(nodes[i].presented) == Identity(nodes[i].returned) {
      j := AuthenticatedHasOrigin(env, nodes, Parent(nodes, i).value);
      SameOrigin(env, nodes, j, nodes[i].presented, nodes[i].returned);
    } else {
      j := i;
      if !ByPassword(env, nodes[i], nodes[i].returned) && !ByBreakGlass(env, nodes[i], nodes[i].returned) {
        var p := Parent(nodes, i).value;
        var k := PendingHasOrigin(env, nodes, p);
      }
    }
  }

  lemma SameOrigin(env: Env, nodes: seq<Node>, j: nat, s: Session, t: Session)
    requires j < |nodes| && Origin(env, nodes, j, s) && Identity(s) == Identity(t)
    ensures Origin(env, nodes, j, t)
  {
  }

  // ---- What the account keeps ----

  predicate Sound(a: Account) { (a.enabled ==> a.secret != "") && a.version >= 0 }

  lemma EditKeepsSound(env: Env, a: Account, s: Session, r: Request, now: int)
    requires Sound(a)
    ensures Sound(Or(Edited(env, a, s, r, now), a))
  {
  }

  lemma SoundStep(env: Env, n: Node)
    requires Sound(n.world.account)
    ensures Sound(Effect(env, n).0.account)
  {
    if n.event.Visit? {
      EditKeepsSound(env, n.world.account, n.presented, n.event.request, n.time);
    }
  }

  /** Every reachable account with the second factor on has a secret, and no reachable version is negative. */
  lemma {:induction false} EnabledHasSecret(env: Env, nodes: seq<Node>, i: nat)
    requires Run(env, nodes) && i < |nodes| && Sound(nodes[0].world.account)
    ensures Sound(nodes[i].world.account) && Sound(Effect(env, nodes[i]).0.account)
  {
    if i > 0 {
      EnabledHasSecret(env, nodes, i - 1);
      assert Explained(env, nodes, i);
    }
    SoundStep(env, nodes[i]);
  }

  /** Everything about an account but its recovery codes and its version. */
  function Guarded(a: Account): Account { a.(recovery := [], version := 0) }

  lemma EditNeedsAdmin(env: Env, n: Node)
    requires n.event.Visit? && Guarded(Effect(env, n).0.account) != Guarded(n.world.account)
    ensures n.presented.authenticated && n.presented.role == Some("admin")
  {
  }

  /** A request changes the password or the second factor only for a session that was signed in with the
      account's password while the account's role was admin; a break-glass session never gets there. */
  lemma EditsComeFromAdmins(env: Env, nodes: seq<Node>, i: nat) returns (j: nat)
    requires Run(env, nodes) && i < |nodes| && nodes[i].event.Visit?
    requires Guarded(Effect(env, nodes[i]).0.account) != Guarded(nodes[i].world.account)
    ensures j < i && Descends(nodes, i, j) && nodes[j].world.account.role == "admin"
    ensures ByPassword(env, nodes[j], nodes[i].presented) || BySecondFactor(env, nodes, j, nodes[i].presented)
  {
    assert Explained(env, nodes, i);
    EditNeedsAdmin(env, nodes[i]);
    j := AuthenticatedHasOrigin(env, nodes, Parent(nodes, i).value);
  }

  /** A request that replaces the recovery codes. */
  predicate ReplacesCodes(env: Env, n: Node) {
    && n.event.Visit? && (n.event.request.MfaRecovery? || n.event.request.MfaInit?)
    && Edited(env, n.world.account, n.presented, n.event.request, n.time).Some?
  }

  /** The recovery codes are replaced only for a session signed in while the account was admin or operator,
      or for a break-glass session; never with a new secret for the latter. */
  lemma CodesComeFromOperators(env: Env, nodes: seq<Node>, i: nat) returns (j: nat)
    requires Run(env, nodes) && i < |nodes| && ReplacesCodes(env, nodes[i])
    ensures j < i && Descends(nodes, i, j) && Origin(env, nodes, j, nodes[i].presented)
    ensures ByBreakGlass(env, nodes[j], nodes[i].presented) ==> nodes[i].event.request.MfaRecovery?
    ensures ByBreakGlass(env, nodes[j], nodes[i].presented) || nodes[j].world.account.role in ["admin", "operator"]
  {
    assert Explained(env, nodes, i);
    j := AuthenticatedHasOrigin(env, nodes, Parent(nodes, i).value);
  }

  // ---- Session versions ----

  /** A request that turned the second factor on or off, or replaced its secret or its codes. */
  predicate MfaChange(env: Env, n: Node) {
    && n.event.Visit?
    && (n.event.request.MfaEnable? || n.event.request.MfaDisable? || n.event.request.MfaRecovery? || n.event.request.MfaInit?)
    && Edited(env, n.world.account, n.presented, n.event.request, n.time).Some?
  }

  lemma VersionStep(env: Env, n: Node)
    requires !n.event.Bootstrap?
    ensures Effect(env, n).0.account.version == n.world.account.version + if MfaChange(env, n) then 1 else 0
  {
  }

  function Version(n: Node): int { n.world.account.version }

  predicate NoBootstrap(nodes: seq<Node>, a: nat, b: nat)
    requires b <= |nodes|
  {
    forall k: nat :: a <= k < b ==> !nodes[k].event.Bootstrap?
  }

  predicate NoMfaChange(env: Env, nodes: seq<Node>, a: nat, b: nat)
    requires b <= |nodes|
  {
    forall k: nat :: a <= k < b ==> !MfaChange(env, nodes[k])
  }

  lemma {:induction false} VersionsGrow(env: Env, nodes: seq<Node>, a: nat, b: nat)
    requires Run(env, nodes) && a <= b < |nodes| && NoBootstrap(nodes, a, b)
    ensures Version(nodes[a]) <= Version(nodes[b])
    ensures Version(nodes[a]) == Version(nodes[b]) <==> NoMfaChange(env, nodes, a, b)
  {
    if a < b {
      assert Explained(env, nodes, b);
      VersionStep(env, nodes[b-1]);
      VersionsGrow(env, nodes, a, b - 1);
    }
  }

  /** A sign-in that stamps the session with the account's version. */
  predicate Stamps(env: Env, n: Node) { PasswordStep(env, n, false) || FactorStep(env, n) }

  lemma VersionOnReturn(env: Env, n: Node)
    requires n.returned == Effect(env, n).1 && n.returned.version.Some?
    ensures
      || (Stamps(env, n) && n.returned.version == Some(Version(n)))
      || n.returned.version == n.presented.version
  {
  }

  lemma {:induction false} VersionHasOrigin(env: Env, nodes: seq<Node>, i: nat) returns (j: nat)
    requires Run(env, nodes) && i < |nodes| && nodes[i].returned.version.Some?
    ensures j <= i && Descends(nodes, i, j) && Stamps(env, nodes[j]) && nodes[i].returned.version == Some(Version(nodes[j]))
  {
    assert Explained(env, nodes, i);
    VersionOnReturn(env, nodes[i]);
    if Stamps(env, nodes[i]) && nodes[i].returned.version == Some(Version(nodes[i])) {
      j := i;
    } else {
      j := VersionHasOrigin(env, nodes, Parent(nodes, i).value);
    }
  }

  /** A session that is still signed in after viewing the login page was stamped by a sign-in since which
      nobody changed the second factor, or a bootstrap has reset the version in between. */
  lemma SurvivorsSawNoMfaChange(env: Env, nodes: seq<Node>, i: nat) returns (j: nat)
    requires Run(env, nodes) && i < |nodes|
    requires Sound(nodes[0].world.account)
    requires nodes[i].event.Visit? && nodes[i].event.request == LoginPage && nodes[i].returned.authenticated
    ensures j < i && Descends(nodes, i, j) && Stamps(env, nodes[j])
    ensures NoBootstrap(nodes, j, i) ==> NoMfaChange(env, nodes, j, i)
  {
    assert Explained(env, nodes, i);
    EnabledHasSecret(env, nodes, i);
    j := VersionHasOrigin(env, nodes, i);
    if NoBootstrap(nodes, j, i) {
      VersionsGrow(env, nodes, j, i);
    }
  }

  // ---- What each request does, written out ----

  /** The request signs its session in. */
  predicate SignsIn(env: Env, n: Node) {
    n.event.Visit? && match n.event.request
    case Login(_, _, _, _) => PasswordStep(env, n, false)
    case LoginMfa(_, _, _) => FactorStep(env, n) && CodeConsidered(n.world.account, n.presented, n.event.request, n.time)
    case LoginBreakGlass(_, _, _) => BreakGlassStep(env, n)
    case _ => false
  }

  /** Admission asks for a signed-in session whose second factor is not known to be open, and for the role. */
  lemma AdmitsIff(s: Session)
    ensures Admits(s, "admin") <==> s.authenticated && s.mfaVerified != Some(false) && s.role == Some("admin")
    ensures Admits(s, "operator") <==>
      s.authenticated && s.mfaVerified != Some(false) && (s.role == Some("admin") || s.role == Some("operator"))
    ensures Admits(s, "readonly") <==>
      s.authenticated && s.mfaVerified != Some(false)
      && (s.role == None || s.role == Some("admin") || s.role == Some("operator") || s.role == Some("readonly"))
  {
  }

  /** A session of this address, stamped with the account's role and version. */
  predicate SignedInAs(s: Session, email: string, a: Account) {
    s.authenticated && s.email == Some(email) && s.role == Some(a.role) && s.mfaVerified == Some(true)
    && s.version == Some(a.version)
  }

  /** POST /login: an unlimited address, a good form token and a right password sign in, or with a second factor
      remember the address and the time; anything else does nothing. */
  lemma LoginDoes(env: Env, w: World, s: Session, r: Request, now: int)
    requires r.Login?
    ensures var (w', s') := Respond(env, w, s, r, now);
      var right := !r.limited && r.csrfOk && w.account.passwordHash != ""
        && env.verifyPassword(r.password, w.account.passwordHash);
      && w' == w
      && (right && !w.account.enabled ==>
            SignedInAs(s', r.email, w.account) && s'.pending == s.pending && s'.breakGlass == s.breakGlass)
      && (right && w.account.enabled ==> s' == s.(pending := Some(Pending(r.email, now))))
      && (!right ==> s' == s)
  {
  }

  /** A code is asked about: somebody is pending, the address is not limited and the form token good, it is no more than
      five minutes since the password, and there is a secret and a code. */
  predicate Asked(a: Account, s: Session, r: Request, now: int)
    requires r.LoginMfa?
  {
    && s.pending.Some? && !r.limited && r.csrfOk && now - s.pending.value.since <= 300
    && a.secret != "" && Strip(r.code) != ""
  }

  /** The hash recovery codes are stored as. */
  function CodeHash(env: Env, code: string): string { env.sha(Upper(Strip(Strip(code)))) }

  /** It is the one-time password of the moment, or is none and is a stored recovery code. */
  predicate Accepted(env: Env, a: Account, code: string, now: int) {
    var verdict := env.verifyTotp(a.secret, Strip(code), now);
    verdict == Some(true) || (verdict == Some(false) && CodeHash(env, code) in a.recovery)
  }

  lemma CodeHashIs(env: Env, code: string)
    ensures RecoveryHash(env)(Strip(code)) == CodeHash(env, code)
  {
    var c := Strip(code);
    assert BreakGlass.Folded(c) == Upper(Strip(c));
    assert CodeHash(env, code) == env.sha(BreakGlass.Folded(c));
    assert RecoveryHash(env)(c) == env.sha(BreakGlass.Folded(c));
  }

  lemma AcceptedIs(env: Env, a: Account, code: string, now: int)
    requires Strip(code) != ""
    ensures Accepted(env, a, code, now) == FactorOk(env, a, Strip(code), now)
  {
    CodeHashIs(env, code);
    var verdict := env.verifyTotp(a.secret, Strip(code), now);
    assert RecoveryOk(env, a, Strip(code)) == (CodeHash(env, code) in a.recovery);
    assert TotpOk(env, a, Strip(code), now) == (verdict == Some(true));
    assert TotpRaises(env, a, Strip(code), now) == verdict.None?;
    assert verdict.Some? ==> if verdict.value then verdict == Some(true) else verdict == Some(false);
  }

  /** POST /login/mfa with an accepted code signs the pending address in; a recovery code is used up by it. */
  lemma LoginMfaAccepts(env: Env, w: World, s: Session, r: Request, now: int)
    requires r.LoginMfa? && Asked(w.account, s, r, now) && Accepted(env, w.account, r.code, now)
    ensures var (w', s') := Respond(env, w, s, r, now);
      var left := w'.account.recovery;
      && SignedInAs(s', s.pending.value.email, w.account) && s'.pending == None && s'.breakGlass == s.breakGlass
      && w' == w.(account := w.account.(recovery := left))
      && multiset(left) == multiset(w.account.recovery)
           - if env.verifyTotp(w.account.secret, Strip(r.code), now) == Some(true) then multiset{}
             else multiset{CodeHash(env, r.code)}
  {
    AcceptedIs(env, w.account, r.code, now);
    CodeHashIs(env, r.code);
    Mfa.UseCounts(w.account.recovery, Strip(r.code), RecoveryHash(env));
  }

  /** Otherwise nobody is signed in, and all that can happen is that a pending address is forgotten after five minutes. */
  lemma LoginMfaRefuses(env: Env, w: World, s: Session, r: Request, now: int)
    requires r.LoginMfa? && !(Asked(w.account, s, r, now) && Accepted(env, w.account, r.code, now))
    ensures var late := s.pending.Some? && !r.limited && r.csrfOk && now - s.pending.value.since > 300;
      Respond(env, w, s, r, now) == (w, if late then s.(pending := None) else s)
  {
    if Asked(w.account, s, r, now) {
      AcceptedIs(env, w.account, r.code, now);
    }
  }

  /** POST /login/breakglass: a good form token and the stored, unused, unexpired token sign in its operator. */
  lemma LoginBreakGlassDoes(env: Env, w: World, s: Session, r: Request, now: int)
    requires r.LoginBreakGlass?
    ensures var (w', s') := Respond(env, w, s, r, now);
      var token := Strip(r.token);
      var right := r.csrfOk && token != "" && w.token.Some? && !w.token.value.used && now < w.token.value.expiresAt
        && w.token.value.hash == env.sha(Upper(Strip(token)));
      && (right ==>
            && s' == s.(authenticated := true, email := Some(w.token.value.operator), role := Some("operator"),
                        mfaVerified := Some(true), breakGlass := true)
            && w' == w.(token := if r.unlinked then None else w.token))
      && (!right ==> (w', s') == (w, s))
  {
  }

  /** GET /login empties a signed-in session whose version is not the account's; a missing one counts as -1. */
  lemma LoginPageDoes(env: Env, w: World, s: Session, now: int)
    ensures var (w', s') := Respond(env, w, s, LoginPage, now);
      && w' == w
      && s' == if s.authenticated && (if s.version.Some? then s.version.value else -1) != w.account.version
               then Session(false, None, None, None, None, None, false) else s
  {
  }

  /** A password change: an admin who repeats the current password, and the new one twice, at least eight long. */
  lemma ChangePasswordDoes(env: Env, w: World, s: Session, r: Request, now: int)
    requires r.ChangePassword?
    ensures var right := Admits(s, "admin") && r.csrfOk
        && r.current != "" && w.account.passwordHash != "" && env.verifyPassword(r.current, w.account.passwordHash)
        && r.next == r.confirm && |r.next| >= 8;
      Respond(env, w, s, r, now)
      == (if right then w.(account := w.account.(passwordHash := r.hashed)) else w, s)
  {
  }

  /** The requests about the second factor: what each asks for, what it writes, and that the version moves by one. */
  lemma FactorEditsDo(env: Env, w: World, s: Session, r: Request, now: int)
    requires r.MfaEnable? || r.MfaDisable? || r.MfaRecovery? || r.MfaInit?
    ensures var a, next := w.account, w.account.version + 1;
      Respond(env, w, s, r, now) ==
      (match r
       case MfaEnable(code, csrfOk) =>
         if Admits(s, "admin") && csrfOk && a.secret != "" && Strip(code) != ""
            && env.verifyTotp(a.secret, Strip(code), now) == Some(true)
         then w.(account := a.(enabled := true, version := next)) else w
       case MfaDisable(csrfOk) =>
         if Admits(s, "admin") && csrfOk then w.(account := a.(enabled := false, secret := "", version := next)) else w
       case MfaRecovery(csrfOk, hashes) =>
         if Admits(s, "operator") && csrfOk then w.(account := a.(recovery := hashes, version := next)) else w
       case MfaInit(csrfOk, secret, hashes) =>
         if Admits(s, "admin") && csrfOk
         then w.(account := a.(enabled := false, secret := secret, recovery := hashes, version := next)) else w
       case _ => w, s)
  {
  }

  /** The commands: issuing and revoking a token change that record only, and setting the administrator up starts the
      account over, as an admin without a second factor, at version 0. None of them hands back a session. */
  lemma CommandsDo(env: Env, n: Node)
    requires !n.event.Visit?
    ensures Effect(env, n).1 == Session(false, None, None, None, None, None, false)
    ensures var w, w' := n.world, Effect(env, n).0;
      match n.event
      case IssueToken(token, operator, reason, ttl) =>
        w' == w.(token := Some(BreakGlass.Token(
          env.sha(Upper(Strip(token))), n.time, n.time + ttl, operator, reason, false)))
      case RevokeToken(unlinked) => w' == w.(token := if unlinked then None else w.token)
      case Bootstrap(hash) => w' == w.(account := Account(hash, "", "admin", "", false, [], 0))
      case _ => true
  {
  }

  /** A request signs an unauthenticated session in exactly when it is one of the three sign-ins. */
  lemma SignsInIff(env: Env, n: Node)
    requires n.event.Visit? && n.returned == Effect(env, n).1 && !n.presented.authenticated
    ensures n.returned.authenticated <==> SignsIn(env, n)
  {
  }

  /** A right password on an account with a second factor, and then on the same cookie, within five minutes, a code
      that is accepted: the session ends signed in as the address the password came with. */
  lemma TwoStepsSignIn(env: Env, nodes: seq<Node>, k: nat, i: nat)
    requires Run(env, nodes) && k < i < |nodes| && nodes[k].event.Visit? && nodes[i].event.Visit?
    requires var r, a := nodes[k].event.request, nodes[k].world.account;
      && r.Login? && !r.limited && r.csrfOk
      && a.enabled && a.passwordHash != "" && env.verifyPassword(r.password, a.passwordHash)
    requires var r, a := nodes[i].event.request, nodes[i].world.account;
      && nodes[i].event.cookie == Some(k) && r.LoginMfa? && !r.limited && r.csrfOk && a.secret != ""
      && nodes[i].time - nodes[k].time <= 300 && Strip(r.code) != "" && Accepted(env, a, r.code, nodes[i].time)
    ensures SignedInAs(nodes[i].returned, nodes[k].event.request.email, nodes[i].world.account)
    ensures nodes[i].returned.pending == None
  {
    assert Explained(env, nodes, k) && Explained(env, nodes, i);
    LoginDoes(env, nodes[k].world, nodes[k].presented, nodes[k].event.request, nodes[k].time);
    LoginMfaAccepts(env, nodes[i].world, nodes[i].presented, nodes[i].event.request, nodes[i].time);
  }

  // ---- When a session ends ----

  /** The login page, served while the account is at another version. */
  predicate ServedStale(n: Node, version: int) {
    n.event.Visit? && n.event.request.LoginPage? && Version(n) != version
  }

  /** One request ends an authenticated session exactly when it is the login page at another version. */
  lemma VisitSignsOutIff(env: Env, n: Node)
    requires n.event.Visit? && n.returned == Effect(env, n).1 && n.presented.authenticated
    ensures !n.returned.authenticated <==> ServedStale(n, Or(n.presented.version, -1))
    ensures n.returned.authenticated && !SignsIn(env, n) ==> n.returned.version == n.presented.version
  {
  }

  lemma StaysSignedOut(env: Env, n: Node)
    requires n.returned == Effect(env, n).1 && !n.presented.authenticated && !SignsIn(env, n)
    ensures !n.returned.authenticated
  {
  }

  /** The requests that made the cookie at `i` out of the one at `j`. */
  function Path(nodes: seq<Node>, i: nat, j: nat): (r: seq<nat>)
    requires i < |nodes| && Descends(nodes, i, j)
    ensures j <= i && forall k :: k in r ==> j < k <= i
  {
    if i == j then [] else Path(nodes, Parent(nodes, i).value, j) + [i]
  }

  predicate NoneSignsIn(env: Env, nodes: seq<Node>, path: seq<nat>)
    requires forall k :: k in path ==> k < |nodes|
  {
    forall k :: k in path ==> !SignsIn(env, nodes[k])
  }

  predicate NoneStale(nodes: seq<Node>, path: seq<nat>, version: int)
    requires forall k :: k in path ==> k < |nodes|
  {
    forall k :: k in path ==> !ServedStale(nodes[k], version)
  }

  lemma PathLast(nodes: seq<Node>, i: nat, j: nat)
    requires i < |nodes| && Descends(nodes, i, j) && i != j
    ensures var p := Parent(nodes, i).value; Path(nodes, i, j) == Path(nodes, p, j) + [i]
    ensures i in Path(nodes, i, j) && forall k :: k in Path(nodes, i, j) <==> k == i || k in Path(nodes, Parent(nodes, i).value, j)
  {
  }

  /** Along any path of requests that sign nobody in, an authenticated cookie stays authenticated exactly
      when none of them is the login page served at a version other than the cookie's. */
  lemma {:induction false} StaysSignedInIff(env: Env, nodes: seq<Node>, i: nat, j: nat)
    requires Run(env, nodes) && i < |nodes| && j < |nodes| && Descends(nodes, i, j) && nodes[j].returned.authenticated
    requires NoneSignsIn(env, nodes, Path(nodes, i, j))
    ensures nodes[i].returned.authenticated <==> NoneStale(nodes, Path(nodes, i, j), Or(nodes[j].returned.version, -1))
    ensures nodes[i].returned.authenticated ==> nodes[i].returned.version == nodes[j].returned.version
  {
    if i != j {
      var p := Parent(nodes, i).value;
      PathLast(nodes, i, j);
      assert Explained(env, nodes, i);
      StaysSignedInIff(env, nodes, p, j);
      if nodes[p].returned.authenticated {
        VisitSignsOutIff(env, nodes[i]);
      } else {
        StaysSignedOut(env, nodes[i]);
      }
    }
  }

  /** So a change of the second factor ends a session that was signed in before it exactly when the session
      meets the login page after it. */
  lemma MfaChangeEndsSessionIff(env: Env, nodes: seq<Node>, i: nat, j: nat)
    requires Run(env, nodes) && i < |nodes| && j < |nodes| && Descends(nodes, i, j) && nodes[j].returned.authenticated
    requires nodes[j].returned.version == Some(Version(nodes[j])) && NoneSignsIn(env, nodes, Path(nodes, i, j))
    requires j <= i && NoBootstrap(nodes, j, i)
    ensures !nodes[i].returned.authenticated <==>
      exists k :: k in Path(nodes, i, j) && nodes[k].event.Visit? && nodes[k].event.request.LoginPage?
        && !NoMfaChange(env, nodes, j, k)
  {
    StaysSignedInIff(env, nodes, i, j);
    forall k | k in Path(nodes, i, j)
      ensures Version(nodes[k]) != Version(nodes[j]) <==> !NoMfaChange(env, nodes, j, k)
    {
      VersionsGrow(env, nodes, j, k);
    }
  }

  /** Sign in, turn the second factor off, and present the first cookie once more. */
  function Replay(env: Env, w: World, email: string, password: string, now: int): seq<Node> {
    var signedIn := Granted(EMPTY, email, w.account);
    var off := w.account.(enabled := false, secret := "", version := w.account.version + 1);
    [Node(now, Visit(None, Login(email, password, false, true)), w, EMPTY, signedIn),
     Node(now, Visit(Some(0), MfaDisable(true)), w, signedIn, signedIn),
     Node(now, Visit(Some(0), MfaDisable(true)), w.(account := off), signedIn, signedIn)]
  }

  /** A change of the second factor does not by itself end anything: the old cookie, now of another version,
      is still admitted as admin and edits the account again. */
  lemma OldCookieStillAdmitted(env: Env, w: World, email: string, password: string, now: int)
    requires w.account.role == "admin" && !w.account.enabled
    requires w.account.passwordHash != "" && env.verifyPassword(password, w.account.passwordHash)
    ensures var nodes := Replay(env, w, email, password, now);
      && Run(env, nodes) && MfaChange(env, nodes[1])
      && Or(nodes[2].presented.version, -1) != Version(nodes[2])
      && Admits(nodes[2].presented, "admin") && MfaChange(env, nodes[2])
  {
    var nodes := Replay(env, w, email, password, now);
    assert Explained(env, nodes, 0);
    assert Explained(env, nodes, 1);
    assert Explained(env, nodes, 2);
  }

  // ---- Recovery codes over a run ----

  /** The codes are replaced. */
  predicate Regenerates(env: Env, n: Node) {
    || n.event.Bootstrap?
    || ReplacesCodes(env, n)
  }

  /** A sign-in by recovery code. */
  predicate UsesRecovery(env: Env, n: Node) {
    && n.event.Visit? && n.event.request.LoginMfa?
    && CodeConsidered(n.world.account, n.presented, n.event.request, n.time)
    && !TotpOk(env, n.world.account, Strip(n.event.request.code), n.time)
    && FactorOk(env, n.world.account, Strip(n.event.request.code), n.time)
  }

  /** The hashes of the recovery codes that signed somebody in at `a` or later and before `b`. */
  function RecoveryUses(env: Env, nodes: seq<Node>, a: nat, b: nat): seq<string>
    requires a <= b <= |nodes|
  {
    if a == b then [] else
    var last := nodes[b-1];
    var used := if UsesRecovery(env, last) then [RecoveryHash(env)(Strip(last.event.request.code))] else [];
    RecoveryUses(env, nodes, a, b - 1) + used
  }

  lemma RecoveryStep(env: Env, n: Node)
    requires !Regenerates(env, n)
    ensures multiset(n.world.account.recovery)
      == multiset(Effect(env, n).0.account.recovery)
         + multiset(if UsesRecovery(env, n) then [RecoveryHash(env)(Strip(n.event.request.code))] else [])
  {
    if UsesRecovery(env, n) {
      Mfa.UseCounts(n.world.account.recovery, Strip(n.event.request.code), RecoveryHash(env));
    }
  }

  /** Between regenerations every stored code is either still stored or has signed somebody in, once. */
  lemma {:induction false} RecoveryConserved(env: Env, nodes: seq<Node>, a: nat, b: nat)
    requires Run(env, nodes) && a <= b < |nodes|
    requires forall k: nat :: a <= k < b ==> !Regenerates(env, nodes[k])
    ensures multiset(nodes[a].world.account.recovery)
      == multiset(nodes[b].world.account.recovery) + multiset(RecoveryUses(env, nodes, a, b))
  {
    if a < b {
      assert Explained(env, nodes, b);
      RecoveryConserved(env, nodes, a, b - 1);
      RecoveryStep(env, nodes[b-1]);
    }
  }

  // ---- Break-glass sign-ins over a run ----

  /** This event issued the record `t`. */
  predicate IssuedBy(env: Env, n: Node, t: BreakGlass.Token) {
    var e := n.event;
    e.IssueToken? && t == BreakGlass.Issued(env.sha, BreakGlass.Issue(e.token, e.operator, e.reason, n.time, e.ttl))
  }

  lemma {:induction false} TokenHasIssue(env: Env, nodes: seq<Node>, i: nat) returns (j: nat)
    requires Run(env, nodes) && i < |nodes| && nodes[0].world.token.None? && nodes[i].world.token.Some?
    ensures j < i && IssuedBy(env, nodes[j], nodes[i].world.token.value)
  {
    assert Explained(env, nodes, i);
    if IssuedBy(env, nodes[i-1], nodes[i].world.token.value) {
      j := i - 1;
    } else {
      j := TokenHasIssue(env, nodes, i - 1);
    }
  }

  /** The digest tells apart the tokens that are issued from those that are submitted. */
  ghost predicate TellsApart(env: Env, nodes: seq<Node>) {
    forall i, j | 0 <= i < |nodes| && 0 <= j < |nodes| && nodes[i].event.IssueToken?
      && nodes[j].event.Visit? && nodes[j].event.request.LoginBreakGlass? ::
      var issued, submitted := nodes[i].event.token, Strip(nodes[j].event.request.token);
      env.sha(BreakGlass.Folded(issued)) == env.sha(BreakGlass.Folded(submitted)) ==> BreakGlass.SameToken(issued, submitted)
  }

  /** Whoever signs in by break-glass presents, before its expiry, a token issued earlier in the run, and
      becomes the operator it was issued to. */
  lemma BreakGlassWasIssued(env: Env, nodes: seq<Node>, i: nat) returns (j: nat)
    requires Run(env, nodes) && i < |nodes| && nodes[0].world.token.None? && BreakGlassStep(env, nodes[i])
    requires TellsApart(env, nodes)
    ensures j < i && nodes[j].event.IssueToken?
    ensures var issue := nodes[j].event;
      && SameButCase(Strip(issue.token), Strip(Strip(nodes[i].event.request.token)))
      && nodes[i].time < nodes[j].time + issue.ttl
      && nodes[i].returned.email == Some(issue.operator) && nodes[i].returned.role == Some("operator")
  {
    assert Explained(env, nodes, i);
    j := TokenHasIssue(env, nodes, i);
  }

  function Held(w: World): nat { if w.token.Some? then 1 else 0 }

  function Issues(nodes: seq<Node>, n: nat): nat
    requires n <= |nodes|
  {
    if n == 0 then 0 else Issues(nodes, n - 1) + if nodes[n-1].event.IssueToken? then 1 else 0
  }

  function BreakGlassLogins(env: Env, nodes: seq<Node>, n: nat): nat
    requires n <= |nodes|
  {
    if n == 0 then 0 else BreakGlassLogins(env, nodes, n - 1) + if BreakGlassStep(env, nodes[n-1]) then 1 else 0
  }

  /** The record is wiped whenever it is used. */
  predicate AlwaysWiped(nodes: seq<Node>) {
    forall i: nat :: i < |nodes| && nodes[i].event.Visit? && nodes[i].event.request.LoginBreakGlass?
      ==> nodes[i].event.request.unlinked
  }

  lemma HeldStep(env: Env, n: Node)
    requires n.event.Visit? && n.event.request.LoginBreakGlass? ==> n.event.request.unlinked
    ensures Held(Effect(env, n).0) + (if BreakGlassStep(env, n) then 1 else 0)
         <= Held(n.world) + if n.event.IssueToken? then 1 else 0
  {
  }

  /** Each issued token signs in at most one session, whatever is replayed or submitted. */
  lemma {:induction false} BreakGlassBounded(env: Env, nodes: seq<Node>, n: nat)
    requires Run(env, nodes) && AlwaysWiped(nodes) && 0 < n <= |nodes|
    ensures BreakGlassLogins(env, nodes, n) + Held(Effect(env, nodes[n-1]).0) <= Issues(nodes, n) + Held(nodes[0].world)
  {
    HeldStep(env, nodes[n-1]);
    if n > 1 {
      assert Explained(env, nodes, n - 1);
      BreakGlassBounded(env, nodes, n - 1);
    }
  }
}
