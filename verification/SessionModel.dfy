/** The session store and the login operations as functions on values. */
module SessionModel {
  import opened Options

  type Token = string

  /** One element of the age-ordered slice. */
  datatype Entry = Entry(token: Token, exp: int)

  /** The value of a stored login state. */
  datatype Login = Login(user: string, name: string, rawToken: string, exp: int, sessionToken: Token)

  datatype Store = Store(byToken: map<Token, Login>, byAge: seq<Entry>, maxSessions: nat)

  predicate Expired(e: Entry, now: int) {
    e.exp - now < 0
  }

  function Tokens(a: seq<Entry>): set<Token> {
    set e | e in a :: e.token
  }

  function RemoveFirst(a: seq<Entry>, t: Token): seq<Entry> {
    if a == [] then [] else if a[0].token == t then a[1..] else [a[0]] + RemoveFirst(a[1..], t)
  }

  /** The clock as one expiry loop sees it: its reading at every turn. */
  type Clock = nat -> int

  /** The expiry loop from turn n on: it removes the entry at its index and still advances the index,
      so the entry after each removed one is passed over without being looked at. */
  function Sweep(a: seq<Entry>, clock: Clock, n: nat): seq<Entry>
    decreases |a|
  {
    if a == [] then []
    else if !Expired(a[0], clock(n)) then [a[0]] + Sweep(a[1..], clock, n + 1)
    else if |a| == 1 then []
    else [a[1]] + Sweep(a[2..], clock, n + 1)
  }

  function SweptTokens(a: seq<Entry>, clock: Clock, n: nat): set<Token>
    decreases |a|
  {
    if a == [] then {}
    else if !Expired(a[0], clock(n)) then SweptTokens(a[1..], clock, n + 1)
    else if |a| == 1 then {a[0].token}
    else {a[0].token} + SweptTokens(a[2..], clock, n + 1)
  }

  function Overflow(a: seq<Entry>, maxSessions: nat): nat {
    if |a| > maxSessions then |a| - maxSessions else 0
  }

  function Delete(s: Store, t: Token): Store {
    s.(byToken := s.byToken - {t}, byAge := RemoveFirst(s.byAge, t))
  }

  /** The part of addSession under the lock. */
  function Insert(s: Store, ls: Login, t: Token): Store {
    s.(byToken := s.byToken[t := ls.(sessionToken := t)], byAge := s.byAge + [Entry(t, ls.exp)])
  }

  /** A token drawn twice deletes the session that holds it and fails. */
  function Add(s: Store, ls: Login, t: Token): Store {
    if t in s.byToken then Delete(s, t) else Insert(s, ls, t)
  }

  function Prune(s: Store, clock: Clock): Store {
    var swept := Sweep(s.byAge, clock, 0);
    var n := Overflow(swept, s.maxSessions);
    s.(byToken := s.byToken - SweptTokens(s.byAge, clock, 0) - Tokens(swept[..n]), byAge := swept[n..])
  }

  // ---- the operations of oidcAuth ----

  /** What the verified ID token says; a failed verification has no claims. */
  datatype Claims = Claims(subject: string, name: string, exp: int)

  datatype User = User(id: string, username: string, token: string)

  datatype Op =
    | LoginOp(claims: Option<Claims>, rawToken: string, drawn: Token, clock: Clock)
    | LogoutOp(cookie: Option<Token>, now: int)
    | AuthenticateOp(cookie: Option<Token>, now: int)

  predicate LoginSucceeds(s: Store, claims: Option<Claims>, drawn: Token) {
    claims.Some? && claims.value.subject != "" && drawn !in s.byToken
  }

  function DoLogin(s: Store, claims: Option<Claims>, rawToken: string, drawn: Token, clock: Clock): Store {
    if claims.None? || claims.value.subject == "" then s
    else
      var c := claims.value;
      var added := Add(s, Login(c.subject, c.name, rawToken, c.exp, ""), drawn);
      if drawn in s.byToken then added else Prune(added, clock)
  }

  /** getLoginState: the state found for the cookie, unless missing or expired. */
  function Lookup(s: Store, cookie: Option<Token>, now: int): Option<Login> {
    if cookie.None? || cookie.value !in s.byToken || s.byToken[cookie.value].exp - now < 0 then None
    else Some(s.byToken[cookie.value])
  }

  /** An expired state is deleted when it is looked at. */
  function AfterLookup(s: Store, cookie: Option<Token>, now: int): Store {
    if cookie.Some? && cookie.value in s.byToken && s.byToken[cookie.value].exp - now < 0
    then Delete(s, cookie.value) else s
  }

  function DoLogout(s: Store, cookie: Option<Token>, now: int): Store {
    var found := Lookup(s, cookie, now);
    var s' := AfterLookup(s, cookie, now);
    if found.Some? then Delete(s', found.value.sessionToken) else s'
  }

  function Authenticated(s: Store, cookie: Option<Token>, now: int): Option<User> {
    var found := Lookup(s, cookie, now);
    if found.Some? then Some(User(found.value.user, found.value.name, found.value.rawToken)) else None
  }

  function Do(s: Store, op: Op): Store {
    match op
    case LoginOp(claims, rawToken, drawn, clock) => DoLogin(s, claims, rawToken, drawn, clock)
    case LogoutOp(cookie, now) => DoLogout(s, cookie, now)
    case AuthenticateOp(cookie, now) => AfterLookup(s, cookie, now)
  }

  function DoAll(s: Store, ops: seq<Op>): Store
    decreases |ops|
  {
    if ops == [] then s else DoAll(Do(s, ops[0]), ops[1..])
  }

  function Empty(maxSessions: nat): Store {
    Store(map[], [], maxSessions)
  }
}
