/** What every operation keeps, over every run of login, logout and authenticate. */
module SessionInvariant {
  import opened Options
  import opened SessionModel
  import opened SessionPrune

  ghost predicate Distinct(a: seq<Entry>) {
    forall i, j :: 0 <= i < j < |a| ==> a[i].token != a[j].token
  }

  ghost predicate SortedByExpiry(a: seq<Entry>) {
    forall i, j :: 0 <= i < j < |a| ==> a[i].exp <= a[j].exp
  }

  /** The map and the slice hold the same sessions, once each, and every state knows its own token. */
  ghost predicate Agree(s: Store) {
    && Distinct(s.byAge)
    && Tokens(s.byAge) == s.byToken.Keys
    && (forall e :: e in s.byAge ==> e.token in s.byToken && s.byToken[e.token].exp == e.exp)
    && (forall t :: t in s.byToken ==> s.byToken[t].sessionToken == t)
  }

  lemma ConsShape(x: Entry, b: seq<Entry>)
    ensures Distinct(b) && (forall e :: e in b ==> e.token != x.token) ==> Distinct([x] + b)
    ensures SortedByExpiry(b) && (forall e :: e in b ==> x.exp <= e.exp) ==> SortedByExpiry([x] + b)
  {
  }

  lemma TailMembers(a: seq<Entry>, n: nat)
    requires 1 <= n <= |a|
    ensures forall e :: e in a[n..] ==> e in a
    ensures Distinct(a) ==> Distinct(a[n..]) && forall e :: e in a[n..] ==> e.token != a[n - 1].token
    ensures SortedByExpiry(a) ==> SortedByExpiry(a[n..]) && forall e :: e in a[n..] ==> a[n - 1].exp <= e.exp
  {
  }

  lemma {:induction false} RemoveFirstShape(a: seq<Entry>, t: Token)
    ensures forall e :: e in RemoveFirst(a, t) ==> e in a
    ensures Distinct(a) ==> Distinct(RemoveFirst(a, t))
    ensures SortedByExpiry(a) ==> SortedByExpiry(RemoveFirst(a, t))
    ensures |RemoveFirst(a, t)| <= |a|
    decreases |a|
  {
    if a != [] {
      TailMembers(a, 1);
      if a[0].token != t {
        RemoveFirstShape(a[1..], t);
        ConsShape(a[0], RemoveFirst(a[1..], t));
      }
    }
  }

  lemma TokensCons(e: Entry, a: seq<Entry>)
    ensures Tokens([e] + a) == {e.token} + Tokens(a)
    ensures Distinct([e] + a) ==> e.token !in Tokens(a) && Distinct(a)
  {
    assert ([e] + a)[1..] == a;
    if Distinct([e] + a) {
      TailMembers([e] + a, 1);
    }
  }

  lemma {:induction false} RemoveFirstTokens(a: seq<Entry>, t: Token)
    requires Distinct(a)
    ensures Tokens(RemoveFirst(a, t)) == Tokens(a) - {t}
    decreases |a|
  {
    if a != [] {
      assert a == [a[0]] + a[1..];
      TokensCons(a[0], a[1..]);
      if a[0].token != t {
        RemoveFirstTokens(a[1..], t);
        TokensCons(a[0], RemoveFirst(a[1..], t));
      }
    }
  }

  lemma {:induction false} SweepShape(a: seq<Entry>, clock: Clock, n: nat)
    ensures forall e :: e in Sweep(a, clock, n) ==> e in a
    ensures Distinct(a) ==> Distinct(Sweep(a, clock, n))
    ensures SortedByExpiry(a) ==> SortedByExpiry(Sweep(a, clock, n))
    ensures |Sweep(a, clock, n)| <= |a|
    decreases |a|
  {
    if a != [] {
      if !Expired(a[0], clock(n)) {
        SweepShape(a[1..], clock, n + 1);
        TailMembers(a, 1);
        ConsShape(a[0], Sweep(a[1..], clock, n + 1));
      } else if |a| > 1 {
        SweepShape(a[2..], clock, n + 1);
        TailMembers(a, 2);
        ConsShape(a[1], Sweep(a[2..], clock, n + 1));
      }
    }
  }

  lemma {:induction false} SweepTokens(a: seq<Entry>, clock: Clock, n: nat)
    requires Distinct(a)
    ensures Tokens(Sweep(a, clock, n)) == Tokens(a) - SweptTokens(a, clock, n)
    ensures SweptTokens(a, clock, n) <= Tokens(a)
    decreases |a|
  {
    if a != [] {
      assert a == [a[0]] + a[1..];
      TokensCons(a[0], a[1..]);
      if !Expired(a[0], clock(n)) {
        SweepTokens(a[1..], clock, n + 1);
        TokensCons(a[0], Sweep(a[1..], clock, n + 1));
      } else if |a| > 1 {
        assert a[1..] == [a[1]] + a[2..];
        TokensCons(a[1], a[2..]);
        SweepTokens(a[2..], clock, n + 1);
        TokensCons(a[1], Sweep(a[2..], clock, n + 1));
      }
    }
  }

  lemma CutTokens(a: seq<Entry>, n: nat)
    requires Distinct(a) && n <= |a|
    ensures Distinct(a[n..]) && Tokens(a[n..]) == Tokens(a) - Tokens(a[..n])
  {
    assert a == a[..n] + a[n..];
    forall t | t in Tokens(a) - Tokens(a[..n]) ensures t in Tokens(a[n..]) {
      var e :| e in a && e.token == t;
      assert e in a[..n] + a[n..];
    }
    forall t | t in Tokens(a[n..]) ensures t in Tokens(a) && t !in Tokens(a[..n]) {}
  }

  lemma DeleteKeepsAgreement(s: Store, t: Token)
    requires Agree(s)
    ensures Agree(Delete(s, t)) && |Delete(s, t).byAge| <= |s.byAge|
    ensures t !in Delete(s, t).byToken
  {
    RemoveFirstShape(s.byAge, t);
    RemoveFirstTokens(s.byAge, t);
    var s' := Delete(s, t);
    forall e | e in s'.byAge ensures e.token in s'.byToken && s'.byToken[e.token].exp == e.exp {
      assert e.token in Tokens(s'.byAge);
    }
  }

  /** The test for a fresh token is made before the lock is taken. What is done under the lock keeps the
      indexes in agreement if and only if the token is still fresh by then. */
  lemma InsertNeedsFreshToken(s: Store, ls: Login, t: Token)
    requires Agree(s)
    ensures Agree(Insert(s, ls, t)) <==> t !in s.byToken
  {
    if t in s.byToken {
      assert t in Tokens(s.byAge);
      var e :| e in s.byAge && e.token == t;
      var i :| 0 <= i < |s.byAge| && s.byAge[i] == e;
      var a := Insert(s, ls, t).byAge;
      assert a[i].token == a[|s.byAge|].token;
    } else {
      AddKeepsAgreement(s, ls, t);
    }
  }

  lemma AddKeepsAgreement(s: Store, ls: Login, t: Token)
    requires Agree(s)
    ensures Agree(Add(s, ls, t))
  {
    if t in s.byToken {
      DeleteKeepsAgreement(s, t);
    } else {
      var a := s.byAge + [Entry(t, ls.exp)];
      assert Tokens(a) == Tokens(s.byAge) + {t} by {
        assert a[|s.byAge|].token == t;
      }
      forall i | 0 <= i < |s.byAge| ensures a[i].token != t {
        assert a[i] in s.byAge;
      }
    }
  }

  lemma PruneKeepsAgreement(s: Store, clock: Clock)
    requires Agree(s)
    ensures Agree(Prune(s, clock))
    ensures |Prune(s, clock).byAge| <= s.maxSessions
    ensures forall t :: t in Prune(s, clock).byToken ==> t in s.byToken
  {
    var swept := Sweep(s.byAge, clock, 0);
    var n := Overflow(swept, s.maxSessions);
    var s' := Prune(s, clock);
    SweepShape(s.byAge, clock, 0);
    SweepTokens(s.byAge, clock, 0);
    CutTokens(swept, n);
    forall e | e in s'.byAge ensures e.token in s'.byToken && s'.byToken[e.token].exp == e.exp {
      assert e in swept && e.token in Tokens(s'.byAge);
    }
  }

  /** The store as it is between operations. */
  ghost predicate Sound(s: Store) {
    Agree(s) && |s.byAge| <= s.maxSessions
  }

  lemma DoKeepsSound(s: Store, op: Op)
    requires Sound(s)
    ensures Sound(Do(s, op)) && Do(s, op).maxSessions == s.maxSessions
  {
    match op
    case LoginOp(claims, rawToken, drawn, clock) =>
      if claims.Some? && claims.value.subject != "" {
        var c := claims.value;
        var ls := Login(c.subject, c.name, rawToken, c.exp, "");
        AddKeepsAgreement(s, ls, drawn);
        if drawn in s.byToken {
          DeleteKeepsAgreement(s, drawn);
        } else {
          PruneKeepsAgreement(Add(s, ls, drawn), clock);
        }
      }
    case LogoutOp(cookie, now) =>
      if cookie.Some? {
        DeleteKeepsAgreement(s, cookie.value);
      }
    case AuthenticateOp(cookie, now) =>
      if cookie.Some? {
        DeleteKeepsAgreement(s, cookie.value);
      }
  }

  lemma {:induction false} RunKeepsSound(s: Store, ops: seq<Op>)
    requires Sound(s)
    ensures Sound(DoAll(s, ops)) && DoAll(s, ops).maxSessions == s.maxSessions
    decreases |ops|
  {
    if ops != [] {
      DoKeepsSound(s, ops[0]);
      RunKeepsSound(Do(s, ops[0]), ops[1..]);
    }
  }

  /** Over every run from an empty store: the tokens in byAge are pairwise distinct and are exactly
      the keys of byToken, the expiries agree, each state carries its own key, and there are never
      more than maxSessions sessions between operations. */
  lemma {:induction false} StoreIsSound(maxSessions: nat, ops: seq<Op>)
    ensures Sound(DoAll(Empty(maxSessions), ops))
    ensures |DoAll(Empty(maxSessions), ops).byToken| <= maxSessions
  {
    RunKeepsSound(Empty(maxSessions), ops);
    var s := DoAll(Empty(maxSessions), ops);
    TokenCount(s.byAge);
    assert |s.byToken| == |s.byToken.Keys|;
  }

  lemma {:induction false} TokenCount(a: seq<Entry>)
    ensures |Tokens(a)| <= |a|
    decreases |a|
  {
    if a != [] {
      TokenCount(a[1..]);
      assert a == [a[0]] + a[1..];
      assert Tokens(a) == {a[0].token} + Tokens(a[1..]);
    }
  }

  // ---- runs of single store calls ----

  /** The calls on the store, each under its lock. The calls of concurrent requests may interleave. */
  datatype Call = AddCall(ls: Login, drawn: Token) | DeleteCall(t: Token) | PruneCall(clock: Clock)

  function Perform(s: Store, call: Call): Store {
    match call
    case AddCall(ls, drawn) => Add(s, ls, drawn)
    case DeleteCall(t) => Delete(s, t)
    case PruneCall(clock) => Prune(s, clock)
  }

  function PerformAll(s: Store, calls: seq<Call>): Store {
    if |calls| == 0 then s else Perform(PerformAll(s, calls[..|calls| - 1]), calls[|calls| - 1])
  }

  /** How many sessions may have been added since the last prune, or since the start. */
  function Unpruned(calls: seq<Call>): nat {
    if |calls| == 0 then 0
    else
      match calls[|calls| - 1]
      case AddCall(_, _) => Unpruned(calls[..|calls| - 1]) + 1
      case DeleteCall(_) => Unpruned(calls[..|calls| - 1])
      case PruneCall(_) => 0
  }

  /** Over every interleaving of adds, deletes and prunes from an empty store the two indexes agree, and
      hold at most maxSessions sessions and those added since the last prune. */
  lemma {:induction false} CallsKeepAgreement(maxSessions: nat, calls: seq<Call>)
    ensures var s := PerformAll(Empty(maxSessions), calls);
      && Agree(s) && s.maxSessions == maxSessions
      && |s.byToken| <= |s.byAge| <= maxSessions + Unpruned(calls)
    decreases |calls|
  {
    var s := PerformAll(Empty(maxSessions), calls);
    if |calls| > 0 {
      var n := |calls| - 1;
      CallsKeepAgreement(maxSessions, calls[..n]);
      PerformKeepsAgreement(PerformAll(Empty(maxSessions), calls[..n]), calls[n]);
    }
    TokenCount(s.byAge);
    assert |s.byToken| == |s.byToken.Keys|;
  }

  lemma PerformKeepsAgreement(s: Store, call: Call)
    requires Agree(s)
    ensures Agree(Perform(s, call)) && Perform(s, call).maxSessions == s.maxSessions
    ensures |Perform(s, call).byAge| <= if call.PruneCall? then s.maxSessions
                                        else |s.byAge| + (if call.AddCall? then 1 else 0)
  {
    match call
    case AddCall(ls, drawn) =>
      AddKeepsAgreement(s, ls, drawn);
      DeleteKeepsAgreement(s, drawn);
    case DeleteCall(t) => DeleteKeepsAgreement(s, t);
    case PruneCall(clock) => PruneKeepsAgreement(s, clock);
  }

  /** The store calls that one operation makes. */
  function CallsOf(s: Store, op: Op): seq<Call> {
    match op
    case LoginOp(claims, rawToken, drawn, clock) =>
      if claims.None? || claims.value.subject == "" then []
      else
        var c := claims.value;
        [AddCall(Login(c.subject, c.name, rawToken, c.exp, ""), drawn)]
        + (if drawn in s.byToken then [] else [PruneCall(clock)])
    case LogoutOp(cookie, now) =>
      LookupCalls(s, cookie, now)
      + (var found := Lookup(s, cookie, now); if found.Some? then [DeleteCall(found.value.sessionToken)] else [])
    case AuthenticateOp(cookie, now) => LookupCalls(s, cookie, now)
  }

  function LookupCalls(s: Store, cookie: Option<Token>, now: int): seq<Call> {
    if cookie.Some? && cookie.value in s.byToken && Lookup(s, cookie, now).None? then [DeleteCall(cookie.value)]
    else []
  }

  /** An operation that is not interrupted is the run of its calls. */
  lemma OpIsItsCalls(s: Store, op: Op)
    ensures PerformAll(s, CallsOf(s, op)) == Do(s, op)
  {
    var calls := CallsOf(s, op);
    assert |calls| <= 2;
    if |calls| > 0 {
      assert PerformAll(s, calls[..0]) == s;
      assert calls[..1][..0] == [] && calls[..1][0] == calls[0];
      assert PerformAll(s, calls[..1]) == Perform(s, calls[0]);
    }
  }

  // ---- the fate of a login ----

  /** The entry a login adds to the slice. */
  function NewEntry(claims: Option<Claims>, drawn: Token): Entry
    requires claims.Some?
  {
    Entry(drawn, claims.value.exp)
  }

  /** The expiry loop of a login's own prune takes the new session: it is not passed over, and is
      expired at the reading of the turn that looks at it. */
  predicate SweepsNewest(a: seq<Entry>, exp: int, clock: Clock) {
    !PassedOver(a, clock, 0) && exp < clock(|Sweep(a, clock, 0)|)
  }

  /** A successful login is still there after its own prune if and only if the store has room for
      one session and the expiry loop does not take the new one. */
  lemma LoginSurvives(s: Store, claims: Option<Claims>, rawToken: string, drawn: Token, clock: Clock)
    requires Sound(s) && LoginSucceeds(s, claims, drawn)
    ensures drawn in DoLogin(s, claims, rawToken, drawn, clock).byToken <==>
            s.maxSessions >= 1 && !SweepsNewest(s.byAge, claims.value.exp, clock)
  {
    var c := claims.value;
    var ls := Login(c.subject, c.name, rawToken, c.exp, "");
    AddKeepsAgreement(s, ls, drawn);
    PruneKeepsAgreement(Add(s, ls, drawn), clock);
    assert DoLogin(s, claims, rawToken, drawn, clock).byToken.Keys == Tokens(Prune(Add(s, ls, drawn), clock).byAge);
    NewestSurvives(s.byAge, NewEntry(claims, drawn), clock, s.maxSessions);
  }

  /** The same about the slice alone. */
  lemma NewestSurvives(a: seq<Entry>, e: Entry, clock: Clock, maxSessions: nat)
    requires forall x :: x in a ==> x.token != e.token
    ensures var swept := Sweep(a + [e], clock, 0);
      e.token in Tokens(swept[Overflow(swept, maxSessions)..]) <==>
      maxSessions >= 1 && !SweepsNewest(a, e.exp, clock)
  {
    SweepNewest(a, e, clock, 0);
    SweepShape(a, clock, 0);
    var swept := Sweep(a + [e], clock, 0);
    var kept := swept[Overflow(swept, maxSessions)..];
    if swept == Sweep(a, clock, 0) + [e] {
      assert maxSessions >= 1 ==> kept[|kept| - 1] == e;
    }
    if e.token in Tokens(kept) {
      var x :| x in kept && x.token == e.token;
      assert x in swept;
    }
  }

  /** While the clock stands still, an expired login survives exactly behind an odd run of expired ones. */
  lemma ExpiredLoginSurvives(s: Store, claims: Option<Claims>, rawToken: string, drawn: Token, clock: Clock, now: int)
    requires Sound(s) && LoginSucceeds(s, claims, drawn) && Steady(clock, now)
    ensures drawn in DoLogin(s, claims, rawToken, drawn, clock).byToken <==>
            s.maxSessions >= 1 && (claims.value.exp >= now || TrailingRun(s.byAge, now) % 2 == 1)
  {
    LoginSurvives(s, claims, rawToken, drawn, clock);
    PassedOverIsOdd(s.byAge, clock, 0, now);
    assert clock(|Sweep(s.byAge, clock, 0)|) == now;
  }

  /** A login that survives its own prune, and no other, authenticates as its own user, until its
      expiry and no longer. */
  lemma LoginAuthenticates(s: Store, claims: Option<Claims>, rawToken: string, drawn: Token, clock: Clock, later: int)
    requires Sound(s) && LoginSucceeds(s, claims, drawn)
    ensures var c := claims.value;
      Authenticated(DoLogin(s, claims, rawToken, drawn, clock), Some(drawn), later) ==
      if s.maxSessions >= 1 && !SweepsNewest(s.byAge, c.exp, clock) && later <= c.exp
      then Some(User(c.subject, c.name, rawToken)) else None
  {
    LoginSurvives(s, claims, rawToken, drawn, clock);
  }

  // ---- a session that is gone stays gone ----

  predicate Draws(op: Op, t: Token) {
    op.LoginOp? && op.drawn == t
  }

  lemma {:induction false} GoneStaysGone(s: Store, t: Token, ops: seq<Op>, now: int)
    requires Sound(s) && t !in s.byToken
    requires forall op :: op in ops ==> !Draws(op, t)
    ensures t !in DoAll(s, ops).byToken
    ensures Authenticated(DoAll(s, ops), Some(t), now) == None
    decreases |ops|
  {
    if ops != [] {
      assert !Draws(ops[0], t);
      DoKeepsSound(s, ops[0]);
      GoneStaysGone(Do(s, ops[0]), t, ops[1..], now);
    }
  }

  /** A logged-out token is never accepted again in a run whose logins draw other tokens. */
  lemma LoggedOutStaysOut(s: Store, t: Token, at: int, ops: seq<Op>, now: int)
    requires Sound(s) && forall op :: op in ops ==> !Draws(op, t)
    ensures Authenticated(DoAll(DoLogout(s, Some(t), at), ops), Some(t), now) == None
  {
    DoKeepsSound(s, LogoutOp(Some(t), at));
    assert t !in DoLogout(s, Some(t), at).byToken;
    GoneStaysGone(DoLogout(s, Some(t), at), t, ops, now);
  }

  /** So is a token that a later login's prune evicted. */
  lemma EvictedStaysOut(s: Store, t: Token, login: Op, ops: seq<Op>, now: int)
    requires Sound(s) && login.LoginOp? && t !in Do(s, login).byToken
    requires forall op :: op in ops ==> !Draws(op, t)
    ensures Authenticated(DoAll(s, [login] + ops), Some(t), now) == None
  {
    DoKeepsSound(s, login);
    GoneStaysGone(Do(s, login), t, ops, now);
    assert ([login] + ops)[1..] == ops;
  }

  /** Nor is a token that was once looked at after its expiry, not even if the clock runs backwards. */
  lemma ExpiredStaysOut(s: Store, t: Token, at: int, ops: seq<Op>, now: int)
    requires Sound(s) && t in s.byToken && s.byToken[t].exp < at
    requires forall op :: op in ops ==> !Draws(op, t)
    ensures Authenticated(s, Some(t), at) == None
    ensures Authenticated(DoAll(Do(s, AuthenticateOp(Some(t), at)), ops), Some(t), now) == None
  {
    DoKeepsSound(s, AuthenticateOp(Some(t), at));
    GoneStaysGone(AfterLookup(s, Some(t), at), t, ops, now);
  }

  /** A token drawn twice ends the session that holds it and starts none. */
  lemma CollisionEndsSession(s: Store, claims: Option<Claims>, rawToken: string, drawn: Token, clock: Clock)
    requires Sound(s) && drawn in s.byToken && claims.Some? && claims.value.subject != ""
    ensures var s' := DoLogin(s, claims, rawToken, drawn, clock);
      s'.byToken == s.byToken - {drawn} && Tokens(s'.byAge) == Tokens(s.byAge) - {drawn}
  {
    RemoveFirstTokens(s.byAge, drawn);
  }

  /** No operation changes another user's stored state; only a successful login can end it. */
  lemma OthersUntouched(s: Store, op: Op, t: Token)
    requires Sound(s) && t in s.byToken
    requires match op
      case LoginOp(_, _, drawn, _) => drawn != t
      case LogoutOp(cookie, _) => cookie != Some(t)
      case AuthenticateOp(cookie, _) => cookie != Some(t)
    ensures t in Do(s, op).byToken ==> Do(s, op).byToken[t] == s.byToken[t]
    ensures t !in Do(s, op).byToken ==> op.LoginOp? && LoginSucceeds(s, op.claims, op.drawn)
  {
  }

  /** Authentication accepts exactly the stored, unexpired tokens, whatever prune has missed. */
  lemma AuthenticateExactly(maxSessions: nat, ops: seq<Op>, cookie: Option<Token>, now: int)
    ensures var s := DoAll(Empty(maxSessions), ops);
      Authenticated(s, cookie, now).Some? <==>
      exists e :: e in s.byAge && cookie == Some(e.token) && !Expired(e, now)
  {
    RunKeepsSound(Empty(maxSessions), ops);
    var s := DoAll(Empty(maxSessions), ops);
    if Authenticated(s, cookie, now).Some? {
      assert cookie.value in Tokens(s.byAge);
      var e :| e in s.byAge && e.token == cookie.value;
    }
  }

  // ---- sorted by expiry ----

  /** The stated assumption: each successful login expires no earlier than every stored session. */
  ghost predicate LoginsInOrder(s: Store, ops: seq<Op>)
    decreases |ops|
  {
    ops != [] ==>
      && (ops[0].LoginOp? && LoginSucceeds(s, ops[0].claims, ops[0].drawn) ==>
            forall e :: e in s.byAge ==> e.exp <= ops[0].claims.value.exp)
      && LoginsInOrder(Do(s, ops[0]), ops[1..])
  }

  lemma SortedBehind(a: seq<Entry>, e: Entry)
    requires SortedByExpiry(a) && forall x :: x in a ==> x.exp <= e.exp
    ensures SortedByExpiry(a + [e])
  {
    forall i | 0 <= i < |a| ensures (a + [e])[i].exp <= e.exp {
      assert (a + [e])[i] in a;
    }
  }

  lemma DoKeepsSorted(s: Store, op: Op)
    requires Sound(s) && SortedByExpiry(s.byAge) && LoginsInOrder(s, [op])
    ensures SortedByExpiry(Do(s, op).byAge)
  {
    match op
    case LoginOp(claims, rawToken, drawn, clock) =>
      RemoveFirstShape(s.byAge, drawn);
      if LoginSucceeds(s, claims, drawn) {
        var a := s.byAge + [Entry(drawn, claims.value.exp)];
        SortedBehind(s.byAge, Entry(drawn, claims.value.exp));
        SweepShape(a, clock, 0);
      }
    case LogoutOp(cookie, now) =>
      if cookie.Some? {
        RemoveFirstShape(s.byAge, cookie.value);
      }
    case AuthenticateOp(cookie, now) =>
      if cookie.Some? {
        RemoveFirstShape(s.byAge, cookie.value);
      }
  }

  lemma {:induction false} RunKeepsSorted(s: Store, ops: seq<Op>)
    requires Sound(s) && SortedByExpiry(s.byAge) && LoginsInOrder(s, ops)
    ensures SortedByExpiry(DoAll(s, ops).byAge)
    decreases |ops|
  {
    if ops != [] {
      DoKeepsSorted(s, ops[0]);
      DoKeepsSound(s, ops[0]);
      RunKeepsSorted(Do(s, ops[0]), ops[1..]);
    }
  }

  /** In a slice sorted by expiry the capacity cut evicts only sessions expiring no later than every
      survivor, however many it evicts. */
  lemma CutEvictsOldest(s: Store, clock: Clock)
    requires SortedByExpiry(s.byAge)
    ensures var swept := Sweep(s.byAge, clock, 0); var kept := Prune(s, clock).byAge;
      && |kept| <= |swept|
      && forall i, j :: 0 <= i < |swept| - |kept| && 0 <= j < |kept| ==> swept[i].exp <= kept[j].exp
  {
    SweepShape(s.byAge, clock, 0);
  }

  lemma {:induction false} WholeSweep(a: seq<Entry>, clock: Clock, n: nat)
    ensures |Sweep(a, clock, n)| == |a| ==> Sweep(a, clock, n) == a
    decreases |a|
  {
    SweepShape(a, clock, n);
    if a != [] {
      if !Expired(a[0], clock(n)) {
        WholeSweep(a[1..], clock, n + 1);
      } else if |a| > 1 {
        SweepShape(a[2..], clock, n + 1);
      }
    }
  }

  /** A login cuts a session exactly when the store was full and the expiry loop found nothing to take
      from it and the new session. It then cuts exactly one, the oldest in the slice. */
  lemma LoginCutsOne(s: Store, op: Op)
    requires Sound(s) && op.LoginOp? && LoginSucceeds(s, op.claims, op.drawn)
    ensures var a := s.byAge + [NewEntry(op.claims, op.drawn)]; var swept := Sweep(a, op.clock, 0);
      Do(s, op).byAge == if |s.byAge| == s.maxSessions && swept == a then a[1..] else swept
  {
    var a := s.byAge + [NewEntry(op.claims, op.drawn)];
    SweepShape(a, op.clock, 0);
    WholeSweep(a, op.clock, 0);
  }

  /** With logins in expiry order the session cut by a login expires no later than every survivor. */
  lemma LoginEvictsOldest(s: Store, op: Op, cut: Entry)
    requires Sound(s) && SortedByExpiry(s.byAge) && LoginsInOrder(s, [op])
    requires op.LoginOp? && LoginSucceeds(s, op.claims, op.drawn)
    requires cut in Sweep(s.byAge + [NewEntry(op.claims, op.drawn)], op.clock, 0) && cut !in Do(s, op).byAge
    ensures |s.byAge| == s.maxSessions && cut == (s.byAge + [NewEntry(op.claims, op.drawn)])[0]
    ensures forall e :: e in Do(s, op).byAge ==> cut.exp <= e.exp
    ensures |Do(s, op).byAge| == s.maxSessions
  {
    var e := NewEntry(op.claims, op.drawn);
    LoginCutsOne(s, op);
    SortedBehind(s.byAge, e);
    TailMembers(s.byAge + [e], 1);
    assert s.byAge + [e] == [(s.byAge + [e])[0]] + (s.byAge + [e])[1..];
  }

  /** In a sorted store one sweep leaves half of the expired sessions, rounded down. */
  lemma SortedSweep(a: seq<Entry>, k: nat, now: int)
    requires k <= |a| && AllExpired(a[..k], now) && NoneExpired(a[k..], now)
    ensures SteadySweep(a, now) == Odds(a[..k]) + a[k..]
  {
    if k == |a| {
      assert a[..k] == a && a[k..] == [];
      SweepRun(a, now);
      assert Odds(a) + [] == Odds(a);
    } else {
      var run, rest := a[..k], a[k + 1..];
      assert a == run + [a[k]] + rest;
      assert a[k..] == [a[k]] + rest;
      assert a[k..][0] == a[k];
      assert NoneExpired(rest, now) by {
        assert forall i :: 0 <= i < |rest| ==> rest[i] == a[k..][i + 1];
      }
      SweepSplits(run, a[k], rest, now);
      SweepNothing(rest, now);
    }
  }

  lemma {:induction false} SweepNothing(a: seq<Entry>, now: int)
    requires NoneExpired(a, now)
    ensures SteadySweep(a, now) == a
    decreases |a|
  {
    if a != [] {
      SweepNothing(a[1..], now);
    }
  }
}
