/** The mutable store and the login operations over it. */
module Sessions {
  import opened Options
  import opened SessionModel

  /** A login state is shared by reference: the store writes its token into it. */
  class LoginState {
    const user: string
    const name: string
    const rawToken: string
    const exp: int
    var sessionToken: Token

    constructor (user: string, name: string, rawToken: string, exp: int)
      ensures Value() == Login(user, name, rawToken, exp, "")
    {
      this.user, this.name, this.rawToken, this.exp := user, name, rawToken, exp;
      sessionToken := "";
    }

    function Value(): Login
      reads this
    {
      Login(user, name, rawToken, exp, sessionToken)
    }
  }

  /** The tokens under which the store holds this object. */
  ghost function TokensOf(m: map<Token, LoginState>, ls: LoginState): set<Token> {
    set t | t in m && m[t] == ls
  }

  ghost function Relabelled(s: Store, held: set<Token>, drawn: Token): Store {
    s.(byToken := map t | t in s.byToken ::
         if t in held then s.byToken[t].(sessionToken := drawn) else s.byToken[t])
  }

  lemma NothingRelabelled(s: Store, drawn: Token)
    ensures Relabelled(s, {}, drawn) == s
  {
  }

  class SessionStore {
    var byToken: map<Token, LoginState>
    var byAge: seq<Entry>
    const maxSessions: nat

    ghost function View(): Store
      reads this, byToken.Values
    {
      Store(map t | t in byToken :: byToken[t].Value(), byAge, maxSessions)
    }

    constructor (maxSessions: nat)
      ensures View() == Empty(maxSessions) && byToken == map[]
    {
      byToken, byAge := map[], [];
      this.maxSessions := maxSessions;
    }

    /** `drawn` is the random token. A state that the store already holds, under other tokens, is
        relabelled under each of them, because its one token field is overwritten. */
    method AddSession(ls: LoginState, drawn: Token) returns (ok: bool)
      modifies this, ls`sessionToken
      ensures ok <==> drawn !in old(byToken)
      ensures !ok ==> View() == Delete(old(View()), drawn)
      ensures ok ==>
                View() == Insert(Relabelled(old(View()), TokensOf(old(byToken), ls), drawn), old(ls.Value()), drawn)
      ensures ls !in old(byToken).Values ==> View() == Add(old(View()), old(ls.Value()), drawn)
      ensures byToken == if ok then old(byToken)[drawn := ls] else old(byToken) - {drawn}
    {
      if drawn in byToken {
        var _ := DeleteSession(drawn);
        return false;
      }
      ghost var before, held := View(), TokensOf(byToken, ls);
      StoreState(ls, drawn);
      if ls !in old(byToken).Values {
        assert held == {};
        NothingRelabelled(before, drawn);
      }
      return true;
    }

    /** The end of addSession: from the assignment to the state's token field on. */
    method StoreState(ls: LoginState, drawn: Token)
      modifies this, ls`sessionToken
      ensures View() == Insert(Relabelled(old(View()), TokensOf(old(byToken), ls), drawn), old(ls.Value()), drawn)
      ensures byToken == old(byToken)[drawn := ls]
    {
      WriteToken(ls, drawn);
      ghost var relabelled := View();
      byToken := byToken[drawn := ls];
      byAge := byAge + [Entry(drawn, ls.exp)];
      assert View().byToken == relabelled.byToken[drawn := ls.Value()];
    }

    method WriteToken(ls: LoginState, drawn: Token)
      modifies ls`sessionToken
      ensures View() == Relabelled(old(View()), TokensOf(byToken, ls), drawn)
      ensures ls.Value() == old(ls.Value()).(sessionToken := drawn)
    {
      ls.sessionToken := drawn;
    }

    method GetSession(t: Token) returns (ls: LoginState?)
      ensures ls == null <==> t !in byToken
      ensures ls != null ==> ls == byToken[t]
    {
      ls := if t in byToken then byToken[t] else null;
    }

    method DeleteSession(t: Token) returns (found: bool)
      modifies this
      ensures View() == Delete(old(View()), t) && byToken == old(byToken) - {t}
      ensures found <==> t in Tokens(old(byAge))
    {
      byToken := byToken - {t};
      found := RemoveFromAge(t);
    }

    /** deleteSession's loop over the slice: remove the first entry with this token. */
    method RemoveFromAge(t: Token) returns (found: bool)
      modifies this`byAge
      ensures byAge == RemoveFirst(old(byAge), t)
      ensures found <==> t in Tokens(old(byAge))
    {
      var i := 0;
      while i < |byAge|
        invariant 0 <= i <= |byAge| && byAge == old(byAge)
        invariant forall j :: 0 <= j < i ==> byAge[j].token != t
      {
        if byAge[i].token == t {
          FirstAt(byAge, i, t);
          byAge := byAge[..i] + byAge[i + 1..];
          return true;
        }
        i := i + 1;
      }
      FirstNowhere(byAge, t);
      return false;
    }

    /** pruneSessions' expiry loop: it removes at `i` and then advances `i`, reading the clock once in
        every turn. When the last entry is removed, `i` ends one past the end. */
    method SweepExpired(clock: Clock)
      modifies this`byAge, this`byToken
      ensures byAge == Sweep(old(byAge), clock, 0)
      ensures byToken == old(byToken) - SweptTokens(old(byAge), clock, 0)
    {
      ghost var a, m := byAge, byToken;
      var i := 0;
      while i < |byAge|
        invariant Swept(a, m, byAge, byToken, i, clock)
        decreases |byAge| + 1 - i
      {
        var s := byAge[i];
        var now := clock(i);
        if s.exp - now < 0 {
          SweptRemoving(a, m, byAge, byToken, i, clock);
          byToken := byToken - {s.token};
          byAge := byAge[..i] + byAge[i + 1..];
        } else {
          SweptKeeping(a, m, byAge, byToken, i, clock);
        }
        i := i + 1;
      }
      assert i == |byAge| ==> byAge[..i] == byAge && byAge[i..] == [];
    }

    /** The capacity cut: drop the oldest sessions beyond maxSessions. */
    method CutOldest()
      modifies this`byAge, this`byToken
      ensures var n := Overflow(old(byAge), maxSessions);
        byAge == old(byAge)[n..] && byToken == old(byToken) - Tokens(old(byAge)[..n])
    {
      var toRemove := |byAge| - maxSessions;
      if toRemove > 0 {
        byToken := byToken - Tokens(byAge[..toRemove]);
        byAge := byAge[toRemove..];
      } else {
        assert Tokens(byAge[..0]) == {} && byToken - {} == byToken && byAge[0..] == byAge;
      }
    }

    method PruneSessions(clock: Clock)
      modifies this
      ensures View() == Prune(old(View()), clock)
    {
      ghost var m, a := byToken, byAge;
      SweepExpired(clock);
      CutOldest();
      ghost var swept := Sweep(a, clock, 0);
      ghost var cut := Tokens(swept[..Overflow(swept, maxSessions)]);
      assert byToken == m - SweptTokens(a, clock, 0) - cut;
      assert View().byToken == old(View()).byToken - SweptTokens(a, clock, 0) - cut;
    }
  }

  lemma {:induction false} FirstAt(a: seq<Entry>, i: nat, t: Token)
    requires i < |a| && a[i].token == t && forall j :: 0 <= j < i ==> a[j].token != t
    ensures RemoveFirst(a, t) == a[..i] + a[i + 1..] && t in Tokens(a)
    decreases i
  {
    assert a[i] in a;
    if i > 0 {
      FirstAt(a[1..], i - 1, t);
      assert a[0].token != t && a[..i] == [a[0]] + a[1..][..i - 1] && a[1..][i..] == a[i + 1..];
    }
  }

  lemma {:induction false} FirstNowhere(a: seq<Entry>, t: Token)
    requires forall j :: 0 <= j < |a| ==> a[j].token != t
    ensures RemoveFirst(a, t) == a && t !in Tokens(a)
    decreases |a|
  {
    if a != [] {
      FirstNowhere(a[1..], t);
      assert a == [a[0]] + a[1..];
    }
  }

  /** The state of the expiry loop over `a` and `m`, with index `i` into the shrinking `b`. The index
      is also the number of the turn. */
  ghost predicate Swept<V>(
    a: seq<Entry>, m: map<Token, V>, b: seq<Entry>, n: map<Token, V>, i: int, clock: Clock)
  {
    && 0 <= i <= |b| + 1
    && if i <= |b| then
         && b[..i] + Sweep(b[i..], clock, i) == Sweep(a, clock, 0)
         && n - SweptTokens(b[i..], clock, i) == m - SweptTokens(a, clock, 0)
       else
         b == Sweep(a, clock, 0) && n == m - SweptTokens(a, clock, 0)
  }

  lemma SweptKeeping<V>(a: seq<Entry>, m: map<Token, V>, b: seq<Entry>, n: map<Token, V>, i: nat, clock: Clock)
    requires Swept(a, m, b, n, i, clock) && i < |b| && !Expired(b[i], clock(i))
    ensures Swept(a, m, b, n, i + 1, clock)
  {
    assert b[i..][1..] == b[i + 1..];
    assert b[..i] + ([b[i]] + Sweep(b[i + 1..], clock, i + 1)) == b[..i + 1] + Sweep(b[i + 1..], clock, i + 1);
  }

  /** A removing turn: the entry that slides into place `i` is kept unseen. */
  lemma SweptRemoving<V>(a: seq<Entry>, m: map<Token, V>, b: seq<Entry>, n: map<Token, V>, i: nat, clock: Clock)
    requires Swept(a, m, b, n, i, clock) && i < |b| && Expired(b[i], clock(i))
    ensures Swept(a, m, b[..i] + b[i + 1..], n - {b[i].token}, i + 1, clock)
  {
    var b' := b[..i] + b[i + 1..];
    var rest := b[i..];
    if i < |b'| {
      assert rest[2..] == b'[i + 1..] && rest[1] == b'[i];
      assert b[..i] + ([b'[i]] + Sweep(rest[2..], clock, i + 1)) == b'[..i + 1] + Sweep(rest[2..], clock, i + 1);
      assert n - SweptTokens(rest, clock, i) == n - {b[i].token} - SweptTokens(rest[2..], clock, i + 1);
    } else {
      assert |rest| == 1 && b' == b[..i];
    }
  }

  class OidcAuth {
    const sessions: SessionStore

    constructor (maxSessions: nat)
      ensures fresh(sessions) && sessions.View() == Empty(maxSessions) && sessions.byToken == map[]
    {
      sessions := new SessionStore(maxSessions);
    }

    method LogIn(claims: Option<Claims>, rawToken: string, drawn: Token, clock: Clock) returns (ok: bool)
      modifies sessions
      ensures sessions.View() == Do(old(sessions.View()), LoginOp(claims, rawToken, drawn, clock))
      ensures ok <==> LoginSucceeds(old(sessions.View()), claims, drawn)
    {
      if claims.None? || claims.value.subject == "" {
        return false;
      }
      var c := claims.value;
      var ls := new LoginState(c.subject, c.name, rawToken, c.exp);
      var added := sessions.AddSession(ls, drawn);
      if !added {
        return false;
      }
      sessions.PruneSessions(clock);
      return true;
    }

    method GetLoginState(cookie: Option<Token>, now: int) returns (ls: LoginState?)
      modifies sessions
      ensures sessions.View() == AfterLookup(old(sessions.View()), cookie, now)
      ensures ls == null <==> Lookup(old(sessions.View()), cookie, now) == None
      ensures ls != null ==>
                && cookie.Some? && cookie.value in old(sessions.byToken)
                && ls == old(sessions.byToken)[cookie.value]
      ensures ls != null ==> sessions.byToken == old(sessions.byToken)
    {
      if cookie.None? {
        return null;
      }
      ls := sessions.GetSession(cookie.value);
      if ls == null {
        return;
      }
      if ls.exp - now < 0 {
        var _ := sessions.DeleteSession(cookie.value);
        return null;
      }
    }

    method LogOut(cookie: Option<Token>, now: int)
      modifies sessions
      ensures sessions.View() == Do(old(sessions.View()), LogoutOp(cookie, now))
    {
      var ls := GetLoginState(cookie, now);
      if ls != null {
        var _ := sessions.DeleteSession(ls.sessionToken);
      }
    }

    method Authenticate(cookie: Option<Token>, now: int) returns (user: Option<User>)
      modifies sessions
      ensures sessions.View() == Do(old(sessions.View()), AuthenticateOp(cookie, now))
      ensures user == Authenticated(old(sessions.View()), cookie, now)
    {
      var ls := GetLoginState(cookie, now);
      user := if ls == null then None else Some(User(ls.user, ls.name, ls.rawToken));
    }
  }
}
