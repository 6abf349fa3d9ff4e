/** The whole header loop: map iteration order, and what an impersonating client gets. */
module SubprotocolOrder {
  import opened Options
  import opened Base64
  import opened Subprotocol
  import opened SubprotocolRoundTrip

  const NOTHING := Forward(map[], "")

  /** The other headers of the request, each reduced to its first value. */
  function OthersOf(header: Header, keys: seq<string>): Header {
    map k | k in keys && k in header && k != PROTOCOL_HEADER :: [Get(header[k])]
  }

  function Others(header: Header): Header {
    map k | k in header && k != PROTOCOL_HEADER :: [Get(header[k])]
  }

  lemma {:induction false} TakeHeaderConcat(f: Forward, header: Header, a: seq<string>, b: seq<string>)
    requires TakeHeader(f, header, a).Some?
    ensures TakeHeader(f, header, a + b) == TakeHeader(TakeHeader(f, header, a).value, header, b)
    decreases |a|
  {
    if a == [] {
      assert a + b == b;
    } else {
      assert (a + b)[1..] == a[1..] + b;
      TakeHeaderConcat(TakeKey(f, a[0], ValuesOf(header, a[0])).value, header, a[1..], b);
    }
  }

  lemma {:induction false} PlainKeys(f: Forward, header: Header, order: seq<string>)
    requires forall k :: k in order ==> k in header
    requires PROTOCOL_HEADER !in order
    ensures TakeHeader(f, header, order) == Some(f.(headers := f.headers + OthersOf(header, order)))
    decreases |order|
  {
    if order == [] {
      assert f.headers + OthersOf(header, order) == f.headers;
    } else {
      var k := order[0];
      assert order == [k] + order[1..];
      PlainKeys(f.(headers := f.headers[k := [Get(header[k])]]), header, order[1..]);
      OthersCons(header, k, order[1..], f.headers);
    }
  }

  lemma OthersCons(header: Header, k: string, rest: seq<string>, h: Header)
    requires k in header && k != PROTOCOL_HEADER
    ensures h[k := [Get(header[k])]] + OthersOf(header, rest) == h + OthersOf(header, [k] + rest)
  {
  }

  /** The subprotocol loop only adds to the headers it is given. */
  function Under(o: Header, f: Option<Forward>): Option<Forward> {
    if f.None? then None else Some(f.value.(headers := o + f.value.headers))
  }

  lemma TakeUnder(o: Header, f: Forward, protocol: string)
    ensures Take(f.(headers := o + f.headers), protocol) == Under(o, Take(f, protocol))
  {
    if USER_PREFIX <= protocol {
      var name := DecodeSubprotocol(protocol[|USER_PREFIX|..]);
      if name.Some? {
        UpdateUnder(o, f.headers, USER_HEADER, [Text(name.value)]);
      }
    } else if GROUP_PREFIX <= protocol {
      var name := DecodeSubprotocol(protocol[|GROUP_PREFIX|..]);
      if name.Some? {
        var v := [Text(name.value)];
        UpdateUnder(o, f.headers, USER_HEADER, v);
        UpdateUnder(o, f.headers[USER_HEADER := v], GROUP_HEADER, v);
      }
    } else {
      UpdateUnder(o, f.headers, PROTOCOL_HEADER, [protocol]);
    }
  }

  lemma UpdateUnder(o: Header, h: Header, k: string, v: seq<string>)
    ensures (o + h)[k := v] == o + h[k := v]
  {
  }

  lemma {:induction false} TakeAllUnder(o: Header, f: Forward, protocols: seq<string>)
    ensures TakeAll(f.(headers := o + f.headers), protocols) == Under(o, TakeAll(f, protocols))
    decreases |protocols|
  {
    if protocols != [] {
      TakeUnder(o, f, protocols[0]);
      if Take(f, protocols[0]).Some? {
        TakeAllUnder(o, Take(f, protocols[0]).value, protocols[1..]);
      }
    }
  }

  lemma {:induction false} TakeValuesUnder(o: Header, f: Forward, values: seq<string>)
    ensures TakeValues(f.(headers := o + f.headers), values) == Under(o, TakeValues(f, values))
    decreases |values|
  {
    if values != [] {
      var ps := Trimmed(Split(values[0]));
      TakeAllUnder(o, f, ps);
      if TakeAll(f, ps).Some? {
        TakeValuesUnder(o, TakeAll(f, ps).value, values[1..]);
      }
    }
  }

  const SPECIAL_KEYS := {USER_HEADER, GROUP_HEADER, PROTOCOL_HEADER}

  lemma {:induction false} TakeAllSetsSpecial(f: Forward, protocols: seq<string>)
    requires f.headers.Keys <= SPECIAL_KEYS
    ensures TakeAll(f, protocols).Some? ==> TakeAll(f, protocols).value.headers.Keys <= SPECIAL_KEYS
    decreases |protocols|
  {
    if protocols != [] && Take(f, protocols[0]).Some? {
      TakeAllSetsSpecial(Take(f, protocols[0]).value, protocols[1..]);
    }
  }

  lemma {:induction false} TakeValuesSetsSpecial(f: Forward, values: seq<string>)
    requires f.headers.Keys <= SPECIAL_KEYS
    ensures TakeValues(f, values).Some? ==> TakeValues(f, values).value.headers.Keys <= SPECIAL_KEYS
    decreases |values|
  {
    if values != [] {
      TakeAllSetsSpecial(f, Trimmed(Split(values[0])));
      if TakeAll(f, Trimmed(Split(values[0]))).Some? {
        TakeValuesSetsSpecial(TakeAll(f, Trimmed(Split(values[0]))).value, values[1..]);
      }
    }
  }

  lemma KeyOnce(order: seq<string>, a: seq<string>, k: string, b: seq<string>)
    requires (forall i, j :: 0 <= i < j < |order| ==> order[i] != order[j]) && order == a + [k] + b
    ensures k !in a && k !in b
  {
    assert order[|a|] == k;
    forall i | 0 <= i < |a| ensures a[i] != k { assert order[i] == a[i]; }
    forall i | 0 <= i < |b| ensures b[i] != k { assert order[|a| + 1 + i] == b[i]; }
  }

  /** Where the subprotocol header falls in the order decides which of the other headers it overrides. */
  lemma LoopResult(header: Header, order: seq<string>, a: seq<string>, b: seq<string>)
    requires OrderOf(order, header) && order == a + [PROTOCOL_HEADER] + b
    requires PROTOCOL_HEADER in header
    ensures var r := TakeValues(NOTHING, header[PROTOCOL_HEADER]);
      TakeHeader(NOTHING, header, order) ==
      if r.None? then None
      else Some(Forward(OthersOf(header, a) + r.value.headers + OthersOf(header, b), r.value.subProtocol))
    ensures PROTOCOL_HEADER !in a && PROTOCOL_HEADER !in b
  {
    PartsOfOrder(header, order, a, b);
    var o := OthersOf(header, a);
    PlainKeys(NOTHING, header, a);
    assert map[] + o == o;
    TakeHeaderConcat(NOTHING, header, a, [PROTOCOL_HEADER] + b);
    RestOfLoop(o, header, b);
  }

  lemma PartsOfOrder(header: Header, order: seq<string>, a: seq<string>, b: seq<string>)
    requires OrderOf(order, header) && order == a + [PROTOCOL_HEADER] + b
    ensures PROTOCOL_HEADER in header && PROTOCOL_HEADER !in a && PROTOCOL_HEADER !in b
    ensures (forall k :: k in a ==> k in header) && (forall k :: k in b ==> k in header)
    ensures order == a + ([PROTOCOL_HEADER] + b)
  {
    KeyOnce(order, a, PROTOCOL_HEADER, b);
    assert order[|a|] == PROTOCOL_HEADER;
    forall k | k in a || k in b ensures k in header { assert k in order; }
  }

  lemma RestOfLoop(o: Header, header: Header, b: seq<string>)
    requires PROTOCOL_HEADER in header && PROTOCOL_HEADER !in b && forall k :: k in b ==> k in header
    ensures var r := TakeValues(NOTHING, header[PROTOCOL_HEADER]);
      TakeHeader(Forward(o, ""), header, [PROTOCOL_HEADER] + b) ==
      if r.None? then None else Some(Forward(o + r.value.headers + OthersOf(header, b), r.value.subProtocol))
  {
    assert o + map[] == o;
    TakeValuesUnder(o, NOTHING, header[PROTOCOL_HEADER]);
    assert ([PROTOCOL_HEADER] + b)[1..] == b;
    var r := TakeValues(Forward(o, ""), header[PROTOCOL_HEADER]);
    if r.Some? {
      PlainKeys(r.value, header, b);
    }
  }

  /** The request sends no header of its own under a name that its tokens set, except with the same value. */
  ghost predicate NoConflict(header: Header, wanted: Header) {
    forall k :: k in wanted && k in header && k != PROTOCOL_HEADER ==> wanted[k] == [Get(header[k])]
  }

  lemma SplitAt(order: seq<string>, k: string) returns (a: seq<string>, b: seq<string>)
    requires k in order
    ensures order == a + [k] + b
  {
    var i :| 0 <= i < |order| && order[i] == k;
    a, b := order[..i], order[i + 1..];
  }

  lemma WithoutConflict(header: Header, order: seq<string>)
    requires OrderOf(order, header) && PROTOCOL_HEADER in header
    requires TakeValues(NOTHING, header[PROTOCOL_HEADER]).Some?
    requires NoConflict(header, TakeValues(NOTHING, header[PROTOCOL_HEADER]).value.headers)
    ensures var r := TakeValues(NOTHING, header[PROTOCOL_HEADER]).value;
      Outcome(header, order) == Some(Forward(Finished(Others(header) + r.headers), r.subProtocol))
  {
    assert forall k :: k in header.Keys <==> k in order;
    var a, b := SplitAt(order, PROTOCOL_HEADER);
    LoopResult(header, order, a, b);
    var r := TakeValues(NOTHING, header[PROTOCOL_HEADER]).value;
    forall k ensures k in header <==> k in a || k in b || k == PROTOCOL_HEADER {
      assert k in order <==> k in a || k == PROTOCOL_HEADER || k in b;
    }
    MergeParts(header, a, b, r.headers);
  }

  lemma MergeParts(header: Header, a: seq<string>, b: seq<string>, s: Header)
    requires forall k :: k in header <==> k in a || k in b || k == PROTOCOL_HEADER
    requires NoConflict(header, s)
    requires PROTOCOL_HEADER !in a && PROTOCOL_HEADER !in b
    ensures OthersOf(header, a) + s + OthersOf(header, b) == Others(header) + s
  {
  }

  lemma KeyOrder(keys: set<string>) returns (o: seq<string>)
    ensures (forall i, j :: 0 <= i < j < |o| ==> o[i] != o[j]) && (set k | k in o) == keys
    decreases keys
  {
    if keys == {} {
      o := [];
    } else {
      var k :| k in keys;
      var rest := KeyOrder(keys - {k});
      o := [k] + rest;
      assert forall x :: x in rest <==> x in keys - {k};
      assert forall x :: x in o <==> x == k || x in rest;
    }
  }

  const STRIPPED := {"Connection", "Sec-Websocket-Extensions", "Sec-Websocket-Key", "Sec-Websocket-Version", "Upgrade"}

  lemma StrippedKeys()
    ensures forall k :: k in WEBSOCKET_HEADERS <==> k in STRIPPED
    ensures "Origin" !in STRIPPED && SPECIAL_KEYS !! STRIPPED && "Origin" !in SPECIAL_KEYS
  {
    assert WEBSOCKET_HEADERS[2] in STRIPPED && WEBSOCKET_HEADERS[3] in STRIPPED && WEBSOCKET_HEADERS[4] in STRIPPED;
    assert |USER_HEADER| == 16 && |GROUP_HEADER| == 17 && |PROTOCOL_HEADER| == 22 && GROUP_HEADER[0] == 'I';
    assert |WEBSOCKET_HEADERS[0]| == 10 && |WEBSOCKET_HEADERS[1]| == 24 && WEBSOCKET_HEADERS[2][0] == 'S'
        && |WEBSOCKET_HEADERS[2]| == 17 && |WEBSOCKET_HEADERS[3]| == 21 && |WEBSOCKET_HEADERS[4]| == 7;
    assert |"Origin"| == 6;
  }

  lemma SpecialKept(h: Header, k: string)
    requires k in SPECIAL_KEYS
    ensures k in Finished(h) <==> k in h
    ensures k in h ==> Finished(h)[k] == h[k]
  {
    StrippedKeys();
    assert k in WEBSOCKET_HEADERS <==> k in STRIPPED;
  }

  ghost predicate SameOutcome(header: Header, o: seq<string>, o': seq<string>) {
    Outcome(header, o) == Outcome(header, o')
  }

  /** The tokens of the request set the headers of r and negotiate its subprotocol. */
  ghost predicate Means(header: Header, r: Forward) {
    PROTOCOL_HEADER in header && TakeValues(NOTHING, header[PROTOCOL_HEADER]) == Some(r)
  }

  /** Go visits header keys in no fixed order. All orders forward the same request if and only if the
      client sent no conflicting header of its own. */
  lemma OrderIrrelevantExactly(header: Header, r: Forward)
    requires Means(header, r)
    ensures (forall o, o' :: OrderOf(o, header) && OrderOf(o', header) ==> SameOutcome(header, o, o'))
            <==> NoConflict(header, r.headers)
  {
    if NoConflict(header, r.headers) {
      forall o, o' | OrderOf(o, header) && OrderOf(o', header) ensures SameOutcome(header, o, o') {
        BothWithoutConflict(header, r, o, o');
      }
    } else {
      var o, o' := ConflictingOrders(header, r);
    }
  }

  lemma BothWithoutConflict(header: Header, r: Forward, o: seq<string>, o': seq<string>)
    requires Means(header, r) && NoConflict(header, r.headers) && OrderOf(o, header) && OrderOf(o', header)
    ensures SameOutcome(header, o, o')
  {
    WithoutConflict(header, o);
    WithoutConflict(header, o');
  }

  lemma ConflictingOrders(header: Header, r: Forward) returns (o: seq<string>, o': seq<string>)
    requires Means(header, r) && !NoConflict(header, r.headers)
    ensures OrderOf(o, header) && OrderOf(o', header) && !SameOutcome(header, o, o')
  {
    var k :| k in r.headers && k in header && k != PROTOCOL_HEADER && r.headers[k] != [Get(header[k])];
    var keys := KeyOrder(header.Keys - {PROTOCOL_HEADER});
    ConflictShows(header, r, keys, k);
    o, o' := [PROTOCOL_HEADER] + keys, keys + [PROTOCOL_HEADER];
  }

  lemma ConflictShows(header: Header, r: Forward, keys: seq<string>, k: string)
    requires Means(header, r) && OrderOf(keys, header - {PROTOCOL_HEADER})
    requires k in r.headers && k in header && k != PROTOCOL_HEADER && r.headers[k] != [Get(header[k])]
    ensures OrderOf([PROTOCOL_HEADER] + keys, header) && OrderOf(keys + [PROTOCOL_HEADER], header)
    ensures !SameOutcome(header, [PROTOCOL_HEADER] + keys, keys + [PROTOCOL_HEADER])
  {
    BothOrders(header, keys);
    assert k in header - {PROTOCOL_HEADER} && k in keys;
    TakeValuesSetsSpecial(NOTHING, header[PROTOCOL_HEADER]);
    var first := ProtocolFirst(header, r, keys, k);
    var last := ProtocolLast(header, r, keys, k);
    assert first.headers[k] != last.headers[k];
  }

  lemma ProtocolFirst(header: Header, r: Forward, keys: seq<string>, k: string) returns (f: Forward)
    requires Means(header, r) && OrderOf([PROTOCOL_HEADER] + keys, header)
    requires k in keys && k in SPECIAL_KEYS && k in header && k != PROTOCOL_HEADER && k in r.headers
    ensures Outcome(header, [PROTOCOL_HEADER] + keys) == Some(f)
    ensures k in f.headers && f.headers[k] == [Get(header[k])]
  {
    assert [PROTOCOL_HEADER] + keys == [] + [PROTOCOL_HEADER] + keys;
    LoopResult(header, [PROTOCOL_HEADER] + keys, [], keys);
    var m := OthersOf(header, []) + r.headers + OthersOf(header, keys);
    SpecialKept(m, k);
    f := Forward(Finished(m), r.subProtocol);
  }

  lemma ProtocolLast(header: Header, r: Forward, keys: seq<string>, k: string) returns (f: Forward)
    requires Means(header, r) && OrderOf(keys + [PROTOCOL_HEADER], header)
    requires k in keys && k in SPECIAL_KEYS && k in header && k != PROTOCOL_HEADER && k in r.headers
    ensures Outcome(header, keys + [PROTOCOL_HEADER]) == Some(f)
    ensures k in f.headers && f.headers[k] == r.headers[k]
  {
    assert keys + [PROTOCOL_HEADER] == keys + [PROTOCOL_HEADER] + [];
    LoopResult(header, keys + [PROTOCOL_HEADER], keys, []);
    var m := OthersOf(header, keys) + r.headers + OthersOf(header, []);
    SpecialKept(m, k);
    f := Forward(Finished(m), r.subProtocol);
  }

  lemma BothOrders(header: Header, keys: seq<string>)
    requires PROTOCOL_HEADER in header && OrderOf(keys, header - {PROTOCOL_HEADER})
    ensures OrderOf([PROTOCOL_HEADER] + keys, header) && OrderOf(keys + [PROTOCOL_HEADER], header)
  {
    var first, last := [PROTOCOL_HEADER] + keys, keys + [PROTOCOL_HEADER];
    assert forall x :: x in keys <==> x in (header - {PROTOCOL_HEADER}).Keys;
    assert PROTOCOL_HEADER !in keys;
    assert forall x :: x in first <==> x == PROTOCOL_HEADER || x in keys;
    assert forall x :: x in last <==> x == PROTOCOL_HEADER || x in keys;
    assert (set k | k in first) == header.Keys;
    assert (set k | k in last) == header.Keys;
  }

  // ---- every forwarded header ----

  /** The value under which a header of the client is passed on: its first one, or none at all. */
  ghost predicate FirstValue(values: seq<string>, value: string) {
    if |values| == 0 then value == "" else value == values[0]
  }

  /** What is forwarded, key by key. The client's own websocket headers are gone; an origin is added to the
      client's; a header that a token sets has the token's value, or, for one order or another, the value
      the client sent under the same name; every other header of the client arrives with its first value;
      and there is nothing else. */
  ghost predicate Forwards(header: Header, tokens: Header, result: Header) {
    ForwardsBut(header, tokens, result,
                {"Connection", "Sec-Websocket-Extensions", "Sec-Websocket-Key", "Sec-Websocket-Version", "Upgrade"},
                "Origin", "http://localhost")
  }

  ghost predicate ForwardsBut(
    header: Header, tokens: Header, result: Header, stripped: set<string>, origin: string, local: string)
  {
    && (forall k :: k in result <==>
          k !in stripped && (k == origin || k in tokens || (k in header && k != PROTOCOL_HEADER)))
    && (forall k :: k in result && k in header && k !in tokens && k != origin ==>
          |result[k]| == 1 && FirstValue(header[k], result[k][0]))
    && (forall k :: k in result && k in tokens ==>
          || result[k] == tokens[k]
          || (k in header && k != PROTOCOL_HEADER && |result[k]| == 1 && FirstValue(header[k], result[k][0])))
    && origin in result
    && (if origin in header
        then |result[origin]| == 2 && FirstValue(header[origin], result[origin][0]) && result[origin][1] == local
        else result[origin] == [local])
  }

  /** The headers collected by the loop. */
  ghost predicate Collected(header: Header, tokens: Header, m: Header) {
    && (forall k :: k in m <==> k in tokens || (k in header && k != PROTOCOL_HEADER))
    && (forall k :: k in m && k !in tokens ==> m[k] == [Get(header[k])])
    && (forall k :: k in m && k in tokens ==>
          m[k] == tokens[k] || (k in header && k != PROTOCOL_HEADER && m[k] == [Get(header[k])]))
  }

  lemma FinishedForwards(header: Header, tokens: Header, m: Header)
    requires Collected(header, tokens, m) && tokens.Keys <= SPECIAL_KEYS
    ensures Forwards(header, tokens, Finished(m))
  {
    StrippedKeys();
    var r := Finished(m);
    assert PROTOCOL_HEADER in SPECIAL_KEYS;
    FinishedKeys(m, r);
    ForwardsKeyed(header, tokens, m, r, STRIPPED, "Origin", "http://localhost");
  }

  lemma FinishedKeys(m: Header, r: Header)
    requires r == Finished(m)
    ensures Supplied(m, r, STRIPPED, "Origin", "http://localhost")
  {
    StrippedKeys();
    forall k ensures k in r <==> k == "Origin" || (k in m && k !in STRIPPED) {
      assert k in WEBSOCKET_HEADERS <==> k in STRIPPED;
    }
  }

  /** r is m without some keys, and with one more value under one key. */
  ghost predicate Supplied(m: Header, r: Header, stripped: set<string>, key: string, value: string) {
    && (forall k :: k in r <==> k == key || (k in m && k !in stripped))
    && (forall k :: k in r && k != key ==> r[k] == m[k])
    && r[key] == (if key in m then m[key] else []) + [value]
  }

  lemma ForwardsKeyed(header: Header, tokens: Header, m: Header, r: Header,
                      stripped: set<string>, key: string, value: string)
    requires Collected(header, tokens, m) && Supplied(m, r, stripped, key, value)
    requires key !in stripped && key !in tokens && key != PROTOCOL_HEADER
    ensures ForwardsBut(header, tokens, r, stripped, key, value)
  {
  }

  lemma PartsAreCollected(header: Header, a: seq<string>, b: seq<string>, tokens: Header)
    requires forall k :: k in header <==> k in a || k in b || k == PROTOCOL_HEADER
    requires PROTOCOL_HEADER !in a && PROTOCOL_HEADER !in b
    ensures Collected(header, tokens, OthersOf(header, a) + tokens + OthersOf(header, b))
  {
  }

  /** What the tokens of a request set; a request without the subprotocol header has none. */
  function TokensOf(header: Header): Option<Forward> {
    if PROTOCOL_HEADER in header then TakeValues(NOTHING, header[PROTOCOL_HEADER]) else Some(NOTHING)
  }

  /** An impersonation token whose name does not decode. */
  ghost predicate Undecodable(protocol: string) {
    if USER_PREFIX <= protocol then DecodeSubprotocol(protocol[|USER_PREFIX|..]).None?
    else GROUP_PREFIX <= protocol && DecodeSubprotocol(protocol[|GROUP_PREFIX|..]).None?
  }

  ghost predicate SomeUndecodable(protocols: seq<string>) {
    exists i :: 0 <= i < |protocols| && Undecodable(protocols[i])
  }

  lemma {:induction false} TakeAllFails(f: Forward, protocols: seq<string>)
    ensures TakeAll(f, protocols).None? <==> SomeUndecodable(protocols)
    decreases |protocols|
  {
    if protocols != [] {
      if Take(f, protocols[0]).Some? {
        TakeAllFails(Take(f, protocols[0]).value, protocols[1..]);
        assert forall i :: 0 < i < |protocols| ==> protocols[i] == protocols[1..][i - 1];
      } else {
        assert Undecodable(protocols[0]);
      }
    }
  }

  /** Some line of the subprotocol header lists such a token. */
  ghost predicate BadLine(values: seq<string>) {
    exists i :: 0 <= i < |values| && SomeUndecodable(Trimmed(Split(values[i])))
  }

  lemma {:induction false} TakeValuesFails(f: Forward, values: seq<string>)
    ensures TakeValues(f, values).None? <==> BadLine(values)
    decreases |values|
  {
    if values != [] {
      var ps := Trimmed(Split(values[0]));
      TakeAllFails(f, ps);
      BadLineCons(values);
      if TakeAll(f, ps).Some? {
        TakeValuesFails(TakeAll(f, ps).value, values[1..]);
      }
    }
  }

  lemma BadLineCons(values: seq<string>)
    requires values != []
    ensures BadLine(values) <==> SomeUndecodable(Trimmed(Split(values[0]))) || BadLine(values[1..])
  {
    var rest := values[1..];
    if i :| 0 <= i < |rest| && SomeUndecodable(Trimmed(Split(rest[i]))) {
      assert values[i + 1] == rest[i];
    }
    if i :| 0 < i < |values| && SomeUndecodable(Trimmed(Split(values[i]))) {
      assert rest[i - 1] == values[i];
    }
  }

  /** For every request and every order of its headers: a 400 response if and only if a token cannot be
      decoded; otherwise every forwarded header is as described, and the subprotocol is the tokens'. */
  lemma ForwardedHeaders(header: Header, order: seq<string>)
    requires OrderOf(order, header)
    ensures Outcome(header, order).None? <==> TokensOf(header).None?
    ensures Outcome(header, order).None? <==> PROTOCOL_HEADER in header && BadLine(header[PROTOCOL_HEADER])
    ensures Outcome(header, order).Some? ==>
              && Forwards(header, TokensOf(header).value.headers, Outcome(header, order).value.headers)
              && Outcome(header, order).value.subProtocol == TokensOf(header).value.subProtocol
  {
    assert forall k :: k in header.Keys <==> k in order;
    if PROTOCOL_HEADER in header {
      var a, b := SplitAt(order, PROTOCOL_HEADER);
      LoopResult(header, order, a, b);
      TakeValuesFails(NOTHING, header[PROTOCOL_HEADER]);
      TakeValuesSetsSpecial(NOTHING, header[PROTOCOL_HEADER]);
      if TokensOf(header).Some? {
        var tokens := TokensOf(header).value.headers;
        forall k ensures k in header <==> k in a || k in b || k == PROTOCOL_HEADER {
          assert k in order <==> k in a || k == PROTOCOL_HEADER || k in b;
        }
        PartsAreCollected(header, a, b, tokens);
        FinishedForwards(header, tokens, OthersOf(header, a) + tokens + OthersOf(header, b));
      }
    } else {
      PlainKeys(NOTHING, header, order);
      var m := OthersOf(header, order);
      assert map[] + m == m;
      FinishedForwards(header, map[], m);
    }
  }

  // ---- end to end ----

  /** A request whose subprotocol header was written by the client from `lines`, and which carries no
      conflicting impersonation header of its own, is forwarded with exactly the headers its tokens mean:
      under the names they set their values, and under every other name what the client sent. */
  lemma {:induction false} HeaderRoundTrip(header: Header, order: seq<string>, lines: seq<seq<Token>>, ts: seq<Token>)
    requires OrderOf(order, header) && PROTOCOL_HEADER in header && Legible(header[PROTOCOL_HEADER], lines)
    requires ts == Flat(lines) && NoConflict(header, Special(ts))
    ensures Outcome(header, order).Some?
    ensures var f := Outcome(header, order).value;
      && Forwards(header, Special(ts), f.headers)
      && (forall k :: k in Special(ts) ==> k in f.headers && f.headers[k] == Special(ts)[k])
      && f.subProtocol == if ts == [] then "" else Render(ts[|ts| - 1])
  {
    ValuesRoundTrip(header[PROTOCOL_HEADER], lines, ts);
    ForwardedHeaders(header, order);
    WithoutConflict(header, order);
    TakeValuesSetsSpecial(NOTHING, header[PROTOCOL_HEADER]);
    TokensKept(Others(header), Special(ts));
  }

  lemma TokensKept(others: Header, tokens: Header)
    requires tokens.Keys <= SPECIAL_KEYS
    ensures forall k :: k in tokens ==> k in Finished(others + tokens) && Finished(others + tokens)[k] == tokens[k]
  {
    forall k | k in tokens ensures k in Finished(others + tokens) && Finished(others + tokens)[k] == tokens[k] {
      SpecialKept(others + tokens, k);
    }
  }

  lemma {:induction false} ValuesRoundTrip(values: seq<string>, lines: seq<seq<Token>>, ts: seq<Token>)
    requires Legible(values, lines) && ts == Flat(lines)
    ensures TakeValues(NOTHING, values) ==
            Some(Forward(Special(ts), if ts == [] then "" else Render(ts[|ts| - 1])))
  {
    TakesLines(NOTHING, values, lines);
    ApplyAllMeans(NOTHING, ts);
    NothingPlus(Special(ts));
  }

  lemma NothingPlus(h: Header)
    ensures NOTHING.headers + h == h
  {
  }

  /** The name, byte for byte, is the impersonated user, and the group too if a group was meant; else the
      group is the client's own. Only the last plain protocol is passed on. */
  ghost predicate Impersonates(
    h: Header, own: Header, token: Token, others: seq<Token>, user: string, group: string, plain: string)
    requires !token.Plain? && forall i :: 0 <= i < |others| ==> others[i].Plain?
  {
    var n := |others|;
    && user in h && Names(h[user], token.name)
    && (group in h <==> token.Group? || group in own)
    && (token.Group? ==> Names(h[group], token.name))
    && (!token.Group? && group in own ==> h[group] == own[group])
    && (plain in h <==> n > 0)
    && (n > 0 ==> h[plain] == [others[n - 1].text])
  }

  /** The one value is this name, a character for each byte. */
  ghost predicate Names(values: seq<string>, name: seq<Byte>) {
    && |values| == 1 && |values[0]| == |name|
    && forall i :: 0 <= i < |name| ==> values[0][i] as int == name[i]
  }

  /** The client sends its impersonation token first and further plain protocols after it, in one
      comma-separated header: the proxy recovers the name byte for byte, for any order of the keys. */
  lemma {:induction false} ImpersonationArrives(
    header: Header, order: seq<string>, value: string, token: Token, others: seq<Token>)
    requires OrderOf(order, header) && PROTOCOL_HEADER in header && header[PROTOCOL_HEADER] == [value]
    requires !token.Plain? && AllLegal(others) && forall i :: 0 <= i < |others| ==> others[i].Plain?
    requires Spells(value, [token] + others)
    requires NoConflict(header, Special([token] + others))
    ensures Outcome(header, order).Some?
    ensures var f := Outcome(header, order).value;
      && Impersonates(f.headers, Others(header), token, others,
                      "Impersonate-User", "Impersonate-Group", "Sec-Websocket-Protocol")
      && f.subProtocol == if others == [] then Render(token) else others[|others| - 1].text
  {
    OneLine(header, order, value, [token] + others);
    FinishedImpersonation(Others(header), token, others);
  }

  lemma {:induction false} OneLine(header: Header, order: seq<string>, value: string, ts: seq<Token>)
    requires OrderOf(order, header) && PROTOCOL_HEADER in header && header[PROTOCOL_HEADER] == [value]
    requires ts != [] && AllLegal(ts) && Spells(value, ts) && NoConflict(header, Special(ts))
    ensures Outcome(header, order) ==
            Some(Forward(Finished(Others(header) + Special(ts)), Render(ts[|ts| - 1])))
  {
    assert Flat([ts]) == ts + Flat([ts][1..]);
    ValuesRoundTrip(header[PROTOCOL_HEADER], [ts], ts);
    WithoutConflict(header, order);
  }

  lemma {:induction false} FinishedImpersonation(own: Header, token: Token, others: seq<Token>)
    requires !token.Plain? && forall i :: 0 <= i < |others| ==> others[i].Plain?
    requires PROTOCOL_HEADER !in own
    ensures Impersonates(Finished(own + Special([token] + others)), own, token, others,
                         USER_HEADER, GROUP_HEADER, PROTOCOL_HEADER)
  {
    var h := own + Special([token] + others);
    SpecialOfImpersonation(own, token, others);
    SpecialKept(h, USER_HEADER);
    SpecialKept(h, GROUP_HEADER);
    SpecialKept(h, PROTOCOL_HEADER);
  }

  lemma {:induction false} SpecialOfImpersonation(own: Header, token: Token, others: seq<Token>)
    requires !token.Plain? && forall i :: 0 <= i < |others| ==> others[i].Plain?
    requires PROTOCOL_HEADER !in own
    ensures Impersonates(own + Special([token] + others), own, token, others,
                         USER_HEADER, GROUP_HEADER, PROTOCOL_HEADER)
  {
    LastsOfImpersonation(token, others);
    KeysDiffer();
    assert Names([Text(token.name)], token.name);
    var ts := [token] + others;
    var u, g, p := NameText(LastName(ts)), NameText(LastGroup(ts)), LastPlain(ts);
  }

  lemma KeysDiffer()
    ensures USER_HEADER != GROUP_HEADER && GROUP_HEADER != PROTOCOL_HEADER && USER_HEADER != PROTOCOL_HEADER
  {
    assert USER_HEADER[12] != GROUP_HEADER[12];
    assert USER_HEADER[0] != PROTOCOL_HEADER[0] && GROUP_HEADER[0] != PROTOCOL_HEADER[0];
  }

  lemma {:induction false} LastsOfImpersonation(token: Token, others: seq<Token>)
    requires !token.Plain? && forall i :: 0 <= i < |others| ==> others[i].Plain?
    ensures LastName([token] + others) == Some(token.name)
    ensures LastGroup([token] + others) == if token.Group? then Some(token.name) else None
    ensures LastPlain([token] + others) == if others == [] then None else Some(others[|others| - 1].text)
    decreases |others|
  {
    var ts := [token] + others;
    if others == [] {
      assert ts == [token] && ts[..0] == [];
    } else {
      LastsOfImpersonation(token, others[..|others| - 1]);
      assert ts[..|ts| - 1] == [token] + others[..|others| - 1];
    }
  }
}
