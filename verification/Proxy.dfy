/** The proxy's loops over the request headers. */
module Proxy {
  import opened Options
  import opened Base64
  import opened Subprotocol
  import opened SubprotocolOrder

  /** The loop over the header keys, in the order that Go happens to take, and what follows it. */
  method ProxyHeaders(header: Header, order: seq<string>) returns (result: Option<Forward>)
    requires OrderOf(order, header)
    ensures result == Outcome(header, order)
    ensures result.None? <==> TokensOf(header).None?
    ensures result.None? <==> PROTOCOL_HEADER in header && BadLine(header[PROTOCOL_HEADER])
    ensures result.Some? ==>
              && Forwards(header, TokensOf(header).value.headers, result.value.headers)
              && result.value.subProtocol == TokensOf(header).value.subProtocol
  {
    ForwardedHeaders(header, order);
    var proxied: Header := map[];
    var subProtocol := "";
    var i := 0;
    assert order[0..] == order;
    while i < |order|
      invariant 0 <= i <= |order|
      invariant TakeHeader(Forward(map[], ""), header, order) ==
                TakeHeader(Forward(proxied, subProtocol), header, order[i..])
    {
      var key := order[i];
      assert key in (set k | k in order);
      assert order[i..][1..] == order[i + 1..];
      if key != PROTOCOL_HEADER {
        proxied := proxied[key := [Get(header[key])]];
      } else {
        var ok;
        ok, proxied, subProtocol := ProxyValues(header[key], proxied, subProtocol);
        if !ok {
          return None;
        }
      }
      i := i + 1;
    }
    return Some(Forward(Finished(proxied), subProtocol));
  }

  /** The loop over the values of the subprotocol header. */
  method ProxyValues(values: seq<string>, h: Header, sub: string)
    returns (ok: bool, proxied: Header, subProtocol: string)
    ensures TakeValues(Forward(h, sub), values) == if ok then Some(Forward(proxied, subProtocol)) else None
  {
    ok, proxied, subProtocol := true, h, sub;
    var j := 0;
    assert values[0..] == values;
    while j < |values|
      invariant 0 <= j <= |values|
      invariant TakeValues(Forward(h, sub), values) == TakeValues(Forward(proxied, subProtocol), values[j..])
    {
      assert values[j..][1..] == values[j + 1..];
      ok, proxied, subProtocol := ProxyProtocols(values[j], proxied, subProtocol);
      if !ok {
        return;
      }
      j := j + 1;
    }
  }

  /** The inner loop over one comma-separated value. */
  method ProxyProtocols(protocols: string, h: Header, sub: string)
    returns (ok: bool, proxied: Header, subProtocol: string)
    ensures TakeAll(Forward(h, sub), Trimmed(Split(protocols))) ==
            if ok then Some(Forward(proxied, subProtocol)) else None
  {
    ok, proxied, subProtocol := true, h, sub;
    var parts := Split(protocols);
    ghost var trimmed := Trimmed(parts);
    var i := 0;
    assert trimmed[0..] == trimmed;
    while i < |parts|
      invariant 0 <= i <= |parts|
      invariant TakeAll(Forward(h, sub), trimmed) == TakeAll(Forward(proxied, subProtocol), trimmed[i..])
    {
      var protocol := TrimSpace(parts[i]);
      assert trimmed[i..][0] == protocol && trimmed[i..][1..] == trimmed[i + 1..];
      if USER_PREFIX <= protocol {
        var decoded := DecodeSubprotocol(protocol[|USER_PREFIX|..]);
        if decoded.None? {
          ok := false;
          return;
        }
        proxied := proxied[USER_HEADER := [Text(decoded.value)]];
        subProtocol := protocol;
      } else if GROUP_PREFIX <= protocol {
        var decoded := DecodeSubprotocol(protocol[|GROUP_PREFIX|..]);
        if decoded.None? {
          ok := false;
          return;
        }
        proxied := proxied[USER_HEADER := [Text(decoded.value)]];
        proxied := proxied[GROUP_HEADER := [Text(decoded.value)]];
        subProtocol := protocol;
      } else {
        proxied := proxied[PROTOCOL_HEADER := [protocol]];
        subProtocol := protocol;
      }
      i := i + 1;
    }
  }
}
