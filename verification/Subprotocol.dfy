/** What the proxy makes of the request headers: it splits the subprotocol header, turns impersonation
    tokens into headers, and forwards the rest. */
module Subprotocol {
  import opened Options
  import opened Base64

  const USER_PREFIX := "Impersonate-User."
  const GROUP_PREFIX := "Impersonate-Group."
  const USER_HEADER := "Impersonate-User"
  const GROUP_HEADER := "Impersonate-Group"
  const PROTOCOL_HEADER := "Sec-Websocket-Protocol"
  const WEBSOCKET_HEADERS := [
    "Connection", "Sec-Websocket-Extensions", "Sec-Websocket-Key", "Sec-Websocket-Version", "Upgrade"]

  /** Header keys are in the canonical form in which the server delivers them. */
  type Header = map<string, seq<string>>

  /** What is passed on: the proxied headers and the subprotocol to negotiate with the client. */
  datatype Forward = Forward(headers: Header, subProtocol: string)

  /** A decoded name as a Go string, one character per byte. */
  function Text(b: seq<Byte>): string {
    seq(|b|, i requires 0 <= i < |b| => b[i] as char)
  }

  predicate IsSpace(c: char) {
    c in {' ', '\t', '\n', '\r', '\U{0B}', '\U{0C}', '\U{85}', '\U{A0}'}
  }

  function Split(s: string): (r: seq<string>)
    ensures |r| >= 1
  {
    if s == "" then [""]
    else if s[0] == ',' then [""] + Split(s[1..])
    else
      var r := Split(s[1..]);
      [[s[0]] + r[0]] + r[1..]
  }

  function TrimLeft(s: string): string {
    if s != "" && IsSpace(s[0]) then TrimLeft(s[1..]) else s
  }

  function TrimRight(s: string): string {
    if s != "" && IsSpace(s[|s| - 1]) then TrimRight(s[..|s| - 1]) else s
  }

  function TrimSpace(s: string): string {
    TrimRight(TrimLeft(s))
  }

  /** One protocol of the list; None is the 400 response for an undecodable token. */
  function Take(f: Forward, protocol: string): Option<Forward> {
    if USER_PREFIX <= protocol then
      var name := DecodeSubprotocol(protocol[|USER_PREFIX|..]);
      if name.None? then None
      else Some(Forward(f.headers[USER_HEADER := [Text(name.value)]], protocol))
    else if GROUP_PREFIX <= protocol then
      var name := DecodeSubprotocol(protocol[|GROUP_PREFIX|..]);
      if name.None? then None
      else Some(Forward(f.headers[USER_HEADER := [Text(name.value)]][GROUP_HEADER := [Text(name.value)]], protocol))
    else Some(Forward(f.headers[PROTOCOL_HEADER := [protocol]], protocol))
  }

  function TakeAll(f: Forward, protocols: seq<string>): Option<Forward>
    decreases |protocols|
  {
    if protocols == [] then Some(f)
    else
      var f' := Take(f, protocols[0]);
      if f'.None? then None else TakeAll(f'.value, protocols[1..])
  }

  function Trimmed(protocols: seq<string>): seq<string> {
    seq(|protocols|, i requires 0 <= i < |protocols| => TrimSpace(protocols[i]))
  }

  function TakeValues(f: Forward, values: seq<string>): Option<Forward>
    decreases |values|
  {
    if values == [] then Some(f)
    else
      var f' := TakeAll(f, Trimmed(Split(values[0])));
      if f'.None? then None else TakeValues(f'.value, values[1..])
  }

  /** http.Header.Get */
  function Get(values: seq<string>): string {
    if values == [] then "" else values[0]
  }

  function TakeKey(f: Forward, key: string, values: seq<string>): Option<Forward> {
    if key != PROTOCOL_HEADER then Some(f.(headers := f.headers[key := [Get(values)]]))
    else TakeValues(f, values)
  }

  function ValuesOf(header: Header, key: string): seq<string> {
    if key in header then header[key] else []
  }

  /** Go visits the keys of a map in no fixed order: `order` is the one it happens to take. */
  function TakeHeader(f: Forward, header: Header, order: seq<string>): Option<Forward>
    decreases |order|
  {
    if order == [] then Some(f)
    else
      var f' := TakeKey(f, order[0], ValuesOf(header, order[0]));
      if f'.None? then None else TakeHeader(f'.value, header, order[1..])
  }

  function Add(h: Header, key: string, value: string): Header {
    h[key := (if key in h then h[key] else []) + [value]]
  }

  /** After the loop: drop the client's own websocket headers and supply an origin. */
  function Finished(h: Header): Header {
    Add(h - set k | k in WEBSOCKET_HEADERS, "Origin", "http://localhost")
  }

  ghost predicate OrderOf(order: seq<string>, header: Header) {
    (forall i, j :: 0 <= i < j < |order| ==> order[i] != order[j]) && (set k | k in order) == header.Keys
  }

  function Outcome(header: Header, order: seq<string>): Option<Forward> {
    var f := TakeHeader(Forward(map[], ""), header, order);
    if f.None? then None else Some(f.value.(headers := Finished(f.value.headers)))
  }
}
