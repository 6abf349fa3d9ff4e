/** What the proxy makes of a subprotocol header written by the client. */
module SubprotocolRoundTrip {
  import opened Options
  import opened Base64
  import opened Subprotocol

  /** One protocol as the client means it. */
  datatype Token = User(name: seq<Byte>) | Group(name: seq<Byte>) | Plain(text: string)

  function Render(t: Token): string {
    match t
    case User(name) => "Impersonate-User." + EncodeName(name)
    case Group(name) => "Impersonate-Group." + EncodeName(name)
    case Plain(text) => text
  }

  /** The white space of Latin-1. */
  const WHITE := {' ', '\t', '\n', '\r', '\U{0B}', '\U{0C}', '\U{85}', '\U{A0}'}

  ghost predicate Clean(s: string) {
    && (forall i :: 0 <= i < |s| ==> s[i] != ',')
    && (s != "" ==> s[0] !in WHITE && s[|s| - 1] !in WHITE)
  }

  /** Plain protocols are free of commas and outer spaces and are not impersonation tokens. */
  ghost predicate Legal(t: Token) {
    t.Plain? ==> Clean(t.text) && !(USER_PREFIX <= t.text) && !(GROUP_PREFIX <= t.text)
  }

  ghost predicate Spaces(s: string) {
    forall i :: 0 <= i < |s| ==> s[i] in WHITE
  }

  /** One element of a list, with its own white space around it. */
  datatype Written = Written(before: string, text: string, after: string)

  ghost predicate Blank(w: Written) {
    Spaces(w.before) && Spaces(w.after)
  }

  function Padded(w: Written): string {
    w.before + w.text + w.after
  }

  function Texts(ws: seq<Written>): seq<string> {
    seq(|ws|, i requires 0 <= i < |ws| => ws[i].text)
  }

  /** A comma-separated list. */
  function Join(ws: seq<Written>): string
    requires ws != []
  {
    if |ws| == 1 then Padded(ws[0]) else Padded(ws[0]) + "," + Join(ws[1..])
  }

  function Rendered(ts: seq<Token>): seq<string> {
    seq(|ts|, i requires 0 <= i < |ts| => Render(ts[i]))
  }

  // ---- splitting and trimming undo joining ----

  lemma {:induction false} SplitFirst(p: string, rest: string)
    requires forall i :: 0 <= i < |p| ==> p[i] != ','
    ensures Split(p + "," + rest) == [p] + Split(rest)
    ensures Split(p) == [p]
    decreases |p|
  {
    if p == "" {
      assert ("," + rest)[1..] == rest;
      assert p + "," + rest == "," + rest;
    } else {
      SplitFirst(p[1..], rest);
      assert (p + "," + rest)[1..] == p[1..] + "," + rest;
      assert [p[0]] + p[1..] == p;
    }
  }

  lemma {:induction false} TrimLeftSpaces(w: string, s: string)
    requires Spaces(w)
    ensures TrimLeft(w + s) == TrimLeft(s)
    decreases |w|
  {
    if w == "" {
      assert w + s == s;
    } else {
      assert (w + s)[1..] == w[1..] + s;
      TrimLeftSpaces(w[1..], s);
    }
  }

  lemma {:induction false} TrimRightSpaces(s: string, w: string)
    requires Spaces(w)
    ensures TrimRight(s + w) == TrimRight(s)
    decreases |w|
  {
    if w == "" {
      assert s + w == s;
    } else {
      assert (s + w)[..|s + w| - 1] == s + w[..|w| - 1];
      TrimRightSpaces(s, w[..|w| - 1]);
    }
  }

  lemma TrimPadded(before: string, p: string, after: string)
    requires Spaces(before) && Spaces(after) && Clean(p)
    ensures TrimSpace(before + p + after) == p
  {
    assert before + p + after == before + (p + after);
    TrimLeftSpaces(before, p + after);
    if p == "" {
      assert p + after == after + "";
      TrimLeftSpaces(after, "");
    } else {
      TrimRightSpaces(p, after);
    }
  }

  lemma PaddedHasNoComma(w: Written)
    requires Clean(w.text) && Blank(w)
    ensures forall i :: 0 <= i < |Padded(w)| ==> Padded(w)[i] != ','
  {
    forall i | 0 <= i < |Padded(w)| ensures Padded(w)[i] != ',' {
      var m, n := |w.before|, |w.before| + |w.text|;
      assert Padded(w)[i] == if i < m then w.before[i] else if i < n then w.text[i - m] else w.after[i - n];
    }
  }

  lemma FirstElement(w: Written, rest: string)
    requires Clean(w.text) && Blank(w)
    ensures Trimmed(Split(Padded(w) + "," + rest)) == [w.text] + Trimmed(Split(rest))
    ensures Trimmed(Split(Padded(w))) == [w.text]
  {
    var head, tail := Padded(w), Split(rest);
    PaddedHasNoComma(w);
    TrimPadded(w.before, w.text, w.after);
    SplitFirst(head, rest);
    assert Trimmed([head] + tail) == [TrimSpace(head)] + Trimmed(tail);
    assert Trimmed([head]) == [TrimSpace(head)];
  }

  /** Splitting at the commas and trimming give back the elements, whatever white space surrounds each. */
  lemma {:induction false} SplitUndoesJoin(ws: seq<Written>)
    requires ws != [] && forall i :: 0 <= i < |ws| ==> Blank(ws[i]) && Clean(ws[i].text)
    ensures Trimmed(Split(Join(ws))) == Texts(ws)
    decreases |ws|
  {
    if |ws| == 1 {
      FirstElement(ws[0], "");
    } else {
      FirstElement(ws[0], Join(ws[1..]));
      SplitUndoesJoin(ws[1..]);
      assert Texts(ws) == [ws[0].text] + Texts(ws[1..]);
    }
  }

  lemma RenderIsClean(t: Token)
    requires Legal(t)
    ensures Clean(Render(t))
  {
    if !t.Plain? {
      NameIsToken(t.name);
      var s := Render(t);
      var e := EncodeName(t.name);
      forall i | 0 <= i < |s| ensures s[i] != ',' && (i >= 1 ==> s[i] !in WHITE) {
        var prefix := if t.User? then USER_PREFIX else GROUP_PREFIX;
        if i >= |prefix| {
          assert s[i] == e[i - |prefix|] && s[i] in e;
        }
      }
    }
  }

  // ---- what each token does ----

  function Apply(f: Forward, t: Token): Forward {
    match t
    case User(name) => Forward(f.headers + map[USER_HEADER := [Text(name)]], Render(t))
    case Group(name) => Forward(f.headers + map[USER_HEADER := [Text(name)], GROUP_HEADER := [Text(name)]], Render(t))
    case Plain(text) => Forward(f.headers + map[PROTOCOL_HEADER := [text]], text)
  }

  function ApplyAll(f: Forward, ts: seq<Token>): Forward
    decreases |ts|
  {
    if ts == [] then f else ApplyAll(Apply(f, ts[0]), ts[1..])
  }

  lemma TakeIsApply(f: Forward, t: Token)
    requires Legal(t)
    ensures Take(f, Render(t)) == Some(Apply(f, t))
  {
    if !t.Plain? {
      NameRoundTrip(t.name);
      var prefix := if t.User? then USER_PREFIX else GROUP_PREFIX;
      assert Render(t)[|prefix|..] == EncodeName(t.name);
      assert GROUP_PREFIX[12] != USER_PREFIX[12];
      assert t.Group? ==> Render(t)[12] == GROUP_PREFIX[12];
      assert f.headers + map[USER_HEADER := [Text(t.name)]] == f.headers[USER_HEADER := [Text(t.name)]];
      assert f.headers + map[USER_HEADER := [Text(t.name)], GROUP_HEADER := [Text(t.name)]] ==
             f.headers[USER_HEADER := [Text(t.name)]][GROUP_HEADER := [Text(t.name)]];
    } else {
      assert f.headers + map[PROTOCOL_HEADER := [t.text]] == f.headers[PROTOCOL_HEADER := [t.text]];
    }
  }

  lemma {:induction false} TakeAllIsApplyAll(f: Forward, ts: seq<Token>)
    requires AllLegal(ts)
    ensures TakeAll(f, Rendered(ts)) == Some(ApplyAll(f, ts))
    decreases |ts|
  {
    if ts != [] {
      TakeIsApply(f, ts[0]);
      assert Rendered(ts)[1..] == Rendered(ts[1..]);
      TakeAllIsApplyAll(Apply(f, ts[0]), ts[1..]);
    }
  }

  /** `ws` is a way to write these tokens as a comma-separated list, with any white space around each. */
  ghost predicate Writes(ws: seq<Written>, value: string, ts: seq<Token>) {
    && ws != [] && (forall i :: 0 <= i < |ws| ==> Blank(ws[i]))
    && Texts(ws) == Rendered(ts) && value == Join(ws)
  }

  /** The header value lists these tokens. */
  ghost predicate Spells(value: string, ts: seq<Token>) {
    exists ws: seq<Written> :: Writes(ws, value, ts)
  }

  /** A header value written by the client is taken token by token. */
  lemma {:induction false} TakesJoined(f: Forward, value: string, ts: seq<Token>)
    requires AllLegal(ts) && Spells(value, ts)
    ensures TakeAll(f, Trimmed(Split(value))) == Some(ApplyAll(f, ts))
  {
    var ws: seq<Written> :| Writes(ws, value, ts);
    forall i | 0 <= i < |ws| ensures Clean(ws[i].text) {
      assert ws[i].text == Texts(ws)[i] == Rendered(ts)[i];
      RenderIsClean(ts[i]);
    }
    SplitUndoesJoin(ws);
    TakeAllIsApplyAll(f, ts);
  }

  /** The header may be sent as several lines, each a list of legal tokens. */
  ghost predicate Legible(values: seq<string>, lines: seq<seq<Token>>) {
    |values| == |lines| && forall i :: 0 <= i < |lines| ==> Spells(values[i], lines[i]) && AllLegal(lines[i])
  }

  ghost predicate AllLegal(ts: seq<Token>) {
    forall i :: 0 <= i < |ts| ==> Legal(ts[i])
  }

  function Flat(lines: seq<seq<Token>>): seq<Token> {
    if lines == [] then [] else lines[0] + Flat(lines[1..])
  }

  lemma {:induction false} ApplyAllConcat(f: Forward, ts: seq<Token>, us: seq<Token>)
    ensures ApplyAll(f, ts + us) == ApplyAll(ApplyAll(f, ts), us)
    decreases |ts|
  {
    if ts == [] {
      assert ts + us == us;
    } else {
      assert (ts + us)[1..] == ts[1..] + us;
      ApplyAllConcat(Apply(f, ts[0]), ts[1..], us);
    }
  }

  lemma {:induction false} TakesLines(f: Forward, values: seq<string>, lines: seq<seq<Token>>)
    requires Legible(values, lines)
    ensures TakeValues(f, values) == Some(ApplyAll(f, Flat(lines)))
    decreases |lines|
  {
    if lines != [] {
      TakesJoined(f, values[0], lines[0]);
      TakesLines(ApplyAll(f, lines[0]), values[1..], lines[1..]);
      ApplyAllConcat(f, lines[0], Flat(lines[1..]));
    }
  }

  // ---- what a list of tokens means as a whole ----

  function LastName(ts: seq<Token>): Option<seq<Byte>> {
    if ts == [] then None
    else
      var t := ts[|ts| - 1];
      if t.Plain? then LastName(ts[..|ts| - 1]) else Some(t.name)
  }

  function LastGroup(ts: seq<Token>): Option<seq<Byte>> {
    if ts == [] then None
    else
      var t := ts[|ts| - 1];
      if t.Group? then Some(t.name) else LastGroup(ts[..|ts| - 1])
  }

  function LastPlain(ts: seq<Token>): Option<string> {
    if ts == [] then None
    else
      var t := ts[|ts| - 1];
      if t.Plain? then Some(t.text) else LastPlain(ts[..|ts| - 1])
  }

  function Entry(key: string, value: Option<string>): Header {
    if value.Some? then map[key := [value.value]] else map[]
  }

  function NameText(name: Option<seq<Byte>>): Option<string> {
    if name.Some? then Some(Text(name.value)) else None
  }

  /** The headers a list of tokens sets. */
  function Special(ts: seq<Token>): Header {
    Entry(USER_HEADER, NameText(LastName(ts))) + Entry(GROUP_HEADER, NameText(LastGroup(ts)))
    + Entry(PROTOCOL_HEADER, LastPlain(ts))
  }

  /** The last user or group token names the user, the last group token the group, the last plain
      protocol is forwarded, and the very last protocol of all is the one negotiated. */
  lemma {:induction false} ApplyAllMeans(f: Forward, ts: seq<Token>)
    ensures ApplyAll(f, ts).headers == f.headers + Special(ts)
    ensures ApplyAll(f, ts).subProtocol == if ts == [] then f.subProtocol else Render(ts[|ts| - 1])
    decreases |ts|
  {
    if ts == [] {
      assert Special(ts) == map[];
    } else {
      var n := |ts| - 1;
      var f' := ApplyAll(f, ts[..n]);
      assert ts == ts[..n] + [ts[n]];
      ApplyAllConcat(f, ts[..n], [ts[n]]);
      assert ApplyAll(f', [ts[n]]) == Apply(f', ts[n]);
      ApplyAllMeans(f, ts[..n]);
      SpecialStep(f.headers, ts);
    }
  }

  lemma SpecialStep(h: Header, ts: seq<Token>)
    requires ts != []
    ensures Apply(Forward(h + Special(ts[..|ts| - 1]), ""), ts[|ts| - 1]).headers == h + Special(ts)
  {
    var t := ts[|ts| - 1];
    var init := ts[..|ts| - 1];
    var u, g, p := NameText(LastName(init)), NameText(LastGroup(init)), LastPlain(init);
    assert USER_HEADER[12] != GROUP_HEADER[12];
    assert USER_HEADER[0] != PROTOCOL_HEADER[0] && GROUP_HEADER[0] != PROTOCOL_HEADER[0];
    var e, f, c := Entry(USER_HEADER, u), Entry(GROUP_HEADER, g), Entry(PROTOCOL_HEADER, p);
    match t
    case User(name) => OverrideFirst(h, e, f, c, map[USER_HEADER := [Text(name)]]);
    case Group(name) =>
      var x, y := map[USER_HEADER := [Text(name)]], map[GROUP_HEADER := [Text(name)]];
      OverrideTwo(h, e, f, c, x, y);
      assert map[USER_HEADER := [Text(name)], GROUP_HEADER := [Text(name)]] == x + y;
    case Plain(text) => OverrideLast(h, e, f, c, map[PROTOCOL_HEADER := [text]]);
  }

  lemma OverrideFirst(h: Header, a: Header, b: Header, c: Header, x: Header)
    requires a.Keys <= x.Keys && x.Keys !! b.Keys && x.Keys !! c.Keys
    ensures (h + (a + b + c)) + x == h + (x + b + c)
  {
  }

  lemma OverrideTwo(h: Header, a: Header, b: Header, c: Header, x: Header, y: Header)
    requires a.Keys <= x.Keys && b.Keys <= y.Keys && x.Keys !! c.Keys && y.Keys !! c.Keys
    ensures (h + (a + b + c)) + (x + y) == h + (x + y + c)
  {
  }

  lemma OverrideLast(h: Header, a: Header, b: Header, c: Header, x: Header)
    requires c.Keys <= x.Keys
    ensures (h + (a + b + c)) + x == h + (a + b + x)
  {
  }
}
