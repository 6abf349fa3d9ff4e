/** Base64 (section 4 of RFC 4648) over bytes with div and mod, and the substitution that makes it
    fit a WebSocket subprotocol token. */
module Base64 {
  import opened Options
  import opened Picking

  type Byte = b: int | 0 <= b < 256
  type Sextet = v: int | 0 <= v < 64

  /** What one character of a base64 text means. */
  datatype Code = Digit(v: Sextet) | Pad | Foreign

  function Symbol(v: Sextet): char {
    if v < 26 then (v + 65) as char         // A-Z
    else if v < 52 then (v + 71) as char    // a-z
    else if v < 62 then (v - 4) as char     // 0-9
    else if v == 62 then '+'
    else '/'
  }

  function Letter(c: Code): char {
    match c
    case Digit(v) => Symbol(v)
    case Pad => '='
    case Foreign => '?'
  }

  function Classify(c: char): Code {
    if 'A' <= c <= 'Z' then Digit(c as int - 65)
    else if 'a' <= c <= 'z' then Digit(c as int - 71)
    else if '0' <= c <= '9' then Digit(c as int + 4)
    else if c == '+' then Digit(62)
    else if c == '/' then Digit(63)
    else if c == '=' then Pad
    else Foreign
  }

  // Three bytes as four sextets, and back.

  function Sextet0(a: Byte): Sextet { a / 4 }

  function Sextet1(a: Byte, b: Byte): Sextet { a % 4 * 16 + b / 16 }

  function Sextet2(b: Byte, c: Byte): Sextet { b % 16 * 4 + c / 64 }

  function Sextet3(c: Byte): Sextet { c % 64 }

  function Byte0(v0: Sextet, v1: Sextet): Byte { v0 * 4 + v1 / 16 }

  function Byte1(v1: Sextet, v2: Sextet): Byte { v1 % 16 * 16 + v2 / 4 }

  function Byte2(v2: Sextet, v3: Sextet): Byte { v2 % 4 * 64 + v3 }

  lemma Regroup(a: Byte, b: Byte, c: Byte)
    ensures Byte0(Sextet0(a), Sextet1(a, b)) == a
    ensures Byte1(Sextet1(a, b), Sextet2(b, c)) == b
    ensures Byte2(Sextet2(b, c), Sextet3(c)) == c
  {
    assert Sextet1(a, b) / 16 == a % 4 && Sextet1(a, b) % 16 == b / 16;
    assert Sextet2(b, c) / 4 == b % 16 && Sextet2(b, c) % 4 == c / 64;
  }

  /** Three bytes make four digits; one or two left over are padded to four characters. */
  function EncodeCodes(b: seq<Byte>): seq<Code> {
    if |b| == 0 then []
    else if |b| == 1 then [Digit(Sextet0(b[0])), Digit(Sextet1(b[0], 0)), Pad, Pad]
    else if |b| == 2 then [Digit(Sextet0(b[0])), Digit(Sextet1(b[0], b[1])), Digit(Sextet2(b[1], 0)), Pad]
    else
      [Digit(Sextet0(b[0])), Digit(Sextet1(b[0], b[1])), Digit(Sextet2(b[1], b[2])), Digit(Sextet3(b[2]))]
      + EncodeCodes(b[3..])
  }

  function Letters(cs: seq<Code>): string {
    seq(|cs|, i requires 0 <= i < |cs| => Letter(cs[i]))
  }

  function Codes(s: string): seq<Code> {
    seq(|s|, i requires 0 <= i < |s| => Classify(s[i]))
  }

  /** window.btoa on the bytes of a name. */
  function Encode(b: seq<Byte>): string {
    Letters(EncodeCodes(b))
  }

  /** base64.StdEncoding: groups of four, padding only in the last group, spare bits not checked. */
  function DecodeCodes(s: seq<Code>): Option<seq<Byte>> {
    if |s| == 0 then Some([])
    else if |s| < 4 || !s[0].Digit? || !s[1].Digit? then None
    else
      var b0 := Byte0(s[0].v, s[1].v);
      if s[2].Pad? then (if s[3].Pad? && |s| == 4 then Some([b0]) else None)
      else if !s[2].Digit? then None
      else
        var b1 := Byte1(s[1].v, s[2].v);
        if s[3].Pad? then (if |s| == 4 then Some([b0, b1]) else None)
        else if !s[3].Digit? then None
        else
          var rest := DecodeCodes(s[4..]);
          if rest.None? then None else Some([b0, b1, Byte2(s[2].v, s[3].v)] + rest.value)
  }

  function WithoutNewlines(s: string): string {
    if s == [] then [] else (if s[0] in {'\r', '\n'} then [] else [s[0]]) + WithoutNewlines(s[1..])
  }

  function DecodeString(s: string): Option<seq<Byte>> {
    DecodeCodes(Codes(WithoutNewlines(s)))
  }

  function Replaced(s: string, from: char, to: char): string {
    seq(|s|, i requires 0 <= i < |s| => if s[i] == from then to else s[i])
  }

  /** The client: btoa, then '=' to '_' and '/' to '-'. */
  function EncodeName(name: seq<Byte>): string {
    Replaced(Replaced(Encode(name), '=', '_'), '/', '-')
  }

  /** The proxy's decodeSubprotocol. */
  function DecodeSubprotocol(token: string): Option<seq<Byte>> {
    DecodeString(Replaced(Replaced(token, '_', '='), '-', '/'))
  }

  // ---- the codes ----

  lemma {:induction false} EncodeCodesAreProper(b: seq<Byte>)
    ensures forall i :: 0 <= i < |EncodeCodes(b)| ==> !EncodeCodes(b)[i].Foreign?
    decreases |b|
  {
    if |b| >= 3 {
      EncodeCodesAreProper(b[3..]);
    }
  }

  lemma DecodeFull(v0: Sextet, v1: Sextet, v2: Sextet, v3: Sextet, tail: seq<Code>)
    requires DecodeCodes(tail).Some?
    ensures DecodeCodes([Digit(v0), Digit(v1), Digit(v2), Digit(v3)] + tail) ==
            Some([Byte0(v0, v1), Byte1(v1, v2), Byte2(v2, v3)] + DecodeCodes(tail).value)
  {
    var s := [Digit(v0), Digit(v1), Digit(v2), Digit(v3)] + tail;
    assert s[4..] == tail;
  }

  lemma DecodePadded(v0: Sextet, v1: Sextet, v2: Sextet)
    ensures DecodeCodes([Digit(v0), Digit(v1), Pad, Pad]) == Some([Byte0(v0, v1)])
    ensures DecodeCodes([Digit(v0), Digit(v1), Digit(v2), Pad]) == Some([Byte0(v0, v1), Byte1(v1, v2)])
  {
  }

  lemma EncodeOne(a: Byte)
    ensures EncodeCodes([a]) == [Digit(Sextet0(a)), Digit(Sextet1(a, 0)), Pad, Pad]
    ensures Byte0(Sextet0(a), Sextet1(a, 0)) == a
  {
    Regroup(a, 0, 0);
  }

  lemma OneByte(a: Byte)
    ensures DecodeCodes(EncodeCodes([a])) == Some([a])
  {
    EncodeOne(a);
    DecodePadded(Sextet0(a), Sextet1(a, 0), 0);
  }

  lemma TwoBytes(a: Byte, b: Byte)
    ensures DecodeCodes(EncodeCodes([a, b])) == Some([a, b])
  {
    Regroup(a, b, 0);
    DecodePadded(Sextet0(a), Sextet1(a, b), Sextet2(b, 0));
  }

  lemma ThreeBytes(a: Byte, b: Byte, c: Byte, tail: seq<Byte>)
    requires DecodeCodes(EncodeCodes(tail)) == Some(tail)
    ensures DecodeCodes(EncodeCodes([a, b, c] + tail)) == Some([a, b, c] + tail)
  {
    Regroup(a, b, c);
    assert ([a, b, c] + tail)[3..] == tail;
    DecodeFull(Sextet0(a), Sextet1(a, b), Sextet2(b, c), Sextet3(c), EncodeCodes(tail));
  }

  lemma {:induction false} CodesRoundTrip(b: seq<Byte>)
    ensures DecodeCodes(EncodeCodes(b)) == Some(b)
    decreases |b|
  {
    if |b| == 1 {
      OneByte(b[0]);
      assert b == [b[0]];
    } else if |b| == 2 {
      TwoBytes(b[0], b[1]);
      assert b == [b[0], b[1]];
    } else if |b| >= 3 {
      CodesRoundTrip(b[3..]);
      ThreeBytes(b[0], b[1], b[2], b[3..]);
      assert b == [b[0], b[1], b[2]] + b[3..];
    }
  }

  // ---- the characters ----

  lemma ClassifyLetter(c: Code)
    requires !c.Foreign?
    ensures Classify(Letter(c)) == c
  {
  }

  predicate Proper(s: string) {
    forall i :: 0 <= i < |s| ==> !Classify(s[i]).Foreign?
  }

  lemma EncodeIsProper(b: seq<Byte>)
    ensures Proper(Encode(b)) && Codes(Encode(b)) == EncodeCodes(b)
  {
    EncodeCodesAreProper(b);
    forall i | 0 <= i < |Encode(b)| ensures Classify(Encode(b)[i]) == EncodeCodes(b)[i] {
      ClassifyLetter(EncodeCodes(b)[i]);
    }
  }

  lemma {:induction false} NoNewlines(s: string)
    requires Proper(s)
    ensures WithoutNewlines(s) == s
    decreases |s|
  {
    if s != [] {
      assert Proper(s[1..]) by {
        assert forall i :: 0 <= i < |s| - 1 ==> s[1..][i] == s[i + 1];
      }
      NoNewlines(s[1..]);
      assert !Classify(s[0]).Foreign?;
    }
  }

  lemma SubstitutionUndone(s: string)
    requires Proper(s)
    ensures Replaced(Replaced(Replaced(Replaced(s, '=', '_'), '/', '-'), '_', '='), '-', '/') == s
  {
  }

  /** Every byte string survives the client's encoding and the proxy's decoding. */
  lemma NameRoundTrip(name: seq<Byte>)
    ensures DecodeSubprotocol(EncodeName(name)) == Some(name)
  {
    EncodeIsProper(name);
    SubstitutionUndone(Encode(name));
    NoNewlines(Encode(name));
    CodesRoundTrip(name);
  }

  // ---- the format ----

  /** The character of a digit in Table 1 of RFC 4648, but with '-' for '/', and '_' for the padding. */
  predicate WrittenAs(c: char, code: Code) {
    match code
    case Pad => c == '_'
    case Foreign => false
    case Digit(v) =>
      if v < 26 then c as int == 'A' as int + v
      else if v < 52 then c as int == 'a' as int + (v - 26)
      else if v < 62 then c as int == '0' as int + (v - 52)
      else c == if v == 62 then '+' else '-'
  }

  function Value(c: Code): Sextet {
    if c.Digit? then c.v else 0
  }

  /** One number, written in base 64 and in base 256. */
  function Number64(c0: Code, c1: Code, c2: Code, c3: Code): int {
    ((Value(c0) * 64 + Value(c1)) * 64 + Value(c2)) * 64 + Value(c3)
  }

  function Number256(a: Byte, b: Byte, c: Byte): int {
    (a * 256 + b) * 256 + c
  }

  lemma SextetsAreDigits(a: Byte, b: Byte, c: Byte)
    ensures Number64(Digit(Sextet0(a)), Digit(Sextet1(a, b)), Digit(Sextet2(b, c)), Digit(Sextet3(c))) ==
            Number256(a, b, c)
  {
    assert a == a / 4 * 4 + a % 4 && b == b / 16 * 16 + b % 16 && c == c / 64 * 64 + c % 64;
  }

  /** A byte of the name, or zero where a short last group is filled up. */
  function ByteAt(b: seq<Byte>, i: nat): Byte {
    if i < |b| then b[i] else 0
  }

  /** Four characters for three bytes, the last of which may be missing, and are then padded. */
  ghost predicate StandsFor(c0: Code, c1: Code, c2: Code, c3: Code, b: seq<Byte>, i: nat) {
    && c0.Digit? && c1.Digit? && !c2.Foreign? && !c3.Foreign?
    && (c2.Pad? <==> |b| <= i + 1) && (c3.Pad? <==> |b| <= i + 2)
    && Number64(c0, c1, c2, c3) == Number256(ByteAt(b, i), ByteAt(b, i + 1), ByteAt(b, i + 2))
  }

  ghost predicate GroupAt(cs: seq<Code>, b: seq<Byte>, i: nat) {
    4 * i + 3 < |cs| && StandsFor(cs[4 * i], cs[4 * i + 1], cs[4 * i + 2], cs[4 * i + 3], b, 3 * i)
  }

  lemma FirstGroup(b: seq<Byte>)
    requires b != []
    ensures GroupAt(EncodeCodes(b), b, 0)
  {
    SextetsAreDigits(ByteAt(b, 0), ByteAt(b, 1), ByteAt(b, 2));
  }

  lemma FirstFour(b: seq<Byte>)
    requires b != []
    ensures |EncodeCodes(b)| == 4 + if |b| >= 3 then |EncodeCodes(b[3..])| else 0
  {
  }

  lemma {:induction false} EncodeCodesLength(b: seq<Byte>)
    ensures |EncodeCodes(b)| == (|b| + 2) / 3 * 4
    decreases |b|
  {
    if b != [] {
      FirstFour(b);
      if |b| >= 3 {
        EncodeCodesLength(b[3..]);
        assert (|b| + 2) / 3 == (|b| - 3 + 2) / 3 + 1;
      }
    }
  }

  /** Group number i of four characters stands for the bytes 3i to 3i+2. */
  lemma {:induction false} EncodeCodesGroups(b: seq<Byte>, i: nat)
    requires 3 * i < |b|
    ensures GroupAt(EncodeCodes(b), b, i)
    decreases i
  {
    if i == 0 {
      FirstGroup(b);
    } else {
      var cs := EncodeCodes(b);
      EncodeCodesGroups(b[3..], i - 1);
      GroupMoves(cs, EncodeCodes(b[3..]), b, i - 1);
    }
  }

  lemma GroupMoves(cs: seq<Code>, tail: seq<Code>, b: seq<Byte>, i: nat)
    requires |b| >= 3 && |cs| >= 4 && cs[4..] == tail && GroupAt(tail, b[3..], i)
    ensures GroupAt(cs, b, i + 1)
  {
    var k, m := 4 * i, 3 * i;
    assert tail[k] == cs[k + 4] && tail[k + 1] == cs[k + 5] && tail[k + 2] == cs[k + 6] && tail[k + 3] == cs[k + 7];
    assert ByteAt(b[3..], m) == ByteAt(b, m + 3) && ByteAt(b[3..], m + 1) == ByteAt(b, m + 4);
    assert ByteAt(b[3..], m + 2) == ByteAt(b, m + 5);
  }

  // ---- which texts are refused ----

  /** Whole groups of four, all digits but for at most two paddings at the very end. */
  ghost predicate WellFormed(s: seq<Code>) {
    |s| % 4 == 0 && exists pads: nat :: PaddedBy(s, pads)
  }

  ghost predicate PaddedBy(s: seq<Code>, pads: nat) {
    && pads <= 2 && pads <= |s|
    && (forall i :: 0 <= i < |s| - pads ==> s[i].Digit?)
    && (forall i :: |s| - pads <= i < |s| ==> s[i].Pad?)
  }

  lemma {:induction false} DecodesExactly(s: seq<Code>)
    ensures DecodeCodes(s).Some? <==> WellFormed(s)
    decreases |s|
  {
    if |s| >= 4 && s[0].Digit? && s[1].Digit? && s[2].Digit? && s[3].Digit? {
      DecodesExactly(s[4..]);
      WholeGroup(s);
    } else if |s| == 0 {
      assert PaddedBy(s, 0);
    } else {
      FinalGroup(s);
    }
  }

  lemma WholeGroup(s: seq<Code>)
    requires |s| >= 4 && s[0].Digit? && s[1].Digit? && s[2].Digit? && s[3].Digit?
    ensures WellFormed(s) <==> WellFormed(s[4..])
  {
    var t := s[4..];
    assert forall i :: 0 <= i < |t| ==> t[i] == s[i + 4];
    if pads: nat :| PaddedBy(s, pads) {
      assert !(|t| < pads) by {
        assert s[3].Digit?;
      }
      forall i | 0 <= i < |t| - pads ensures t[i].Digit? { assert s[i + 4].Digit?; }
      assert PaddedBy(t, pads);
    }
    if pads: nat :| PaddedBy(t, pads) {
      forall i | 0 <= i < |s| - pads ensures s[i].Digit? { assert i >= 4 ==> s[i] == t[i - 4]; }
      forall i | |s| - pads <= i < |s| ensures s[i].Pad? { assert s[i] == t[i - 4]; }
      assert PaddedBy(s, pads);
    }
  }

  lemma FinalGroup(s: seq<Code>)
    requires |s| > 0 && !(|s| >= 4 && s[0].Digit? && s[1].Digit? && s[2].Digit? && s[3].Digit?)
    ensures DecodeCodes(s).Some? <==> WellFormed(s)
  {
    if DecodeCodes(s).Some? {
      assert PaddedBy(s, if s[2].Pad? then 2 else 1);
    }
    if |s| % 4 == 0 {
      if pads: nat :| PaddedBy(s, pads) {
        assert |s| == 4 && pads > 0;
      }
    }
  }

  lemma {:induction false} NewlinesAreDropped(s: string)
    ensures Picked(WithoutNewlines(s), s, (c: char) => c !in {'\r', '\n'})
    decreases |s|
  {
    var kept := (c: char) => c !in {'\r', '\n'};
    if s == [] {
      PickedNothing(kept);
    } else {
      NewlinesAreDropped(s[1..]);
      PickedCons(s[0], WithoutNewlines(s[1..]), s[1..], kept);
      assert s == [s[0]] + s[1..];
    }
  }

  predicate TokenDigit(c: char) {
    'A' <= c <= 'Z' || 'a' <= c <= 'z' || '0' <= c <= '9' || c in {'+', '/', '-'}
  }

  ghost predicate PaddedText(s: string, pads: nat) {
    && pads <= 2 && pads <= |s|
    && (forall i :: 0 <= i < |s| - pads ==> TokenDigit(s[i]))
    && (forall i :: |s| - pads <= i < |s| ==> s[i] in {'=', '_'})
  }

  /** Which names the proxy decodes: leaving out carriage returns and line feeds, the length must be a
      multiple of four, and all characters letters, digits, '+', '/' or '-', but for at most two '=' or '_'
      at the very end. It refuses exactly the others, with a 400 response. */
  lemma DecodableExactly(token: string)
    ensures var s := WithoutNewlines(token);
      && Picked(s, token, (c: char) => c !in {'\r', '\n'})
      && (DecodeSubprotocol(token).Some? <==> |s| % 4 == 0 && exists pads: nat :: PaddedText(s, pads))
  {
    NewlinesAreDropped(token);
    var t := Replaced(Replaced(token, '_', '='), '-', '/');
    ReplacedBefore(token);
    DecodesExactly(Codes(WithoutNewlines(t)));
    SameShape(WithoutNewlines(token));
  }

  lemma {:induction false} ReplacedBefore(s: string)
    ensures WithoutNewlines(Replaced(Replaced(s, '_', '='), '-', '/')) ==
            Replaced(Replaced(WithoutNewlines(s), '_', '='), '-', '/')
    decreases |s|
  {
    if s != [] {
      ReplacedBefore(s[1..]);
      ReplacedCons(s[0], s[1..]);
      assert s == [s[0]] + s[1..];
      ReplacedCons(s[0], WithoutNewlines(s[1..]));
    }
  }

  function OneReplaced(c: char): char {
    if c == '_' then '=' else if c == '-' then '/' else c
  }

  lemma ReplacedCons(c: char, s: string)
    ensures Replaced(Replaced([c] + s, '_', '='), '-', '/') ==
            [OneReplaced(c)] + Replaced(Replaced(s, '_', '='), '-', '/')
  {
  }

  lemma SameShape(s: string)
    ensures WellFormed(Codes(Replaced(Replaced(s, '_', '='), '-', '/'))) <==>
            |s| % 4 == 0 && exists pads: nat :: PaddedText(s, pads)
  {
    var cs := Codes(Replaced(Replaced(s, '_', '='), '-', '/'));
    forall i | 0 <= i < |s|
      ensures (cs[i].Digit? <==> TokenDigit(s[i])) && (cs[i].Pad? <==> s[i] in {'=', '_'})
    {
      assert cs[i] == Classify(OneReplaced(s[i]));
    }
    forall pads: nat ensures PaddedBy(cs, pads) <==> PaddedText(s, pads) {}
  }

  /** The encoded name: four of these characters for every three bytes, and for what is left over. */
  lemma NameIsBase64(name: seq<Byte>, i: nat)
    ensures |EncodeName(name)| == |EncodeCodes(name)| == (|name| + 2) / 3 * 4
    ensures 3 * i < |name| ==> GroupAt(EncodeCodes(name), name, i)
    ensures forall j :: 0 <= j < |EncodeName(name)| ==> WrittenAs(EncodeName(name)[j], EncodeCodes(name)[j])
  {
    EncodeCodesLength(name);
    EncodeCodesAreProper(name);
    if 3 * i < |name| {
      EncodeCodesGroups(name, i);
    }
  }

  /** The encoded name has none of the characters a subprotocol list gives a meaning to. */
  lemma NameIsToken(name: seq<Byte>)
    ensures forall c :: c in EncodeName(name) ==>
              c in {'+', '-', '_'} || 'A' <= c <= 'Z' || 'a' <= c <= 'z' || '0' <= c <= '9'
  {
    EncodeIsProper(name);
  }
}
