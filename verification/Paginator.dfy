/** The mocked paginator: each response is a slice of the multiplied list, with a token for the next. */
module Paginator {
  import opened Options

  const PREFIX := "toPage"

  // ---- tokens ----

  function Digit(d: int): char
    requires 0 <= d < 10
  {
    (d + 48) as char
  }

  function Print(n: nat): string {
    if n < 10 then [Digit(n)] else Print(n / 10) + [Digit(n % 10)]
  }

  function PrintInt(n: int): string {
    if n < 0 then "-" + Print(-n) else Print(n)
  }

  function TokenFor(page: int): string {
    PREFIX + PrintInt(page)
  }

  /** String.replace with a string removes its first occurrence. */
  function WithoutFirst(s: string, part: string): string {
    if part <= s then s[|part|..] else if s == "" then "" else [s[0]] + WithoutFirst(s[1..], part)
  }

  function LeadingDigits(s: string): string {
    if s != "" && '0' <= s[0] <= '9' then [s[0]] + LeadingDigits(s[1..]) else ""
  }

  function NumberOf(digits: string): int {
    if digits == "" then 0 else 10 * NumberOf(digits[..|digits| - 1]) + (digits[|digits| - 1] as int - 48)
  }

  function ParseDigits(s: string): Option<int> {
    if LeadingDigits(s) == "" then None else Some(NumberOf(LeadingDigits(s)))
  }

  function SkipSpaces(s: string): string {
    if s != "" && s[0] in {' ', '\t', '\n', '\r', '\U{0B}', '\U{0C}', '\U{A0}'} then SkipSpaces(s[1..]) else s
  }

  /** parseInt with radix 10; None is NaN. */
  function ParseInt(s: string): Option<int> {
    var t := SkipSpaces(s);
    if t == "" then None
    else if t[0] == '+' then ParseDigits(t[1..])
    else if t[0] == '-' then
      var n := ParseDigits(t[1..]);
      if n.None? then None else Some(-n.value)
    else ParseDigits(t)
  }

  /** pageFromToken */
  function PageOf(token: Option<string>): Option<int> {
    if token.None? || token.value == "" then Some(0) else ParseInt(WithoutFirst(token.value, PREFIX))
  }

  lemma {:induction false} DigitsOfPrint(n: nat)
    ensures LeadingDigits(Print(n)) == Print(n) && Print(n) != "" && NumberOf(Print(n)) == n
    decreases n
  {
    if n >= 10 {
      DigitsOfPrint(n / 10);
      DigitsAppend(Print(n / 10), Digit(n % 10));
      assert Print(n)[..|Print(n)| - 1] == Print(n / 10);
    } else {
      assert Print(n)[..0] == "" && Print(n)[1..] == "";
    }
  }

  lemma {:induction false} DigitsAppend(s: string, c: char)
    requires LeadingDigits(s) == s && '0' <= c <= '9'
    ensures LeadingDigits(s + [c]) == s + [c]
    decreases |s|
  {
    if s == "" {
      assert ([c])[1..] == "";
      assert LeadingDigits([c]) == [c] + LeadingDigits("");
    } else {
      var tail := s[1..];
      assert LeadingDigits(s) == [s[0]] + LeadingDigits(tail);
      assert LeadingDigits(tail) == LeadingDigits(s)[1..] == tail;
      DigitsAppend(tail, c);
      assert (s + [c])[1..] == tail + [c];
    }
  }

  lemma ParsesDigits(s: string)
    requires s != "" && LeadingDigits(s) == s
    ensures ParseInt(s) == Some(NumberOf(s)) && ParseInt("-" + s) == Some(-NumberOf(s))
  {
    assert '0' <= s[0] <= '9';
    assert SkipSpaces(s) == s;
    var t := "-" + s;
    assert t[0] == '-' && t[1..] == s && SkipSpaces(t) == t;
  }

  lemma WithoutPrefix(part: string, s: string)
    ensures WithoutFirst(part + s, part) == s
  {
    assert part <= part + s;
  }

  // ---- which tokens can be read ----

  const BLANKS := {' ', '\t', '\n', '\r', '\U{0B}', '\U{0C}', '\U{A0}'}

  /** White space, a sign or none, at least one digit, and anything that does not start with a digit. */
  datatype Numeral = Numeral(blank: string, sign: string, digits: string, rest: string)

  ghost predicate Proper(n: Numeral) {
    && (forall i :: 0 <= i < |n.blank| ==> n.blank[i] in BLANKS)
    && n.sign in {"", "+", "-"}
    && n.digits != "" && (forall i :: 0 <= i < |n.digits| ==> '0' <= n.digits[i] <= '9')
    && (n.rest != "" ==> !('0' <= n.rest[0] <= '9'))
  }

  function Text(n: Numeral): string {
    n.blank + (n.sign + (n.digits + n.rest))
  }

  lemma {:induction false} SkipsBlanks(blank: string, s: string)
    requires (forall i :: 0 <= i < |blank| ==> blank[i] in BLANKS) && s != "" && s[0] !in BLANKS
    ensures SkipSpaces(blank + s) == s
    decreases |blank|
  {
    if blank == "" {
      assert blank + s == s;
    } else {
      assert (blank + s)[1..] == blank[1..] + s;
      SkipsBlanks(blank[1..], s);
    }
  }

  lemma {:induction false} LeadsWithDigits(digits: string, rest: string)
    requires (forall i :: 0 <= i < |digits| ==> '0' <= digits[i] <= '9') && (rest != "" ==> !('0' <= rest[0] <= '9'))
    ensures LeadingDigits(digits + rest) == digits
    decreases |digits|
  {
    if digits == "" {
      assert digits + rest == rest;
    } else {
      assert (digits + rest)[1..] == digits[1..] + rest;
      LeadsWithDigits(digits[1..], rest);
    }
  }

  /** A numeral is read up to where its digits end. */
  lemma ReadsNumeral(n: Numeral)
    requires Proper(n)
    ensures ParseInt(Text(n)) == Some(if n.sign == "-" then -NumberOf(n.digits) else NumberOf(n.digits))
  {
    var tail := n.digits + n.rest;
    var t := n.sign + tail;
    LeadsWithDigits(n.digits, n.rest);
    assert tail[0] == n.digits[0];
    if n.sign == "" {
      assert t == tail;
    } else {
      assert t[0] == n.sign[0] && t[1..] == tail;
    }
    SkipsBlanks(n.blank, t);
  }

  lemma {:induction false} Unblank(s: string) returns (blank: string)
    ensures s == blank + SkipSpaces(s) && forall i :: 0 <= i < |blank| ==> blank[i] in BLANKS
    ensures SkipSpaces(s) != "" ==> SkipSpaces(s)[0] !in BLANKS
    decreases |s|
  {
    if s != "" && s[0] in BLANKS {
      var rest := Unblank(s[1..]);
      blank := [s[0]] + rest;
      assert s == [s[0]] + s[1..];
    } else {
      blank := "";
    }
  }

  lemma {:induction false} Undigit(s: string) returns (rest: string)
    ensures s == LeadingDigits(s) + rest && (rest != "" ==> !('0' <= rest[0] <= '9'))
    ensures forall i :: 0 <= i < |LeadingDigits(s)| ==> '0' <= LeadingDigits(s)[i] <= '9'
    decreases |s|
  {
    if s != "" && '0' <= s[0] <= '9' {
      rest := Undigit(s[1..]);
      assert s == [s[0]] + s[1..];
    } else {
      rest := s;
    }
  }

  ghost predicate Spells(s: string, n: Numeral) {
    Proper(n) && Text(n) == s
  }

  /** Nothing else is a number: a text is read exactly if it starts with a numeral. */
  lemma ReadsExactly(s: string)
    ensures ParseInt(s).Some? <==> exists n :: Spells(s, n)
  {
    if n :| Spells(s, n) {
      ReadsNumeral(n);
    }
    if ParseInt(s).Some? {
      var blank := Unblank(s);
      var t := SkipSpaces(s);
      var signed := t[0] in {'+', '-'};
      var body := if signed then t[1..] else t;
      var rest := Undigit(body);
      var n := Numeral(blank, if signed then [t[0]] else "", LeadingDigits(body), rest);
      assert t == n.sign + body;
      assert Spells(s, n);
    }
  }

  /** `part` does not occur at any of the first n places of s. */
  ghost predicate AbsentBefore(s: string, part: string, n: int) {
    forall i :: 0 <= i < n && i <= |s| ==> !(part <= s[i..])
  }

  /** The first occurrence is removed, or nothing if there is none. */
  lemma {:induction false} RemovesFirst(a: string, part: string, b: string)
    ensures AbsentBefore(a + (part + b), part, |a|) ==> WithoutFirst(a + (part + b), part) == a + b
    ensures AbsentBefore(a, part, |a| + 1) ==> WithoutFirst(a, part) == a
    decreases |a|
  {
    if a == "" {
      assert a + (part + b) == part + b && a + b == b;
      assert AbsentBefore(a, part, 1) ==> !(part <= a[0..]);
    } else {
      var s := a + (part + b);
      assert s[1..] == a[1..] + (part + b) && a + b == [a[0]] + (a[1..] + b) && a == [a[0]] + a[1..];
      RemovesFirst(a[1..], part, b);
      assert AbsentBefore(s, part, |a|) ==> !(part <= s[0..]) && AbsentBefore(s[1..], part, |a| - 1) by {
        assert forall i :: 0 <= i < |a| - 1 ==> s[1..][i..] == s[i + 1..];
      }
      assert AbsentBefore(a, part, |a| + 1) ==> !(part <= a[0..]) && AbsentBefore(a[1..], part, |a|) by {
        assert forall i :: 0 <= i < |a| ==> a[1..][i..] == a[i + 1..];
      }
    }
  }

  /** What is asked for without a token, and by a token that can be read or cannot. */
  lemma TokenMeaning(n: Numeral, s: string)
    ensures PageOf(None) == Some(0) && PageOf(Some("")) == Some(0)
    ensures Proper(n) ==>
              PageOf(Some("toPage" + Text(n))) ==
              Some(if n.sign == "-" then -NumberOf(n.digits) else NumberOf(n.digits))
    ensures (forall n :: !Spells(s, n)) ==> PageOf(Some("toPage" + s)) == None
  {
    WithoutPrefix(PREFIX, Text(n));
    WithoutPrefix(PREFIX, s);
    ReadsExactly(s);
    if Proper(n) {
      ReadsNumeral(n);
    }
  }

  /** The token printer and parser invert each other. */
  lemma TokenRoundTrip(page: int)
    ensures PageOf(Some(TokenFor(page))) == Some(page)
  {
    var n: nat := if page < 0 then -page else page;
    DigitsOfPrint(n);
    ParsesDigits(Print(n));
    WithoutPrefix(PREFIX, PrintInt(page));
  }

  // ---- responses ----

  /** An item's clones, numbered from 0, and the item itself. */
  function WithClones<T>(item: T, clone: (T, nat) -> T, factor: nat): seq<T> {
    seq(factor, i requires 0 <= i < factor => clone(item, i)) + [item]
  }

  /** The backing list: every item is answered with its clones and itself. */
  function Multiplied<T>(items: seq<T>, clone: (T, nat) -> T, factor: nat): seq<T> {
    if items == [] then [] else WithClones(items[0], clone, factor) + Multiplied(items[1..], clone, factor)
  }

  lemma {:induction false} MultipliedLength<T>(items: seq<T>, clone: (T, nat) -> T, factor: nat)
    ensures |Multiplied(items, clone, factor)| == |items| * (factor + 1)
    decreases |items|
  {
    if items != [] {
      MultipliedLength(items[1..], clone, factor);
      assert |items| * (factor + 1) == (|items| - 1) * (factor + 1) + (factor + 1);
    }
  }

  lemma EntryInRange(i: nat, j: nat, n: nat, width: nat)
    requires i < n && j < width
    ensures i * width + j < n * width
    ensures i > 0 ==> i * width + j == width + ((i - 1) * width + j)
  {
    Monotone(i + 1, n, width);
    assert (i + 1) * width == i * width + width;
    assert (i - 1) * width == i * width - width;
  }

  /** The list is made of one stretch per item, in order: entry i * (factor + 1) + j is the clone number j
      of item i, or for j == factor the item itself. */
  lemma {:induction false} MultipliedEntries<T>(
    items: seq<T>, clone: (T, nat) -> T, factor: nat, i: nat, j: nat)
    requires i < |items| && j <= factor
    ensures |Multiplied(items, clone, factor)| == |items| * (factor + 1)
    ensures i * (factor + 1) + j < |items| * (factor + 1)
    ensures Multiplied(items, clone, factor)[i * (factor + 1) + j] ==
            if j == factor then items[i] else clone(items[i], j)
    decreases i
  {
    MultipliedLength(items, clone, factor);
    EntryInRange(i, j, |items|, factor + 1);
    if i > 0 {
      MultipliedEntries(items[1..], clone, factor, i - 1, j);
      var first, rest := WithClones(items[0], clone, factor), Multiplied(items[1..], clone, factor);
    }
  }

  function Clamp(n: int, hi: nat): nat {
    if n < 0 then 0 else if n > hi then hi else n
  }

  /** Array.prototype.slice: a negative bound counts from the end. */
  function Slice<T>(s: seq<T>, from: int, to: int): seq<T> {
    var a := Clamp(if from < 0 then |s| + from else from, |s|);
    var b := Clamp(if to < 0 then |s| + to else to, |s|);
    if a <= b then s[a..b] else []
  }

  /** page < n / limit, without rounding. */
  predicate HasNext(page: int, n: nat, limit: int)
    requires limit != 0
  {
    if limit > 0 then page * limit < n else page * limit > n
  }

  /** Index k of n elements is inside the bounds; a negative bound counts from the end. */
  predicate Within(k: int, n: nat, from: int, to: int) {
    (if from >= 0 then from <= k else from <= k - n) && (if to >= 0 then k < to else k - n < to)
  }

  ghost predicate StretchAt<T>(r: seq<T>, s: seq<T>, lo: int, from: int, to: int) {
    && 0 <= lo <= lo + |r| <= |s| && r == s[lo..lo + |r|]
    && forall k :: 0 <= k < |s| ==> (lo <= k < lo + |r| <==> Within(k, |s|, from, to))
  }

  ghost predicate Stretch<T>(r: seq<T>, s: seq<T>, from: int, to: int) {
    exists lo :: StretchAt(r, s, lo, from, to)
  }

  /** A slice is the one stretch of the list whose indices are inside the bounds. */
  lemma SliceExactly<T>(s: seq<T>, from: int, to: int)
    ensures Stretch(Slice(s, from, to), s, from, to)
  {
    var a := Clamp(if from < 0 then |s| + from else from, |s|);
    assert StretchAt(Slice(s, from, to), s, a, from, to);
  }

  datatype Response<T> = Response(items: seq<T>, next: Option<string>)

  /** One request. A limit of 0 stands for none or one that does not parse. */
  function Fetch<T>(all: seq<T>, limit: int, token: Option<string>): Response<T> {
    if limit == 0 then Response(all, None)
    else
      var page := PageOf(token);
      if page.None? then Response([], None)   // NaN: an empty slice, and no comparison holds
      else
        Response(Slice(all, page.value * limit, (page.value + 1) * limit),
                 if HasNext(page.value, |all|, limit) then Some(TokenFor(page.value + 1)) else None)
  }

  /** Every request, the odd ones included. Without a limit the whole list is sent and no token; with a token
      that cannot be read nothing is. Else page p is the stretch from p * limit to before (p + 1) * limit,
      which may count from the end, and a token for page p + 1 is sent exactly if p is less than the list's
      length divided by the limit. */
  lemma FetchExactly<T>(all: seq<T>, limit: int, token: Option<string>, p: int)
    ensures var r := Fetch(all, limit, token);
      if limit == 0 then r == Response(all, None)
      else if PageOf(token) == None then r == Response([], None)
      else PageOf(token) == Some(p) ==>
        && Stretch(r.items, all, p * limit, (p + 1) * limit)
        && (r.next.Some? <==> (p as real) < (|all| as real) / (limit as real))
        && (r.next.Some? ==> PageOf(r.next) == Some(p + 1))
  {
    if limit != 0 && PageOf(token) == Some(p) {
      SliceExactly(all, p * limit, (p + 1) * limit);
      HasNextExactly(p, |all|, limit);
      TokenRoundTrip(p + 1);
    }
  }

  /** The comparison with the exact quotient, which the source computes in floating point. */
  lemma HasNextExactly(p: int, n: nat, limit: int)
    requires limit != 0
    ensures HasNext(p, n, limit) <==> (p as real) < (n as real) / (limit as real)
  {
    var q, m, l := p as real, n as real, limit as real;
    assert (p * limit) as real == q * l;
    assert m / l * l == m;
    if limit > 0 {
      Scaled(q, m / l, l);
    } else {
      Scaled(q, m / l, -l);
      assert q * -l == -(q * l) && m / l * -l == -(m / l * l);
    }
  }

  lemma Scaled(a: real, b: real, k: real)
    requires k > 0.0
    ensures a < b <==> a * k < b * k
  {
    if a < b {
      assert (b - a) * k > 0.0;
    } else {
      assert (a - b) * k >= 0.0;
    }
  }

  /** The responses of a client that starts without a token and follows every token it is given. */
  ghost predicate Follows<T>(all: seq<T>, limit: nat, rs: seq<Response<T>>, i: nat)
    requires 0 < i < |rs|
  {
    rs[i - 1].next.Some? && rs[i] == Fetch(all, limit, rs[i - 1].next)
  }

  ghost predicate Crawl<T>(all: seq<T>, limit: nat, rs: seq<Response<T>>) {
    && rs != []
    && rs[0] == Fetch(all, limit, None)
    && (forall i :: 0 < i < |rs| ==> Follows(all, limit, rs, i))
    && rs[|rs| - 1].next == None
  }

  function Items<T>(rs: seq<Response<T>>): seq<T> {
    if rs == [] then [] else Items(rs[..|rs| - 1]) + rs[|rs| - 1].items
  }

  /** ceil(n / limit) */
  function PageCount(n: nat, limit: nat): nat
    requires limit >= 1
  {
    (n + limit - 1) / limit
  }

  function PageAt<T>(all: seq<T>, limit: nat, p: nat): Response<T> {
    Response(Slice(all, p * limit, (p + 1) * limit), if p * limit < |all| then Some(TokenFor(p + 1)) else None)
  }

  lemma {:induction false} CrawlPages<T>(all: seq<T>, limit: nat, rs: seq<Response<T>>, i: nat)
    requires limit >= 1 && Crawl(all, limit, rs) && i < |rs|
    ensures rs[i] == PageAt(all, limit, i)
    decreases i
  {
    if i > 0 {
      assert Follows(all, limit, rs, i);
      CrawlPages(all, limit, rs, i - 1);
      TokenRoundTrip(i);
    }
  }

  /** The items of the first n pages. */
  function FirstPages<T>(all: seq<T>, limit: nat, n: nat): seq<T> {
    all[..Clamp(n * limit, |all|)]
  }

  lemma {:induction false} ItemsOfPages<T>(all: seq<T>, limit: nat, rs: seq<Response<T>>)
    requires forall i :: 0 <= i < |rs| ==> rs[i] == PageAt(all, limit, i)
    ensures Items(rs) == FirstPages(all, limit, |rs|)
    decreases |rs|
  {
    if rs != [] {
      ItemsOfPages(all, limit, rs[..|rs| - 1]);
      OneMorePage(all, limit, |rs| - 1);
    }
  }

  lemma OneMorePage<T>(all: seq<T>, limit: nat, n: nat)
    ensures FirstPages(all, limit, n) + PageAt(all, limit, n).items == FirstPages(all, limit, n + 1)
  {
    assert (n + 1) * limit == n * limit + limit;
    NextSlice(all, n * limit, (n + 1) * limit);
  }

  lemma NextSlice<T>(all: seq<T>, a: nat, b: nat)
    requires a <= b
    ensures all[..Clamp(a, |all|)] + Slice(all, a, b) == all[..Clamp(b, |all|)]
  {
  }

  /** Behind the end nothing is left. */
  lemma LastPage<T>(all: seq<T>, limit: nat, n: nat)
    requires n * limit >= |all|
    ensures PageAt(all, limit, n).items == [] && FirstPages(all, limit, n + 1) == all
  {
    assert (n + 1) * limit == n * limit + limit;
  }

  lemma PageCountIs(n: nat, limit: nat, p: nat)
    requires limit >= 1
    ensures p * limit >= n <==> p >= PageCount(n, limit)
  {
    var c := PageCount(n, limit);
    assert c * limit <= n + limit - 1 < c * limit + limit;
    if p >= c {
      Monotone(c, p, limit);
    } else {
      Monotone(p, c - 1, limit);
      assert (c - 1) * limit == c * limit - limit;
    }
  }

  lemma Monotone(a: int, b: int, k: nat)
    requires a <= b
    ensures a * k <= b * k
  {
    assert (b - a) * k >= 0;
  }

  /** With any limit of at least 1, following the tokens returns every item once and in order, and
      stops after exactly ceil(N / limit) + 1 requests, the last of which is empty. */
  lemma {:induction false} CrawlIsComplete<T>(all: seq<T>, limit: nat, rs: seq<Response<T>>)
    requires limit >= 1 && Crawl(all, limit, rs)
    ensures Items(rs) == all
    ensures |rs| == PageCount(|all|, limit) + 1
    ensures rs[|rs| - 1].items == []
  {
    forall i | 0 <= i < |rs| ensures rs[i] == PageAt(all, limit, i) {
      CrawlPages(all, limit, rs, i);
    }
    ItemsOfPages(all, limit, rs);
    var last := |rs| - 1;
    PageCountIs(|all|, limit, last);
    LastPage(all, limit, last);
    if last > 0 {
      PageCountIs(|all|, limit, last - 1);
      assert Follows(all, limit, rs, last);
    }
  }

  /** Such a crawl exists: the responses are the pages 0 to ceil(N / limit). */
  lemma CrawlExists<T>(all: seq<T>, limit: nat)
    requires limit >= 1
    ensures exists rs :: Crawl(all, limit, rs)
  {
    var n := PageCount(|all|, limit) + 1;
    var rs := seq(n, i requires 0 <= i < n => PageAt(all, limit, i));
    PageCountIs(|all|, limit, n - 1);
    forall i | 0 < i < n ensures Follows(all, limit, rs, i) {
      PageCountIs(|all|, limit, i - 1);
      TokenRoundTrip(i);
    }
    assert Crawl(all, limit, rs);
  }
}
