/** Stable insertion sort under a given order, and what cutting a sorted list loses. */
module Sorting {

  type Order<!T> = (T, T) -> bool

  /** Behind everything that may stand before it, so that equal elements keep their order. */
  function Insert<T>(s: seq<T>, x: T, leq: Order<T>): (r: seq<T>)
    ensures |r| == |s| + 1
  {
    if s != [] && leq(s[0], x) then [s[0]] + Insert(s[1..], x, leq) else [x] + s
  }

  function Sort<T>(s: seq<T>, leq: Order<T>): (r: seq<T>)
    ensures |r| == |s|
  {
    if s == [] then [] else Insert(Sort(s[..|s| - 1], leq), s[|s| - 1], leq)
  }

  ghost predicate Ordered<T>(s: seq<T>, leq: Order<T>) {
    forall i, j :: 0 <= i < j < |s| ==> leq(s[i], s[j])
  }

  /** `leq` is total and transitive on the elements of s. */
  ghost predicate WeakOrderOn<T>(s: seq<T>, leq: Order<T>) {
    && (forall x, y :: x in s && y in s ==> leq(x, y) || leq(y, x))
    && (forall x, y, z :: x in s && y in s && z in s && leq(x, y) && leq(y, z) ==> leq(x, z))
  }

  lemma WeakOrderPart<T>(s: seq<T>, t: seq<T>, leq: Order<T>)
    requires WeakOrderOn(s, leq) && forall x :: x in t ==> x in s
    ensures WeakOrderOn(t, leq)
  {
  }

  lemma SameMembers<T>(s: seq<T>, t: seq<T>)
    requires multiset(s) == multiset(t)
    ensures |s| == |t| && forall x :: x in s <==> x in t
  {
    assert |multiset(s)| == |s| && |multiset(t)| == |t|;
    forall x ensures x in s <==> x in t {
      assert x in s <==> x in multiset(s);
    }
  }

  lemma WeakOrderMoves<T>(sorted: seq<T>, init: seq<T>, more: seq<T>, all: seq<T>, leq: Order<T>)
    requires multiset(sorted) == multiset(init) && WeakOrderOn(all, leq)
    requires forall y :: y in init + more ==> y in all
    ensures WeakOrderOn(sorted + more, leq)
  {
    SameMembers(sorted, init);
    forall y | y in sorted + more ensures y in all {
      assert y in init + more;
    }
    WeakOrderPart(all, sorted + more, leq);
  }

  /** What comes before all of `tail` and x comes before all of their rearrangement r. */
  lemma BeforeAll<T>(first: T, r: seq<T>, tail: seq<T>, x: T, leq: Order<T>)
    requires multiset(r) == multiset(tail) + multiset{x}
    requires leq(first, x) && forall i :: 0 <= i < |tail| ==> leq(first, tail[i])
    ensures forall y :: y in r ==> leq(first, y)
  {
    SameMembers(r, tail + [x]);
    forall y | y in r ensures leq(first, y) {
      assert y in tail + [x];
    }
  }

  /** Taking one element out of the middle. */
  lemma WithoutOne<T>(tail: seq<T>, l: seq<T>, r: seq<T>, g: T)
    requires multiset([g] + tail) == multiset(l + [g] + r)
    ensures multiset(tail) == multiset(l + r)
  {
    assert multiset([g] + tail) == multiset{g} + multiset(tail);
    assert multiset(l + [g] + r) == multiset{g} + multiset(l + r);
    assert multiset(tail) == multiset([g] + tail) - multiset{g};
  }

  lemma {:induction false} InsertMembers<T>(s: seq<T>, x: T, leq: Order<T>)
    ensures multiset(Insert(s, x, leq)) == multiset(s) + multiset{x}
    decreases |s|
  {
    if s != [] && leq(s[0], x) {
      InsertMembers(s[1..], x, leq);
      assert s == [s[0]] + s[1..];
    }
  }

  lemma {:induction false} InsertOrdered<T>(s: seq<T>, x: T, leq: Order<T>)
    requires Ordered(s, leq) && WeakOrderOn(s + [x], leq)
    ensures Ordered(Insert(s, x, leq), leq)
    decreases |s|
  {
    assert x in s + [x] && forall y :: y in s ==> y in s + [x];
    if s == [] {
    } else if leq(s[0], x) {
      WeakOrderPart(s + [x], s[1..] + [x], leq);
      var tail := s[1..];
      assert forall y :: y in tail ==> y in s;
      assert forall i :: 0 <= i < |tail| ==> tail[i] == s[i + 1];
      InsertOrdered(tail, x, leq);
      InsertMembers(tail, x, leq);
      var r := Insert(tail, x, leq);
      BeforeAll(s[0], r, tail, x, leq);
    } else {
      assert s[0] in s;
      forall y | y in s ensures leq(x, y) {
        var i :| 0 <= i < |s| && s[i] == y;
        assert i > 0 ==> leq(s[0], s[i]);
      }
    }
  }

  /** Elements that stand level with k, in order. */
  function Ties<T>(s: seq<T>, k: T, leq: Order<T>): seq<T> {
    if s == [] then [] else (if leq(s[0], k) && leq(k, s[0]) then [s[0]] else []) + Ties(s[1..], k, leq)
  }

  lemma {:induction false} TiesConcat<T>(a: seq<T>, b: seq<T>, k: T, leq: Order<T>)
    ensures Ties(a + b, k, leq) == Ties(a, k, leq) + Ties(b, k, leq)
    decreases |a|
  {
    if a == [] {
      assert a + b == b;
    } else {
      assert (a + b)[1..] == a[1..] + b;
      TiesConcat(a[1..], b, k, leq);
    }
  }

  lemma {:induction false} NoTies<T>(s: seq<T>, k: T, leq: Order<T>)
    requires forall x :: x in s ==> !(leq(x, k) && leq(k, x))
    ensures Ties(s, k, leq) == []
    decreases |s|
  {
    if s != [] {
      assert forall x :: x in s[1..] ==> x in s;
      NoTies(s[1..], k, leq);
    }
  }

  lemma TiesCons<T>(x: T, s: seq<T>, k: T, leq: Order<T>)
    ensures Ties([x] + s, k, leq) == (if leq(x, k) && leq(k, x) then [x] else []) + Ties(s, k, leq)
  {
    assert ([x] + s)[1..] == s;
  }

  lemma {:induction false} InsertKeepsTies<T>(s: seq<T>, x: T, k: T, leq: Order<T>)
    requires Ordered(s, leq) && WeakOrderOn(s + [x, k], leq)
    ensures Ties(Insert(s, x, leq), k, leq) == Ties(s + [x], k, leq)
    decreases |s|
  {
    if s != [] && leq(s[0], x) {
      var tail := s[1..];
      assert forall y :: y in tail + [x, k] ==> y in s + [x, k];
      WeakOrderPart(s + [x, k], tail + [x, k], leq);
      TailIsOrdered(s, leq);
      InsertKeepsTies(tail, x, k, leq);
      TiesCons(s[0], Insert(tail, x, leq), k, leq);
      TiesCons(s[0], tail + [x], k, leq);
      assert s + [x] == [s[0]] + (tail + [x]);
    } else {
      TiesCons(x, s, k, leq);
      TiesConcat(s, [x], k, leq);
      if s != [] && leq(x, k) && leq(k, x) {
        AllBehind(s, x, k, leq);
        NoTies(s, k, leq);
      }
    }
  }

  lemma AllBehind<T>(s: seq<T>, x: T, k: T, leq: Order<T>)
    requires Ordered(s, leq) && WeakOrderOn(s + [x, k], leq) && s != []
    requires !leq(s[0], x) && leq(x, k) && leq(k, x)
    ensures forall y :: y in s ==> !(leq(y, k) && leq(k, y))
  {
    var all := s + [x, k];
    assert x in all && k in all && forall y :: y in s ==> y in all;
    forall y | y in s ensures !(leq(y, k) && leq(k, y)) {
      var i :| 0 <= i < |s| && s[i] == y;
      assert i > 0 ==> leq(s[0], s[i]);
      assert leq(y, k) ==> leq(y, x);
    }
  }

  /** Sorting yields the same elements, in order. */
  lemma {:induction false} SortSorts<T>(s: seq<T>, leq: Order<T>)
    requires WeakOrderOn(s, leq)
    ensures Ordered(Sort(s, leq), leq) && multiset(Sort(s, leq)) == multiset(s)
    decreases |s|
  {
    if s != [] {
      var init, x := s[..|s| - 1], s[|s| - 1];
      assert s == init + [x];
      WeakOrderPart(s, init, leq);
      SortSorts(init, leq);
      WeakOrderMoves(Sort(init, leq), init, [x], s, leq);
      InsertOrdered(Sort(init, leq), x, leq);
      InsertMembers(Sort(init, leq), x, leq);
    }
  }

  /** The sort is stable: elements level with any k keep their original order. */
  lemma {:induction false} SortKeepsTies<T>(s: seq<T>, k: T, leq: Order<T>)
    requires WeakOrderOn(s + [k], leq)
    ensures Ties(Sort(s, leq), k, leq) == Ties(s, k, leq)
    decreases |s|
  {
    if s != [] {
      var init, x := s[..|s| - 1], s[|s| - 1];
      assert s == init + [x];
      WeakOrderPart(s + [k], init + [k], leq);
      WeakOrderPart(s + [k], init, leq);
      SortKeepsTies(init, k, leq);
      SortSorts(init, leq);
      var sorted := Sort(init, leq);
      WeakOrderMoves(sorted, init, [x, k], s + [k], leq);
      InsertKeepsTies(sorted, x, k, leq);
      TiesConcat(sorted, [x], k, leq);
      TiesConcat(init, [x], k, leq);
    }
  }

  lemma {:induction false} SortMembers<T>(s: seq<T>, leq: Order<T>)
    ensures multiset(Sort(s, leq)) == multiset(s)
    decreases |s|
  {
    if s != [] {
      var init, x := s[..|s| - 1], s[|s| - 1];
      assert s == init + [x];
      SortMembers(init, leq);
      InsertMembers(Sort(init, leq), x, leq);
    }
  }

  lemma {:induction false} InsertAgrees<T>(s: seq<T>, x: T, p: Order<T>, q: Order<T>)
    requires forall y :: y in s ==> p(y, x) == q(y, x)
    ensures Insert(s, x, p) == Insert(s, x, q)
    decreases |s|
  {
    if s != [] {
      assert s[0] in s && forall y :: y in s[1..] ==> y in s;
      InsertAgrees(s[1..], x, p, q);
    }
  }

  /** Sorting never compares an element with itself: two orders that agree on every earlier and later
      element sort alike. */
  lemma {:induction false} SortAgrees<T>(s: seq<T>, p: Order<T>, q: Order<T>)
    requires forall i, j :: 0 <= i < j < |s| ==> p(s[i], s[j]) == q(s[i], s[j])
    ensures Sort(s, p) == Sort(s, q)
    decreases |s|
  {
    if s != [] {
      var init, x := s[..|s| - 1], s[|s| - 1];
      SortAgrees(init, p, q);
      SortMembers(init, p);
      forall i | 0 <= i < |init| ensures p(init[i], x) == q(init[i], x) {
        assert p(s[i], s[|init|]) == q(s[i], s[|init|]);
      }
      InsertAgreesAfter(init, Sort(init, p), x, p, q);
    }
  }

  lemma InsertAgreesAfter<T>(init: seq<T>, sorted: seq<T>, x: T, p: Order<T>, q: Order<T>)
    requires multiset(sorted) == multiset(init)
    requires forall i :: 0 <= i < |init| ==> p(init[i], x) == q(init[i], x)
    ensures Insert(sorted, x, p) == Insert(sorted, x, q)
  {
    SameMembers(sorted, init);
    InsertAgrees(sorted, x, p, q);
  }

  /** Suppose a list starts with the elements of `late`, ties in order, but the input with those of `early`.
      Then nothing of `late` is level with anything of `early`. */
  lemma FrontHasNoTies<T>(early: seq<T>, late: seq<T>, front: seq<T>, back: seq<T>, d: T, x: T, leq: Order<T>)
    requires Ties(front + back, d, leq) == Ties(early + late, d, leq) && Ties(front, d, leq) == Ties(late, d, leq)
    requires d in early && leq(d, d) && x in late && leq(x, d)
    requires forall e :: e in early ==> e !in late
    ensures !leq(d, x)
  {
    TiesConcat(early, late, d, leq);
    TiesConcat(front, back, d, leq);
    FirstTie(early, d, d, leq);
    if leq(d, x) {
      FirstTie(late, x, d, leq);
      SameFirst(Ties(early, d, leq), Ties(late, d, leq), Ties(back, d, leq));
    }
  }

  lemma {:induction false} FirstTie<T>(s: seq<T>, x: T, k: T, leq: Order<T>)
    requires x in s && leq(x, k) && leq(k, x)
    ensures Ties(s, k, leq) != [] && Ties(s, k, leq)[0] in s
    decreases |s|
  {
    if !(leq(s[0], k) && leq(k, s[0])) {
      assert s == [s[0]] + s[1..];
      FirstTie(s[1..], x, k, leq);
    }
  }

  lemma SameFirst<T>(a: seq<T>, b: seq<T>, c: seq<T>)
    requires a + b == b + c && a != [] && b != []
    ensures a[0] == b[0]
  {
    assert (a + b)[0] == (b + c)[0];
  }

  // ---- cutting ----

  function Take<T>(s: seq<T>, n: nat): seq<T> {
    if |s| <= n then s else s[..n]
  }

  function InsertAll<T>(s: seq<T>, more: seq<T>, leq: Order<T>): seq<T> {
    if more == [] then s else Insert(InsertAll(s, more[..|more| - 1], leq), more[|more| - 1], leq)
  }

  lemma {:induction false} SortConcat<T>(a: seq<T>, b: seq<T>, leq: Order<T>)
    ensures Sort(a + b, leq) == InsertAll(Sort(a, leq), b, leq)
    decreases |b|
  {
    if b == [] {
      assert a + b == a;
    } else {
      assert (a + b)[..|a + b| - 1] == a + b[..|b| - 1];
      SortConcat(a, b[..|b| - 1], leq);
    }
  }

  lemma {:induction false} InsertAtEnd<T>(s: seq<T>, x: T, leq: Order<T>)
    requires forall i :: 0 <= i < |s| ==> leq(s[i], x)
    ensures Insert(s, x, leq) == s + [x]
    decreases |s|
  {
    if s != [] {
      InsertAtEnd(s[1..], x, leq);
      assert s == [s[0]] + s[1..];
    }
  }

  lemma {:induction false} SortedIsFixed<T>(s: seq<T>, leq: Order<T>)
    requires Ordered(s, leq)
    ensures Sort(s, leq) == s
    decreases |s|
  {
    if s != [] {
      var init, x := s[..|s| - 1], s[|s| - 1];
      SortedIsFixed(init, leq);
      InsertAtEnd(init, x, leq);
      assert s == init + [x];
    }
  }

  lemma TakeCons<T>(x: T, s: seq<T>, n: nat)
    requires n > 0
    ensures Take([x] + s, n) == [x] + Take(s, n - 1)
  {
  }

  /** Whatever is cut off before an insertion would be cut off after it. */
  lemma {:induction false} TakeInsert<T>(s: seq<T>, x: T, n: nat, leq: Order<T>)
    ensures Take(Insert(Take(s, n), x, leq), n) == Take(Insert(s, x, leq), n)
    decreases |s|
  {
    if |s| > n && n > 0 {
      var t := Take(s, n);
      if leq(s[0], x) {
        TakeInsert(s[1..], x, n - 1, leq);
        assert t[1..] == Take(s[1..], n - 1);
      } else {
        assert Take(t, n - 1) == Take(s, n - 1);
      }
    }
  }

  lemma {:induction false} TakeInsertAll<T>(s: seq<T>, more: seq<T>, n: nat, leq: Order<T>)
    ensures Take(InsertAll(Take(s, n), more, leq), n) == Take(InsertAll(s, more, leq), n)
    decreases |more|
  {
    if more != [] {
      var init, x := more[..|more| - 1], more[|more| - 1];
      TakeInsertAll(s, init, n, leq);
      TakeInsert(InsertAll(Take(s, n), init, leq), x, n, leq);
      TakeInsert(InsertAll(s, init, leq), x, n, leq);
    }
  }

  /** Truncating before more elements arrive loses nothing compared with truncating at the end. */
  lemma TruncateEarly<T>(a: seq<T>, b: seq<T>, n: nat, leq: Order<T>)
    requires WeakOrderOn(a, leq)
    ensures Take(Sort(Take(Sort(a, leq), n) + b, leq), n) == Take(Sort(a + b, leq), n)
  {
    var kept := Take(Sort(a, leq), n);
    SortSorts(a, leq);
    SortedIsFixed(kept, leq);
    SortConcat(kept, b, leq);
    SortConcat(a, b, leq);
    TakeInsertAll(Sort(a, leq), b, n, leq);
  }

  // ---- strict orders ----

  /** No two elements stand level. */
  ghost predicate Strict<T>(s: seq<T>, leq: Order<T>) {
    forall x, y :: x in s && y in s && leq(x, y) && leq(y, x) ==> x == y
  }

  /** Under a strict order, a list has only one sorted rearrangement. */
  lemma {:induction false} SortedIsUnique<T>(s: seq<T>, t: seq<T>, leq: Order<T>)
    requires multiset(s) == multiset(t) && Ordered(s, leq) && Ordered(t, leq) && Strict(s, leq)
    ensures s == t
    decreases |s|
  {
    SameMembers(s, t);
    if s != [] {
      SameHead(s, t, leq);
      assert s == [s[0]] + s[1..] && t == [t[0]] + t[1..];
      assert multiset(s[1..]) == multiset(s) - multiset{s[0]} == multiset(t[1..]);
      TailIsOrdered(s, leq);
      TailIsOrdered(t, leq);
      assert forall x :: x in s[1..] ==> x in s;
      SortedIsUnique(s[1..], t[1..], leq);
    }
  }

  lemma TailIsOrdered<T>(s: seq<T>, leq: Order<T>)
    requires Ordered(s, leq) && s != []
    ensures Ordered(s[1..], leq)
  {
  }

  lemma SameHead<T>(s: seq<T>, t: seq<T>, leq: Order<T>)
    requires multiset(s) == multiset(t) && Ordered(s, leq) && Ordered(t, leq) && Strict(s, leq) && s != [] && t != []
    ensures s[0] == t[0]
  {
    SameMembers(s, t);
    assert s[0] in s && t[0] in t;
    var i :| 0 <= i < |t| && t[i] == s[0];
    var j :| 0 <= j < |s| && s[j] == t[0];
    if i > 0 && j > 0 {
      assert leq(t[0], t[i]) && leq(s[0], s[j]);
    }
  }

  /** Elements of `ahead` that all stand before d fill the first |ahead| places. */
  lemma FrontIsAhead<T>(s: seq<T>, ahead: seq<T>, d: T, i: nat, leq: Order<T>)
    requires Ordered(s, leq) && multiset(ahead) <= multiset(s) && i < |ahead| && i < |s|
    requires WeakOrderOn(s + [d], leq)
    requires forall x :: x in ahead ==> leq(x, d)
    ensures leq(s[i], d)
  {
    if !leq(s[i], d) {
      FitsInFront(s, ahead, i);
    }
  }

  lemma FitsInFront<T>(s: seq<T>, ahead: seq<T>, i: nat)
    requires multiset(ahead) <= multiset(s) && i <= |s| && forall x :: x in ahead ==> x !in s[i..]
    ensures |ahead| <= i
  {
    assert s == s[..i] + s[i..];
    forall x ensures multiset(ahead)[x] <= multiset(s[..i])[x] {
      if x in ahead {
        assert x !in multiset(s[i..]);
        assert multiset(s)[x] == multiset(s[..i])[x] + multiset(s[i..])[x];
      } else {
        assert x !in multiset(ahead);
      }
    }
    assert multiset(ahead) <= multiset(s[..i]);
    SubMultisetIsSmaller(multiset(ahead), multiset(s[..i]));
    assert |multiset(ahead)| == |ahead| && |multiset(s[..i])| == i;
  }

  lemma SubMultisetIsSmaller<T>(a: multiset<T>, b: multiset<T>)
    requires a <= b
    ensures |a| <= |b|
  {
    assert b == a + (b - a);
  }

  /** An element behind the first n does not change them. */
  lemma {:induction false} InsertBehind<T>(s: seq<T>, d: T, n: nat, leq: Order<T>)
    requires n <= |s| && forall i :: 0 <= i < n ==> leq(s[i], d)
    ensures Take(Insert(s, d, leq), n) == Take(s, n)
    decreases n
  {
    if n > 0 {
      assert leq(s[0], d);
      InsertBehind(s[1..], d, n - 1, leq);
      assert s == [s[0]] + s[1..];
      TakeCons(s[0], Insert(s[1..], d, leq), n);
      TakeCons(s[0], s[1..], n);
    }
  }

  /** x stands before d, and d does not stand before x. */
  ghost predicate Strictly<T>(x: T, d: T, leq: Order<T>) {
    leq(x, d) && !leq(d, x)
  }

  /** Insertions of elements that are not level commute. */
  lemma {:induction false} InsertsCommute<T>(s: seq<T>, d: T, x: T, leq: Order<T>)
    requires Strictly(x, d, leq) && forall y :: y in s && leq(y, x) ==> leq(y, d)
    ensures Insert(Insert(s, d, leq), x, leq) == Insert(Insert(s, x, leq), d, leq)
    decreases |s|
  {
    if s == [] {
      assert Insert([d], x, leq) == [x] + [d];
      assert Insert([x], d, leq) == [x] + Insert([], d, leq);
    } else if leq(s[0], x) {
      assert s[0] in s && forall y :: y in s[1..] ==> y in s;
      InsertsCommute(s[1..], d, x, leq);
      assert Insert(s, d, leq)[1..] == Insert(s[1..], d, leq) && Insert(s, x, leq)[1..] == Insert(s[1..], x, leq);
    } else {
      assert Insert(s, x, leq)[1..] == s;
    }
  }

  lemma {:induction false} InsertAllMembers<T>(s: seq<T>, more: seq<T>, leq: Order<T>)
    ensures multiset(InsertAll(s, more, leq)) == multiset(s) + multiset(more)
    decreases |more|
  {
    if more != [] {
      var init, x := more[..|more| - 1], more[|more| - 1];
      assert more == init + [x];
      InsertAllMembers(s, init, leq);
      InsertMembers(InsertAll(s, init, leq), x, leq);
    }
  }

  /** Whatever of `all` stands before an element of `ahead` stands before d. */
  ghost predicate Leads<T>(all: multiset<T>, ahead: seq<T>, d: T, leq: Order<T>) {
    forall y, x :: y in all && x in ahead && leq(y, x) ==> leq(y, d)
  }

  lemma {:induction false} InsertAllCommutes<T>(s: seq<T>, d: T, ahead: seq<T>, leq: Order<T>)
    requires Leads(multiset(s) + multiset(ahead), ahead, d, leq)
    requires forall x :: x in ahead ==> Strictly(x, d, leq)
    ensures InsertAll(Insert(s, d, leq), ahead, leq) == Insert(InsertAll(s, ahead, leq), d, leq)
    decreases |ahead|
  {
    if ahead != [] {
      var init, x := ahead[..|ahead| - 1], ahead[|ahead| - 1];
      assert ahead == init + [x] && x in ahead && forall y :: y in init ==> y in ahead;
      assert multiset(ahead) == multiset(init) + multiset{x};
      InsertAllCommutes(s, d, init, leq);
      InsertAllMembers(s, init, leq);
      InsertsCommuteIn(InsertAll(s, init, leq), multiset(s) + multiset(ahead), ahead, d, x, leq);
    }
  }

  lemma InsertsCommuteIn<T>(t: seq<T>, all: multiset<T>, ahead: seq<T>, d: T, x: T, leq: Order<T>)
    requires multiset(t) <= all && Leads(all, ahead, d, leq) && x in ahead && Strictly(x, d, leq)
    ensures Insert(Insert(t, d, leq), x, leq) == Insert(Insert(t, x, leq), d, leq)
  {
    forall y | y in t ensures y in all {
      assert y in multiset(t);
    }
    InsertsCommute(t, d, x, leq);
  }

  /** Where an element stands in the input does not matter when all later ones stand strictly before it. */
  lemma SortPutsBehind<T>(a: seq<T>, d: T, ahead: seq<T>, leq: Order<T>)
    requires WeakOrderOn(a + [d] + ahead, leq) && forall x :: x in ahead ==> Strictly(x, d, leq)
    ensures Sort(a + [d] + ahead, leq) == Insert(Sort(a + ahead, leq), d, leq)
  {
    var s := Sort(a, leq);
    SortConcat(a + [d], ahead, leq);
    SortConcat(a, ahead, leq);
    assert (a + [d])[..|a|] == a;
    SortMembers(a, leq);
    InsertAllCommutes(s, d, ahead, leq);
  }

  /** Leaving out one element that n later ones stand strictly before does not change the first n. */
  lemma DropOne<T>(a: seq<T>, d: T, ahead: seq<T>, n: nat, leq: Order<T>)
    requires |ahead| >= n && forall x :: x in ahead ==> Strictly(x, d, leq)
    requires WeakOrderOn(a + [d] + ahead, leq)
    ensures Take(Sort(a + [d] + ahead, leq), n) == Take(Sort(a + ahead, leq), n)
  {
    var rest := a + ahead;
    var s := Sort(rest, leq);
    SortPutsBehind(a, d, ahead, leq);
    forall x | x in rest + [d] ensures x in a + [d] + ahead {}
    WeakOrderPart(a + [d] + ahead, rest, leq);
    SortSorts(rest, leq);
    WeakOrderMoves(s, rest, [d], a + [d] + ahead, leq);
    assert multiset(s) == multiset(a) + multiset(ahead);
    forall i | 0 <= i < n ensures leq(s[i], d) {
      FrontIsAhead(s, ahead, d, i, leq);
    }
    InsertBehind(s, d, n, leq);
  }

  /** Nor does leaving out any number of them. */
  lemma {:induction false} DropMany<T>(a: seq<T>, dropped: seq<T>, ahead: seq<T>, n: nat, leq: Order<T>)
    requires dropped == [] || |ahead| >= n
    requires forall x, d :: x in ahead && d in dropped ==> Strictly(x, d, leq)
    requires WeakOrderOn(a + dropped + ahead, leq)
    ensures Take(Sort(a + dropped + ahead, leq), n) == Take(Sort(a + ahead, leq), n)
    decreases |dropped|
  {
    if dropped == [] {
      assert a + dropped == a;
    } else {
      var m := |dropped| - 1;
      var init, d := dropped[..m], dropped[m];
      assert dropped == init + [d];
      assert a + dropped + ahead == a + init + [d] + ahead;
      assert d in dropped && forall x :: x in init ==> x in dropped;
      DropOne(a + init, d, ahead, n, leq);
      forall x | x in a + init + ahead ensures x in a + dropped + ahead {}
      WeakOrderPart(a + dropped + ahead, a + init + ahead, leq);
      DropMany(a, init, ahead, n, leq);
    }
  }
}
