/** What it means to filter a list: every element that passes stays, as often as before and in its place. */
module Picking {
  ghost predicate Listed(at: seq<int>, i: int) {
    i in at
  }

  /** The places of s whose elements pass, all of them, in increasing order. */
  ghost predicate Places<T>(at: seq<int>, s: seq<T>, passes: T -> bool) {
    && (forall i, j :: 0 <= i < j < |at| ==> at[i] < at[j])
    && (forall j :: 0 <= j < |at| ==> 0 <= at[j] < |s| && passes(s[at[j]]))
    && (forall i {:trigger Listed(at, i)} :: 0 <= i < |s| && passes(s[i]) ==> Listed(at, i))
  }

  ghost predicate Reads<T>(r: seq<T>, s: seq<T>, at: seq<int>) {
    |r| == |at| && forall j :: 0 <= j < |at| ==> 0 <= at[j] < |s| && r[j] == s[at[j]]
  }

  /** r is made of exactly the elements of s that pass, with their multiplicity and in their order. */
  ghost predicate Picked<T>(r: seq<T>, s: seq<T>, passes: T -> bool) {
    exists at: seq<int> :: Places(at, s, passes) && Reads(r, s, at)
  }

  lemma PickedNothing<T>(passes: T -> bool)
    ensures Picked([], [], passes)
  {
    var none: seq<T> := [];
    assert Places([], none, passes) && Reads(none, none, []);
  }

  lemma PickedSnoc<T>(r: seq<T>, s: seq<T>, x: T, passes: T -> bool)
    requires Picked(r, s, passes)
    ensures Picked(if passes(x) then r + [x] else r, s + [x], passes)
  {
    var at: seq<int> :| Places(at, s, passes) && Reads(r, s, at);
    var all := s + [x];
    assert all[|s|] == x && forall i :: 0 <= i < |s| ==> all[i] == s[i];
    if passes(x) {
      PlacesGrow(at, s, all, passes);
      assert Reads(r + [x], all, at + [|s|]);
    } else {
      PlacesStay(at, s, all, passes);
      assert Reads(r, all, at);
    }
  }

  lemma PlacesStay<T>(at: seq<int>, s: seq<T>, all: seq<T>, passes: T -> bool)
    requires Places(at, s, passes) && |all| == |s| + 1 && !passes(all[|s|])
    requires forall i :: 0 <= i < |s| ==> all[i] == s[i]
    ensures Places(at, all, passes)
  {
    forall i | 0 <= i < |all| && passes(all[i]) ensures Listed(at, i) {
      assert passes(s[i]);
    }
  }

  lemma PlacesGrow<T>(at: seq<int>, s: seq<T>, all: seq<T>, passes: T -> bool)
    requires Places(at, s, passes) && |all| == |s| + 1 && passes(all[|s|])
    requires forall i :: 0 <= i < |s| ==> all[i] == s[i]
    ensures Places(at + [|s|], all, passes)
  {
    var more := at + [|s|];
    forall i | 0 <= i < |all| && passes(all[i]) ensures Listed(more, i) {
      if i < |s| {
        assert Listed(at, i);
      } else {
        assert more[|at|] == i;
      }
    }
  }

  lemma PickedCons<T>(x: T, r: seq<T>, s: seq<T>, passes: T -> bool)
    requires Picked(r, s, passes)
    ensures Picked((if passes(x) then [x] else []) + r, [x] + s, passes)
  {
    var at: seq<int> :| Places(at, s, passes) && Reads(r, s, at);
    var moved := seq(|at|, j requires 0 <= j < |at| => at[j] + 1);
    if passes(x) {
      PlacesMoveBehind(at, moved, x, s, passes);
      ReadsMove(r, s, at, moved, x);
      PickedAt([x] + r, [x] + s, [0] + moved, passes);
    } else {
      PlacesMove(at, moved, x, s, passes);
      ReadsMove(r, s, at, moved, x);
      PickedAt(r, [x] + s, moved, passes);
      assert [] + r == r;
    }
  }

  lemma PickedAt<T>(r: seq<T>, s: seq<T>, at: seq<int>, passes: T -> bool)
    requires Places(at, s, passes) && Reads(r, s, at)
    ensures Picked(r, s, passes)
  {
  }

  ghost predicate Moved(at: seq<int>, moved: seq<int>) {
    |moved| == |at| && forall j :: 0 <= j < |moved| ==> moved[j] == at[j] + 1
  }

  lemma ReadsMove<T>(r: seq<T>, s: seq<T>, at: seq<int>, moved: seq<int>, x: T)
    requires Reads(r, s, at) && Moved(at, moved)
    ensures Reads(r, [x] + s, moved) && Reads([x] + r, [x] + s, [0] + moved)
  {
  }

  lemma MovedList(at: seq<int>, moved: seq<int>, i: int)
    requires Moved(at, moved) && Listed(at, i)
    ensures Listed(moved, i + 1)
  {
    var j :| 0 <= j < |at| && at[j] == i;
    assert moved[j] == i + 1;
  }

  lemma PlacesMove<T>(at: seq<int>, moved: seq<int>, x: T, s: seq<T>, passes: T -> bool)
    requires Places(at, s, passes) && Moved(at, moved) && !passes(x)
    ensures Places(moved, [x] + s, passes)
  {
    var all := [x] + s;
    forall i | 0 <= i < |all| && passes(all[i]) ensures Listed(moved, i) {
      assert Listed(at, i - 1);
      MovedList(at, moved, i - 1);
    }
  }

  lemma PlacesMoveBehind<T>(at: seq<int>, moved: seq<int>, x: T, s: seq<T>, passes: T -> bool)
    requires Places(at, s, passes) && Moved(at, moved) && passes(x)
    ensures Places([0] + moved, [x] + s, passes)
  {
    var all := [x] + s;
    forall i | 0 <= i < |all| && passes(all[i]) ensures Listed([0] + moved, i) {
      if i > 0 {
        assert Listed(at, i - 1);
        MovedList(at, moved, i - 1);
        assert Listed(moved, i);
      }
    }
  }

  lemma PickedAll<T>(s: seq<T>, passes: T -> bool)
    requires forall i :: 0 <= i < |s| ==> passes(s[i])
    ensures Picked(s, s, passes)
  {
    var at := seq(|s|, i => i);
    forall i | 0 <= i < |s| ensures Listed(at, i) {
      assert at[i] == i;
    }
    PickedAt(s, s, at, passes);
  }

  lemma PicksAlike<T>(r: seq<T>, s: seq<T>, p: T -> bool, q: T -> bool)
    requires Picked(r, s, p) && forall i :: 0 <= i < |s| ==> p(s[i]) == q(s[i])
    ensures Picked(r, s, q)
  {
    var at: seq<int> :| Places(at, s, p) && Reads(r, s, at);
    assert Places(at, s, q);
  }

  /** Membership, in particular. */
  lemma PickedMembers<T>(r: seq<T>, s: seq<T>, passes: T -> bool)
    requires Picked(r, s, passes)
    ensures forall x :: x in r <==> x in s && passes(x)
  {
    var at: seq<int> :| Places(at, s, passes) && Reads(r, s, at);
    forall x | x in s && passes(x) ensures x in r {
      var i :| 0 <= i < |s| && s[i] == x;
      assert Listed(at, i);
      var j :| 0 <= j < |at| && at[j] == i;
      assert r[j] == x;
    }
  }
}
