/** Revision ordering, the current controller, and grouping by label on the overview page. */
module Overview {
  import opened Options
  import opened Picking
  import opened Sorting

  // ---- revisions ----

  /** A replication controller or replica set. `revision` is the parsed annotation, None when it is
      missing or not a number. Names are compared by rank. */
  datatype Owner = Owner(uid: string, controller: bool)
  datatype Replicator = Replicator(name: int, revision: Option<int>, owners: seq<Owner>, uid: string)

  /** Missing, or zero: what JavaScript calls falsy. */
  predicate Falsy(r: Option<int>) {
    r.None? || r.value == 0
  }

  /** The comparator of sortByRevision. */
  function Compare(left: Replicator, right: Replicator, descending: bool): int {
    if left.revision.None? && right.revision.None? then
      (if descending then right.name - left.name else left.name - right.name)
    else if Falsy(left.revision) then (if descending then 1 else -1)
    else if Falsy(right.revision) then (if descending then -1 else 1)
    else if descending then right.revision.value - left.revision.value
    else left.revision.value - right.revision.value
  }

  function Sign(n: int): int {
    if n < 0 then -1 else if n == 0 then 0 else 1
  }

  /** The comparator answers consistently for a pair unless both revisions are falsy and one is zero. */
  lemma ConsistentExactly(a: Replicator, b: Replicator, descending: bool)
    ensures Sign(Compare(a, b, descending)) == -Sign(Compare(b, a, descending)) <==>
            !(Falsy(a.revision) && Falsy(b.revision) && !(a.revision.None? && b.revision.None?))
  {
  }

  predicate NonZero(r: Replicator) {
    r.revision != Some(0)
  }

  /** On nonzero or missing revisions it is a weak order. */
  lemma CompareIsTransitive(a: Replicator, b: Replicator, c: Replicator, descending: bool)
    requires NonZero(a) && NonZero(b) && NonZero(c)
    requires Compare(a, b, descending) <= 0 && Compare(b, c, descending) <= 0
    ensures Compare(a, c, descending) <= 0
    ensures Compare(a, c, descending) == 0 ==> Compare(a, b, descending) == 0 && Compare(b, c, descending) == 0
  {
  }

  function ByRevision(descending: bool): Order<Replicator> {
    (a, b) => Compare(a, b, descending) <= 0
  }

  /** sortByRevision */
  function SortByRevision(rs: seq<Replicator>, descending: bool): seq<Replicator> {
    Sort(rs, ByRevision(descending))
  }

  lemma RevisionsAreOrdered(rs: seq<Replicator>, descending: bool)
    requires forall x :: x in rs ==> NonZero(x)
    ensures WeakOrderOn(rs, ByRevision(descending))
  {
    var leq := ByRevision(descending);
    forall x, y | x in rs && y in rs ensures leq(x, y) || leq(y, x) {
      ConsistentExactly(x, y, descending);
    }
    forall x, y, z | x in rs && y in rs && z in rs && leq(x, y) && leq(y, z) ensures leq(x, z) {
      CompareIsTransitive(x, y, z, descending);
    }
  }

  /** x may stand before y. Descending, those without a revision come last, the others by falling revision;
      ascending, those without come first, the others by rising revision. Without any, the name decides. */
  ghost predicate InPlace(x: Replicator, y: Replicator, descending: bool) {
    if x.revision.None? && y.revision.None? then if descending then x.name >= y.name else x.name <= y.name
    else if x.revision.None? then !descending
    else if y.revision.None? then descending
    else if descending then x.revision.value >= y.revision.value
    else x.revision.value <= y.revision.value
  }

  /** On nonzero or missing revisions the comparator means exactly that order. */
  lemma CompareMeans(x: Replicator, y: Replicator, descending: bool)
    requires NonZero(x) && NonZero(y)
    ensures Compare(x, y, descending) <= 0 <==> InPlace(x, y, descending)
  {
  }

  /** With nonzero or missing revisions sorting rearranges the list into that order, either way, and keeps
      the order of those that are level. */
  lemma SortsByRevision(rs: seq<Replicator>, descending: bool)
    requires forall x :: x in rs ==> NonZero(x)
    ensures var r := SortByRevision(rs, descending);
      && multiset(r) == multiset(rs)
      && (forall i, j :: 0 <= i < j < |r| ==> InPlace(r[i], r[j], descending))
      && (forall k :: k in rs ==> Ties(r, k, ByRevision(descending)) == Ties(rs, k, ByRevision(descending)))
  {
    var r := SortByRevision(rs, descending);
    RevisionsAreOrdered(rs, descending);
    SortSorts(rs, ByRevision(descending));
    SameMembers(r, rs);
    forall i, j | 0 <= i < j < |r| ensures InPlace(r[i], r[j], descending) {
      assert r[i] in rs && r[j] in rs;
      assert ByRevision(descending)(r[i], r[j]);
      CompareMeans(r[i], r[j], descending);
    }
    forall k | k in rs ensures Ties(r, k, ByRevision(descending)) == Ties(rs, k, ByRevision(descending)) {
      RevisionsAreOrdered(rs + [k], descending);
      SortKeepsTies(rs, k, ByRevision(descending));
    }
  }

  /** getOwnedResources */
  function Owned(rs: seq<Replicator>, uid: string): seq<Replicator> {
    if rs == [] then []
    else (if Owner(uid, true) in rs[0].owners then [rs[0]] else []) + Owned(rs[1..], uid)
  }

  function Head(s: seq<Replicator>): Option<Replicator> {
    if s == [] then None else Some(s[0])
  }

  /** currentController: the head of the ordered replication controllers, else of the replica sets. */
  function CurrentController(uid: string, controllers: seq<Replicator>, sets: seq<Replicator>): Option<Replicator> {
    var first := Head(SortByRevision(Owned(controllers, uid), true));
    if first.Some? then first else Head(SortByRevision(Owned(sets, uid), true))
  }

  /** Exactly those whose controlling owner has this uid, in their order. */
  lemma {:induction false} OwnedExactly(rs: seq<Replicator>, uid: string)
    ensures Picked(Owned(rs, uid), rs, (x: Replicator) => Owner(uid, true) in x.owners)
    ensures forall x :: x in Owned(rs, uid) <==> x in rs && Owner(uid, true) in x.owners
    decreases |rs|
  {
    var owned := (x: Replicator) => Owner(uid, true) in x.owners;
    if rs == [] {
      PickedNothing(owned);
    } else {
      OwnedExactly(rs[1..], uid);
      PickedCons(rs[0], Owned(rs[1..], uid), rs[1..], owned);
      assert rs == [rs[0]] + rs[1..];
    }
    PickedMembers(Owned(rs, uid), rs, owned);
  }

  ghost predicate OwnsOne(rs: seq<Replicator>, uid: string) {
    exists x :: x in rs && Owner(uid, true) in x.owners
  }

  /** r is owned, and nothing else in the list that is owned has a larger revision, or any if r has none. */
  ghost predicate LatestOwned(r: Replicator, rs: seq<Replicator>, uid: string) {
    && r in rs && Owner(uid, true) in r.owners
    && forall x :: x in rs && Owner(uid, true) in x.owners && x.revision.Some? ==>
         r.revision.Some? && x.revision.value <= r.revision.value
  }

  lemma OwnsSome(rs: seq<Replicator>, uid: string)
    ensures OwnsOne(rs, uid) <==> Owned(rs, uid) != []
  {
    OwnedExactly(rs, uid);
    if Owned(rs, uid) != [] {
      assert Owned(rs, uid)[0] in Owned(rs, uid);
    }
  }

  /** No revision in the list is larger; if it has none, nothing in the list has one. */
  ghost predicate Latest(r: Replicator, rs: seq<Replicator>) {
    && r in rs
    && forall x :: x in rs && x.revision.Some? ==> r.revision.Some? && x.revision.value <= r.revision.value
  }

  lemma HeadIsLatest(rs: seq<Replicator>)
    requires forall x :: x in rs ==> NonZero(x)
    ensures Head(SortByRevision(rs, true)).None? <==> rs == []
    ensures rs != [] ==> Latest(Head(SortByRevision(rs, true)).value, rs)
  {
    RevisionsAreOrdered(rs, true);
    SortSorts(rs, ByRevision(true));
    if rs != [] {
      FirstIsLatest(SortByRevision(rs, true), rs);
    }
  }

  lemma FirstIsLatest(s: seq<Replicator>, rs: seq<Replicator>)
    requires multiset(s) == multiset(rs) && Ordered(s, ByRevision(true)) && s != []
    requires forall x :: x in rs ==> NonZero(x)
    ensures Latest(s[0], rs)
  {
    SameMembers(s, rs);
    forall x | x in rs ensures x.revision.Some? ==> s[0].revision.Some? && x.revision.value <= s[0].revision.value {
      assert x in s && s[0] in s;
      var i :| 0 <= i < |s| && s[i] == x;
      assert i > 0 ==> ByRevision(true)(s[0], s[i]);
    }
  }

  /** With nonzero or missing revisions, the current controller of a root resource has the largest
      revision among the owned replication controllers, or, only if there are none, among the owned
      replica sets. */
  lemma CurrentControllerIsLatest(uid: string, controllers: seq<Replicator>, sets: seq<Replicator>)
    requires forall x :: x in controllers + sets ==> NonZero(x)
    ensures var c := CurrentController(uid, controllers, sets);
      if OwnsOne(controllers, uid) then c.Some? && LatestOwned(c.value, controllers, uid)
      else if OwnsOne(sets, uid) then c.Some? && LatestOwned(c.value, sets, uid)
      else c == None
  {
    OwnedExactly(controllers, uid);
    OwnedExactly(sets, uid);
    OwnsSome(controllers, uid);
    OwnsSome(sets, uid);
    forall x | x in Owned(controllers, uid) || x in Owned(sets, uid) ensures NonZero(x) {
      assert x in controllers + sets;
    }
    HeadIsLatest(Owned(controllers, uid));
    HeadIsLatest(Owned(sets, uid));
  }

  // ---- grouping ----

  datatype Item = Item(id: int, labels: map<string, string>)
  datatype Bucket = Bucket(name: string, items: seq<Item>)

  const OTHER := "other"

  function LabelOf(i: Item, tag: string): string {
    if tag in i.labels then i.labels[tag] else OTHER
  }

  /** _.groupBy, with the groups listed in order of first appearance. */
  function AddTo(gs: seq<Bucket>, name: string, i: Item): seq<Bucket> {
    if gs == [] then [Bucket(name, [i])]
    else if gs[0].name == name then [Bucket(name, gs[0].items + [i])] + gs[1..]
    else [gs[0]] + AddTo(gs[1..], name, i)
  }

  function GroupBy(items: seq<Item>, tag: string): seq<Bucket> {
    if items == [] then []
    else
      var n := |items| - 1;
      AddTo(GroupBy(items[..n], tag), LabelOf(items[n], tag), items[n])
  }

  function Concatenated(gs: seq<Bucket>): seq<Item> {
    if gs == [] then [] else gs[0].items + Concatenated(gs[1..])
  }

  function Labelled(items: seq<Item>, tag: string, name: string): seq<Item> {
    if items == [] then []
    else
      var n := |items| - 1;
      Labelled(items[..n], tag, name) + (if LabelOf(items[n], tag) == name then [items[n]] else [])
  }

  ghost predicate DistinctNames(gs: seq<Bucket>) {
    forall i, j :: 0 <= i < j < |gs| ==> gs[i].name != gs[j].name
  }

  lemma {:induction false} AddToConcatenated(gs: seq<Bucket>, name: string, item: Item)
    ensures multiset(Concatenated(AddTo(gs, name, item))) == multiset(Concatenated(gs)) + multiset{item}
    decreases |gs|
  {
    if gs == [] {
      assert Concatenated([Bucket(name, [item])]) == [item] + Concatenated([]);
    } else if gs[0].name == name {
      var rest := Concatenated(gs[1..]);
      assert AddTo(gs, name, item)[1..] == gs[1..];
      assert multiset(gs[0].items + [item] + rest) == multiset(gs[0].items) + multiset{item} + multiset(rest);
      assert multiset(gs[0].items + rest) == multiset(gs[0].items) + multiset(rest);
    } else {
      AddToConcatenated(gs[1..], name, item);
      var r := AddTo(gs[1..], name, item);
      assert ([gs[0]] + r)[1..] == r;
      assert multiset(gs[0].items + Concatenated(r)) == multiset(gs[0].items) + multiset(Concatenated(r));
      var rest := Concatenated(gs[1..]);
      assert multiset(gs[0].items + rest) == multiset(gs[0].items) + multiset(rest);
    }
  }

  function Names(gs: seq<Bucket>): seq<string> {
    seq(|gs|, i requires 0 <= i < |gs| => gs[i].name)
  }

  /** Adding keeps the list of group names, with a new name at its end. */
  lemma {:induction false} AddToNames(gs: seq<Bucket>, name: string, item: Item)
    ensures Names(AddTo(gs, name, item)) == if name in Names(gs) then Names(gs) else Names(gs) + [name]
    decreases |gs|
  {
    if gs != [] {
      assert Names(gs) == [gs[0].name] + Names(gs[1..]);
      if gs[0].name != name {
        AddToNames(gs[1..], name, item);
        assert Names(AddTo(gs, name, item)) == [gs[0].name] + Names(AddTo(gs[1..], name, item));
      }
    }
  }

  lemma AddToDistinct(gs: seq<Bucket>, name: string, item: Item)
    requires DistinctNames(gs)
    ensures DistinctNames(AddTo(gs, name, item))
  {
    AddToNames(gs, name, item);
    var r := AddTo(gs, name, item);
    forall i, j | 0 <= i < j < |r| ensures r[i].name != r[j].name {
      assert r[i].name == Names(r)[i] && r[j].name == Names(r)[j];
      assert forall k :: 0 <= k < |gs| ==> Names(gs)[k] == gs[k].name;
    }
  }

  /** The items under a name are those whose label is that name; "other" also takes those without the label. */
  lemma {:induction false} LabelledPicks(items: seq<Item>, tag: string, name: string)
    ensures Picked(Labelled(items, tag, name), items,
                   (i: Item) => name == if tag in i.labels then i.labels[tag] else "other")
    decreases |items|
  {
    var named := (i: Item) => name == if tag in i.labels then i.labels[tag] else "other";
    if items == [] {
      PickedNothing(named);
    } else {
      var n := |items| - 1;
      LabelledPicks(items[..n], tag, name);
      PickedSnoc(Labelled(items[..n], tag, name), items[..n], items[n], named);
      assert items == items[..n] + [items[n]];
    }
  }

  /** Every group holds, in order, exactly the items that have its name as the value of the label, and the
      group "other" also those that do not have the label. */
  ghost predicate ByLabel(gs: seq<Bucket>, items: seq<Item>, tag: string) {
    forall b :: b in gs ==>
      Picked(b.items, items, (i: Item) => b.name == if tag in i.labels then i.labels[tag] else "other")
  }

  lemma HoldsByLabel(gs: seq<Bucket>, items: seq<Item>, tag: string)
    requires Holds(gs, items, tag)
    ensures ByLabel(gs, items, tag)
  {
    forall b | b in gs
      ensures Picked(b.items, items, (i: Item) => b.name == if tag in i.labels then i.labels[tag] else "other")
    {
      LabelledPicks(items, tag, b.name);
    }
  }

  /** What a group should hold before and after one more item. */
  ghost predicate Holds(gs: seq<Bucket>, items: seq<Item>, tag: string) {
    && (forall b :: b in gs ==> b.items == Labelled(items, tag, b.name) && b.items != [])
    && (forall i :: 0 <= i < |items| ==> exists b :: b in gs && b.name == LabelOf(items[i], tag))
  }

  /** r is gs with the item joined to the group of this name, or with a new such group. */
  ghost predicate Joined(r: seq<Bucket>, gs: seq<Bucket>, name: string, item: Item) {
    && (forall b :: b in r && b.name != name ==> b in gs)
    && (forall b :: b in gs && b.name != name ==> b in r)
    && (exists b :: b in r && b.name == name)
    && (forall b :: b in r && b.name == name ==>
          || (exists c :: c in gs && c.name == name && b.items == c.items + [item])
          || ((forall c :: c in gs ==> c.name != name) && b.items == [item]))
  }

  lemma JoinedFirst(g: Bucket, gs: seq<Bucket>, item: Item)
    requires DistinctNames([g] + gs)
    ensures Joined([Bucket(g.name, g.items + [item])] + gs, [g] + gs, g.name, item)
  {
    var r, all := [Bucket(g.name, g.items + [item])] + gs, [g] + gs;
    assert r[0] in r && all[0] == g && g in all;
    forall i | 0 <= i < |gs| ensures gs[i].name != g.name {
      assert all[i + 1] == gs[i];
    }
  }

  lemma {:induction false} AddToHolds(gs: seq<Bucket>, name: string, item: Item)
    requires DistinctNames(gs)
    ensures Joined(AddTo(gs, name, item), gs, name, item)
    decreases |gs|
  {
    if gs == [] {
      assert Bucket(name, [item]) in AddTo(gs, name, item);
    } else {
      assert gs == [gs[0]] + gs[1..];
      if gs[0].name == name {
        JoinedFirst(gs[0], gs[1..], item);
      } else {
        AddToHolds(gs[1..], name, item);
      }
    }
  }

  lemma {:induction false} LabelledNone(items: seq<Item>, tag: string, name: string)
    requires forall i :: 0 <= i < |items| ==> LabelOf(items[i], tag) != name
    ensures Labelled(items, tag, name) == []
    decreases |items|
  {
    if items != [] {
      LabelledNone(items[..|items| - 1], tag, name);
    }
  }

  /** Grouping partitions the items: every item is in exactly the group of its label, in order. */
  lemma {:induction false} GroupByPartitions(items: seq<Item>, tag: string)
    ensures DistinctNames(GroupBy(items, tag))
    ensures Holds(GroupBy(items, tag), items, tag) && ByLabel(GroupBy(items, tag), items, tag)
    ensures multiset(Concatenated(GroupBy(items, tag))) == multiset(items)
    decreases |items|
  {
    if items != [] {
      var n := |items| - 1;
      var init, name := items[..n], LabelOf(items[n], tag);
      var gs := GroupBy(init, tag);
      var r := GroupBy(items, tag);
      assert items == init + [items[n]];
      GroupByPartitions(init, tag);
      AddToConcatenated(gs, name, items[n]);
      AddToDistinct(gs, name, items[n]);
      GroupHoldsOneMore(gs, init, items[n], tag);
    }
    HoldsByLabel(GroupBy(items, tag), items, tag);
  }

  lemma GroupHoldsOneMore(gs: seq<Bucket>, init: seq<Item>, item: Item, tag: string)
    requires DistinctNames(gs) && Holds(gs, init, tag)
    ensures Holds(AddTo(gs, LabelOf(item, tag), item), init + [item], tag)
  {
    var name, items := LabelOf(item, tag), init + [item];
    var r := AddTo(gs, name, item);
    assert items[..|items| - 1] == init;
    AddToHolds(gs, name, item);
    if forall c :: c in gs ==> c.name != name {
      forall i | 0 <= i < |init| ensures LabelOf(init[i], tag) != name {
        var b :| b in gs && b.name == LabelOf(init[i], tag);
      }
      LabelledNone(init, tag, name);
    }
    forall b | b in r ensures b.items == Labelled(items, tag, b.name) && b.items != [] {
      assert b.name != name ==> b in gs;
    }
    forall i | 0 <= i < |items| ensures exists b :: b in r && b.name == LabelOf(items[i], tag) {
      if i < |init| {
        assert init[i] == items[i];
        var c :| c in gs && c.name == LabelOf(init[i], tag);
        assert c.name != name ==> c in r;
      }
    }
  }

  /** compareGroups; `rank` stands for the order of names under localeCompare. */
  function CompareGroups(a: Bucket, b: Bucket, rank: string -> int): int {
    if a.name == OTHER then 1 else if b.name == OTHER then -1 else rank(a.name) - rank(b.name)
  }

  lemma {:induction false} ConcatenatedMultiset(gs: seq<Bucket>, hs: seq<Bucket>)
    requires multiset(gs) == multiset(hs)
    ensures multiset(Concatenated(gs)) == multiset(Concatenated(hs))
    decreases |gs|
  {
    SameMembers(gs, hs);
    if gs != [] {
      var g, tail := gs[0], gs[1..];
      assert gs == [g] + tail;
      assert g in gs && g in hs;
      var i :| 0 <= i < |hs| && hs[i] == g;
      var l, r := hs[..i], hs[i + 1..];
      assert hs == l + [g] + r;
      WithoutOne(tail, l, r, g);
      ConcatenatedMultiset(tail, l + r);
      PulledOut(l, g, r);
    }
  }

  lemma PulledOut(l: seq<Bucket>, g: Bucket, r: seq<Bucket>)
    ensures multiset(Concatenated(l + [g] + r)) == multiset(g.items) + multiset(Concatenated(l + r))
  {
    assert l + [g] + r == l + ([g] + r);
    ConcatenatedAppend(l, [g] + r);
    ConcatenatedAppend(l, r);
    assert ([g] + r)[1..] == r;
    assert multiset(g.items + Concatenated(r)) == multiset(g.items) + multiset(Concatenated(r));
  }

  lemma {:induction false} ConcatenatedAppend(a: seq<Bucket>, b: seq<Bucket>)
    ensures Concatenated(a + b) == Concatenated(a) + Concatenated(b)
    decreases |a|
  {
    if a == [] {
      assert a + b == b;
    } else {
      assert (a + b)[1..] == a[1..] + b;
      ConcatenatedAppend(a[1..], b);
    }
  }

  /** On groups with different names the comparator is antisymmetric and transitive; asked about one
      group twice it contradicts itself exactly for "other". */
  lemma GroupsCompareConsistently(a: Bucket, b: Bucket, c: Bucket, rank: string -> int)
    ensures Sign(CompareGroups(a, b, rank)) == -Sign(CompareGroups(b, a, rank)) <==>
            !(a.name == OTHER && b.name == OTHER)
    ensures (a.name != b.name && b.name != c.name && a.name != c.name &&
             CompareGroups(a, b, rank) <= 0 && CompareGroups(b, c, rank) <= 0) ==>
              CompareGroups(a, c, rank) <= 0
  {
  }

  function ByComparator(rank: string -> int): Order<Bucket> {
    (a: Bucket, b: Bucket) => CompareGroups(a, b, rank) <= 0
  }

  /** The order meant: "other" behind everything, the rest by rank. */
  function OtherLast(rank: string -> int): Order<Bucket> {
    (a: Bucket, b: Bucket) => b.name == OTHER || (a.name != OTHER && rank(a.name) <= rank(b.name))
  }

  /** groupItems, for groups listed in any order `gs`. */
  function SortGroups(gs: seq<Bucket>, rank: string -> int): seq<Bucket> {
    Sort(gs, ByComparator(rank))
  }

  /** Sorting with the comparator puts groups with different names in the order meant, "other" at the end. */
  lemma SortGroupsOrders(gs: seq<Bucket>, rank: string -> int)
    requires DistinctNames(gs)
    ensures var shown := SortGroups(gs, rank);
      && multiset(shown) == multiset(gs)
      && Ordered(shown, OtherLast(rank))
      && DistinctNames(shown)
      && (forall i :: 0 <= i < |shown| && shown[i].name == OTHER ==> i == |shown| - 1)
  {
    var shown := SortGroups(gs, rank);
    SortAgrees(gs, ByComparator(rank), OtherLast(rank));
    SortSorts(gs, OtherLast(rank));
    DistinctMoves(gs, shown);
    forall i | 0 <= i < |shown| - 1 ensures shown[i].name != OTHER {
      NotBeforeLast(shown, i, rank);
    }
  }

  lemma NotBeforeLast(shown: seq<Bucket>, i: nat, rank: string -> int)
    requires DistinctNames(shown) && Ordered(shown, OtherLast(rank)) && i < |shown| - 1
    ensures shown[i].name != OTHER
  {
    assert OtherLast(rank)(shown[i], shown[i + 1]);
  }

  lemma DistinctMoves(gs: seq<Bucket>, hs: seq<Bucket>)
    requires multiset(gs) == multiset(hs) && DistinctNames(gs)
    ensures DistinctNames(hs)
  {
    forall i, j | 0 <= i < j < |hs| ensures hs[i].name != hs[j].name {
      SameMembers(gs, hs);
      assert hs[i] in gs && hs[j] in gs;
      if hs[i] == hs[j] {
        TwiceIn(hs, i, j);
        OnceIn(gs, hs[i]);
      }
    }
  }

  lemma TwiceIn(hs: seq<Bucket>, i: nat, j: nat)
    requires i < j < |hs| && hs[i] == hs[j]
    ensures multiset(hs)[hs[i]] >= 2
  {
    assert hs == hs[..i] + [hs[i]] + hs[i + 1..j] + [hs[j]] + hs[j + 1..];
  }

  lemma OnceIn(gs: seq<Bucket>, b: Bucket)
    requires DistinctNames(gs) && b in gs
    ensures multiset(gs)[b] == 1
  {
    var i :| 0 <= i < |gs| && gs[i] == b;
    assert gs == gs[..i] + [b] + gs[i + 1..];
    assert b !in gs[..i] && b !in gs[i + 1..];
  }

  /** groupItems: in whatever order the groups are listed first (an object lists names that look like
      integers before others), the groups shown partition the items, every item in exactly the group of
      its label and in order, and the group "other", if any, comes last. */
  lemma GroupsPartitionOtherLast(items: seq<Item>, tag: string, listed: seq<Bucket>, rank: string -> int)
    requires multiset(listed) == multiset(GroupBy(items, tag))
    ensures var shown := SortGroups(listed, rank);
      && DistinctNames(shown)
      && Holds(shown, items, tag) && ByLabel(shown, items, tag)
      && multiset(Concatenated(shown)) == multiset(items)
      && Ordered(shown, OtherLast(rank))
      && (forall i :: 0 <= i < |shown| && shown[i].name == OTHER ==> i == |shown| - 1)
  {
    var gs := GroupBy(items, tag);
    var shown := SortGroups(listed, rank);
    GroupByPartitions(items, tag);
    DistinctMoves(gs, listed);
    SortGroupsOrders(listed, rank);
    ConcatenatedMultiset(shown, gs);
    SameMembers(shown, gs);
    forall i | 0 <= i < |items| ensures exists b :: b in shown && b.name == LabelOf(items[i], tag) {
      var b :| b in gs && b.name == LabelOf(items[i], tag);
      assert b in shown;
    }
    HoldsByLabel(shown, items, tag);
  }

  /** When no two groups rank alike, what is shown does not depend on the order in which the groups are
      listed before sorting, nor on the sorting algorithm. */
  lemma ArrangementIsUnique(gs: seq<Bucket>, shown: seq<Bucket>, rank: string -> int)
    requires DistinctNames(gs) && multiset(shown) == multiset(gs)
    requires forall x, y :: x in gs && y in gs && rank(x.name) == rank(y.name) ==> x == y
    requires forall i, j :: 0 <= i < j < |shown| ==> CompareGroups(shown[i], shown[j], rank) <= 0
    ensures shown == SortGroups(gs, rank)
  {
    var leq := OtherLast(rank);
    SortGroupsOrders(gs, rank);
    DistinctMoves(gs, shown);
    SameMembers(gs, shown);
    assert Strict(shown, leq) by {
      forall x, y | x in shown && y in shown && leq(x, y) && leq(y, x) ensures x == y {
        assert rank(x.name) == rank(y.name);
      }
    }
    SortedIsUnique(shown, SortGroups(gs, rank), leq);
  }
}
