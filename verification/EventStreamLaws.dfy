/** What the event stream cache promises, over every run. */
module EventStreamLaws {
  import opened Options
  import opened Picking
  import opened Sorting
  import opened EventStreamModel

  // ---- sorting ----

  /** Later times come first, and at the same time the smaller name. */
  ghost predicate NewestFirst(es: seq<KubeEvent>) {
    forall i, j :: 0 <= i < j < |es| ==>
      && es[i].lastTimestamp >= es[j].lastTimestamp
      && (es[i].lastTimestamp == es[j].lastTimestamp ==> es[i].name <= es[j].name)
  }

  lemma BeforeIsWeakOrder(es: seq<KubeEvent>)
    ensures WeakOrderOn(es, NEWEST_FIRST)
  {
  }

  /** Sorting yields the same events, newest first, with ties in their original order. */
  lemma MessagesAreSorted(es: seq<KubeEvent>)
    ensures NewestFirst(SortMessages(es)) && multiset(SortMessages(es)) == multiset(es)
    ensures forall k :: Ties(SortMessages(es), k, NEWEST_FIRST) == Ties(es, k, NEWEST_FIRST)
  {
    BeforeIsWeakOrder(es);
    SortSorts(es, NEWEST_FIRST);
    var r := SortMessages(es);
    forall i, j | 0 <= i < j < |r|
      ensures r[i].lastTimestamp >= r[j].lastTimestamp
      ensures r[i].lastTimestamp == r[j].lastTimestamp ==> r[i].name <= r[j].name
    {
      assert NEWEST_FIRST(r[i], r[j]);
    }
    forall k ensures Ties(SortMessages(es), k, NEWEST_FIRST) == Ties(es, k, NEWEST_FIRST) {
      BeforeIsWeakOrder(es + [k]);
      SortKeepsTies(es, k, NEWEST_FIRST);
    }
  }

  /** The events of es with the time and the name of k, in their order. */
  ghost predicate LevelWith(level: seq<KubeEvent>, es: seq<KubeEvent>, k: KubeEvent) {
    Picked(level, es, (e: KubeEvent) => e.lastTimestamp == k.lastTimestamp && e.name == k.name)
  }

  lemma {:induction false} TiesAreLevel(es: seq<KubeEvent>, k: KubeEvent)
    ensures LevelWith(Ties(es, k, NEWEST_FIRST), es, k)
    decreases |es|
  {
    var level := (e: KubeEvent) => e.lastTimestamp == k.lastTimestamp && e.name == k.name;
    if es == [] {
      PickedNothing(level);
    } else {
      TiesAreLevel(es[1..], k);
      PickedCons(es[0], Ties(es[1..], k, NEWEST_FIRST), es[1..], level);
      assert es == [es[0]] + es[1..];
    }
  }

  /** Sorting is stable: the events with one time and one name are the same list before and after. */
  lemma SortIsStable(es: seq<KubeEvent>, k: KubeEvent)
    ensures exists same: seq<KubeEvent> :: LevelWith(same, es, k) && LevelWith(same, SortMessages(es), k)
  {
    TiesAreLevel(es, k);
    TiesAreLevel(SortMessages(es), k);
    BeforeIsWeakOrder(es + [k]);
    SortKeepsTies(es, k, NEWEST_FIRST);
  }

  // ---- the dictionary ----

  ghost predicate DistinctUids(ms: seq<KubeEvent>) {
    forall i, j :: 0 <= i < j < |ms| ==> ms[i].uid != ms[j].uid
  }

  function Uids(ms: seq<KubeEvent>): set<string> {
    set e | e in ms :: e.uid
  }

  lemma {:induction false} FindMember(ms: seq<KubeEvent>, uid: string)
    ensures Find(ms, uid).Some? <==> uid in Uids(ms)
    ensures Find(ms, uid).Some? ==> Find(ms, uid).value in ms && Find(ms, uid).value.uid == uid
    decreases |ms|
  {
    if ms != [] {
      FindMember(ms[1..], uid);
      assert ms == [ms[0]] + ms[1..];
      assert Uids(ms) == {ms[0].uid} + Uids(ms[1..]);
    }
  }

  lemma UidsCons(e: KubeEvent, ms: seq<KubeEvent>)
    ensures Uids([e] + ms) == {e.uid} + Uids(ms)
    ensures DistinctUids([e] + ms) <==> DistinctUids(ms) && e.uid !in Uids(ms)
  {
    var r := [e] + ms;
    assert r[1..] == ms && r[0] == e;
    if DistinctUids(r) {
      forall x | x in ms ensures x.uid != e.uid {
        var i :| 0 <= i < |ms| && ms[i] == x;
        assert r[i + 1] == x;
      }
      assert DistinctUids(ms) by {
        assert forall i :: 0 <= i < |ms| ==> ms[i] == r[i + 1];
      }
    }
    if DistinctUids(ms) && e.uid !in Uids(ms) {
      forall i | 0 <= i < |ms| ensures ms[i].uid != e.uid {
        assert ms[i] in ms;
      }
    }
  }

  lemma {:induction false} PutUids(ms: seq<KubeEvent>, e: KubeEvent)
    ensures Uids(Put(ms, e)) == Uids(ms) + {e.uid}
    ensures DistinctUids(ms) ==> DistinctUids(Put(ms, e))
    decreases |ms|
  {
    if ms == [] {
      assert Uids([e]) == {e.uid};
    } else {
      assert ms == [ms[0]] + ms[1..];
      UidsCons(ms[0], ms[1..]);
      if ms[0].uid == e.uid {
        UidsCons(e, ms[1..]);
      } else {
        PutUids(ms[1..], e);
        UidsCons(ms[0], Put(ms[1..], e));
      }
    }
  }

  /** A dictionary behaves like one: reading back what was put, and nothing else changed. */
  lemma {:induction false} PutLaws(ms: seq<KubeEvent>, e: KubeEvent, uid: string)
    ensures Find(Put(ms, e), uid) == if uid == e.uid then Some(e) else Find(ms, uid)
    ensures DistinctUids(ms) ==> DistinctUids(Put(ms, e))
    ensures Uids(Put(ms, e)) == Uids(ms) + {e.uid}
    decreases |ms|
  {
    PutUids(ms, e);
    if ms == [] {
      assert Find([e], uid) == if uid == e.uid then Some(e) else None;
    } else if ms[0].uid == e.uid {
      assert ([e] + ms[1..])[1..] == ms[1..];
    } else {
      PutLaws(ms[1..], e, uid);
      assert ([ms[0]] + Put(ms[1..], e))[1..] == Put(ms[1..], e);
    }
  }

  lemma {:induction false} RemoveUids(ms: seq<KubeEvent>, gone: string)
    requires DistinctUids(ms)
    ensures DistinctUids(Remove(ms, gone))
    ensures Uids(Remove(ms, gone)) == Uids(ms) - {gone}
    decreases |ms|
  {
    if ms != [] {
      assert ms == [ms[0]] + ms[1..];
      UidsCons(ms[0], ms[1..]);
      if ms[0].uid != gone {
        RemoveUids(ms[1..], gone);
        UidsCons(ms[0], Remove(ms[1..], gone));
      }
    }
  }

  lemma {:induction false} RemoveLaws(ms: seq<KubeEvent>, gone: string, uid: string)
    requires DistinctUids(ms)
    ensures Find(Remove(ms, gone), uid) == if uid == gone then None else Find(ms, uid)
    ensures DistinctUids(Remove(ms, gone))
    decreases |ms|
  {
    RemoveUids(ms, gone);
    if ms != [] {
      assert ms == [ms[0]] + ms[1..];
      UidsCons(ms[0], ms[1..]);
      FindMember(ms[1..], uid);
      if ms[0].uid != gone {
        RemoveLaws(ms[1..], gone, uid);
        assert ([ms[0]] + Remove(ms[1..], gone))[1..] == Remove(ms[1..], gone);
      }
    }
  }

  function UidList(ms: seq<KubeEvent>): seq<string> {
    seq(|ms|, i requires 0 <= i < |ms| => ms[i].uid)
  }

  /** The keys keep their places: one that is there already is overwritten where it stands, a new one goes
      to the end. */
  lemma {:induction false} PutKeepsPlaces(ms: seq<KubeEvent>, e: KubeEvent)
    ensures UidList(Put(ms, e)) == if e.uid in UidList(ms) then UidList(ms) else UidList(ms) + [e.uid]
    decreases |ms|
  {
    if ms != [] {
      assert UidList(ms) == [ms[0].uid] + UidList(ms[1..]);
      if ms[0].uid != e.uid {
        PutKeepsPlaces(ms[1..], e);
        assert UidList(Put(ms, e)) == [ms[0].uid] + UidList(Put(ms[1..], e));
      }
    }
  }

  /** Deleting a key leaves all others, in their order. */
  lemma {:induction false} RemoveKeepsOthers(ms: seq<KubeEvent>, uid: string)
    requires DistinctUids(ms)
    ensures Picked(Remove(ms, uid), ms, (e: KubeEvent) => e.uid != uid)
    decreases |ms|
  {
    var others := (e: KubeEvent) => e.uid != uid;
    if ms == [] {
      PickedNothing(others);
    } else {
      var rest := ms[1..];
      assert ms == [ms[0]] + rest;
      UidsCons(ms[0], rest);
      if ms[0].uid == uid {
        assert forall i :: 0 <= i < |rest| ==> rest[i].uid == ms[i + 1].uid;
        PickedAll(rest, others);
        PickedCons(ms[0], rest, rest, others);
        assert [] + rest == rest;
      } else {
        RemoveKeepsOthers(rest, uid);
        PickedCons(ms[0], Remove(rest, uid), rest, others);
      }
    }
  }

  lemma ApplyKeepsDistinct(ms: seq<KubeEvent>, c: Change)
    requires DistinctUids(ms)
    ensures DistinctUids(Apply(ms, c))
  {
    PutLaws(ms, c.event, "");
    RemoveLaws(ms, c.event.uid, "");
  }

  lemma {:induction false} ApplyAllKeepsDistinct(ms: seq<KubeEvent>, batch: seq<Change>)
    requires DistinctUids(ms)
    ensures DistinctUids(ApplyAll(ms, batch))
    decreases |batch|
  {
    if batch != [] {
      ApplyAllKeepsDistinct(ms, batch[..|batch| - 1]);
      ApplyKeepsDistinct(ApplyAll(ms, batch[..|batch| - 1]), batch[|batch| - 1]);
    }
  }

  lemma {:induction false} PutNew(ms: seq<KubeEvent>, e: KubeEvent)
    requires e.uid !in Uids(ms)
    ensures Put(ms, e) == ms + [e]
    decreases |ms|
  {
    if ms != [] {
      assert ms[0] in ms && ms == [ms[0]] + ms[1..];
      PutNew(ms[1..], e);
    }
  }

  lemma {:induction false} KeyByDistinct(es: seq<KubeEvent>)
    requires DistinctUids(es)
    ensures KeyBy(es) == es
    decreases |es|
  {
    if es != [] {
      var n := |es| - 1;
      KeyByDistinct(es[..n]);
      PutNew(es[..n], es[n]);
      assert es == es[..n] + [es[n]];
    }
  }

  // ---- batching ----

  function Adds(es: seq<KubeEvent>): seq<Change> {
    seq(|es|, i requires 0 <= i < |es| => Change(ADDED, es[i]))
  }

  lemma {:induction false} AddsAppend(ms: seq<KubeEvent>, es: seq<KubeEvent>)
    requires DistinctUids(ms + es)
    ensures ApplyAll(ms, Adds(es)) == ms + es
    decreases |es|
  {
    if es == [] {
      assert ms + es == ms;
    } else {
      var n := |es| - 1;
      assert ms + es == ms + es[..n] + [es[n]];
      assert Adds(es)[..n] == Adds(es[..n]);
      assert DistinctUids(ms + es[..n]) by {
        assert forall i :: 0 <= i < |ms| + n ==> (ms + es[..n])[i] == (ms + es)[i];
      }
      AddsAppend(ms, es[..n]);
      var before := ms + es[..n];
      assert es[n].uid !in Uids(before) by {
        forall i | 0 <= i < |before| ensures before[i].uid != es[n].uid {
          assert before[i] == (ms + es)[i] && es[n] == (ms + es)[|ms| + n];
        }
      }
      FindMember(before, es[n].uid);
      PutNew(before, es[n]);
    }
  }

  function Flat(batches: seq<seq<KubeEvent>>): seq<KubeEvent> {
    if batches == [] then [] else Flat(batches[..|batches| - 1]) + batches[|batches| - 1]
  }

  function ReceiveAll(v: View, keeps: Keeps, batches: seq<seq<KubeEvent>>): View {
    if batches == [] then v
    else Receive(ReceiveAll(v, keeps, batches[..|batches| - 1]), keeps, Adds(batches[|batches| - 1]))
  }

  lemma TakeKeepsDistinct(es: seq<KubeEvent>, more: seq<KubeEvent>, n: nat)
    requires DistinctUids(es + more)
    ensures DistinctUids(Take(SortMessages(es), n) + more)
  {
    MessagesAreSorted(es);
    var s := SortMessages(es);
    assert DistinctUids(es) by {
      assert forall i :: 0 <= i < |es| ==> es[i] == (es + more)[i];
    }
    SortKeepsDistinct(es);
    forall i, j | 0 <= i < |s| && 0 <= j < |more| ensures s[i].uid != more[j].uid {
      assert s[i] in multiset(s);
      assert s[i] in es;
      var k :| 0 <= k < |es| && es[k] == s[i];
      assert (es + more)[k] == s[i] && (es + more)[|es| + j] == more[j];
    }
    forall i, j | 0 <= i < j < |more| ensures more[i].uid != more[j].uid {
      assert (es + more)[|es| + i] == more[i] && (es + more)[|es| + j] == more[j];
    }
  }

  lemma {:induction false} SortKeepsDistinct(es: seq<KubeEvent>)
    requires DistinctUids(es)
    ensures DistinctUids(SortMessages(es))
    decreases |es|
  {
    if es != [] {
      var n := |es| - 1;
      SortKeepsDistinct(es[..n]);
      MessagesAreSorted(es[..n]);
      forall x | x in SortMessages(es[..n]) ensures x.uid != es[n].uid {
        assert x in multiset(SortMessages(es[..n]));
        assert x in es[..n];
      }
      InsertKeepsDistinct(SortMessages(es[..n]), es[n]);
    }
  }

  lemma {:induction false} InsertKeepsDistinct(es: seq<KubeEvent>, e: KubeEvent)
    requires DistinctUids(es) && forall x :: x in es ==> x.uid != e.uid
    ensures DistinctUids(Insert(es, e, NEWEST_FIRST))
    ensures forall x :: x in Insert(es, e, NEWEST_FIRST) ==> x in es || x == e
    decreases |es|
  {
    if es != [] && Before(es[0], e) {
      InsertKeepsDistinct(es[1..], e);
      assert es[0] in es;
      forall x | x in Insert(es[1..], e, NEWEST_FIRST) ensures x.uid != es[0].uid {
        if x in es[1..] {
          var i :| 0 <= i < |es| - 1 && es[1..][i] == x;
          assert es[i + 1] == x;
        }
      }
    }
  }

  /** However ADDED events with distinct uids are batched, the kept list is the first 500 of all of
      them in sorted order: cutting after every batch loses nothing. Equal timestamps are allowed. */
  lemma {:induction false} BatchingIsIrrelevant(v: View, keeps: Keeps, batches: seq<seq<KubeEvent>>)
    requires v.messages == [] && v.sorted == []
    requires DistinctUids(Flat(batches))
    ensures var w := ReceiveAll(v, keeps, batches);
      w.sorted == Take(SortMessages(Flat(batches)), 500) && w.messages == w.sorted
    decreases |batches|
  {
    if batches != [] {
      var n := |batches| - 1;
      var past, now := Flat(batches[..n]), batches[n];
      assert DistinctUids(past) by {
        assert forall i :: 0 <= i < |past| ==> past[i] == Flat(batches)[i];
      }
      BatchingIsIrrelevant(v, keeps, batches[..n]);
      var w := ReceiveAll(v, keeps, batches[..n]);
      TakeKeepsDistinct(past, now, MAX_MESSAGES);
      AddsAppend(w.messages, now);
      BeforeIsWeakOrder(past);
      TruncateEarly(past, now, MAX_MESSAGES, NEWEST_FIRST);
      SortKeepsDistinct(w.messages + now);
      var kept := Take(SortMessages(w.messages + now), MAX_MESSAGES);
      KeyByDistinct(kept);
      if w.messages + now == [] {
        assert w.messages == [] && now == [];
        assert Take(SortMessages([]), MAX_MESSAGES) == [];
      }
    }
  }

  // ---- what holds in every reachable state ----

  /** The dictionary and the shown list hold the same events. */
  ghost predicate Synced(v: View) {
    v.messages == v.sorted
  }

  ghost predicate ViewInv(v: View, keeps: Keeps) {
    && DistinctUids(v.messages) && DistinctUids(v.sorted) && NewestFirst(v.sorted) && |v.sorted| <= MAX_MESSAGES
    && (v.messages == [] || Synced(v))
    && (forall e :: e in v.sorted ==> v.oldest <= e.lastTimestamp)
    && v.book == v.props && v.filtered == Filter(v.sorted, keeps, v.props)
  }

  lemma FlushResult(v: View, keeps: Keeps)
    requires DistinctUids(v.messages) && v.messages != []
    ensures var w := Flush(v, keeps);
      && w.sorted == Take(SortMessages(v.messages), MAX_MESSAGES) && w.messages == w.sorted && w.sorted != []
      && DistinctUids(w.sorted) && NewestFirst(w.sorted)
      && w.filtered == Filter(w.sorted, keeps, v.props) && w.props == v.props && w.book == v.book
      && (forall e :: e in w.sorted ==> w.oldest <= e.lastTimestamp)
  {
    MessagesAreSorted(v.messages);
    SortKeepsDistinct(v.messages);
    var all := SortMessages(v.messages);
    var kept := Take(all, MAX_MESSAGES);
    KeyByDistinct(kept);
    forall i | 0 <= i < |all| ensures all[|all| - 1].lastTimestamp <= all[i].lastTimestamp {
      assert i < |all| - 1 ==> Before(all[i], all[|all| - 1]);
    }
  }

  lemma StepKeepsInv(v: View, keeps: Keeps, i: Input)
    requires ViewInv(v, keeps)
    ensures ViewInv(Step(v, keeps, i), keeps)
  {
    match i
    case Batch(changes) =>
      var m := ApplyAll(v.messages, changes);
      ApplyAllKeepsDistinct(v.messages, changes);
      if m != [] {
        FlushResult(v.(messages := m), keeps);
      }
    case SocketReset =>
    case NewProps(props) =>
  }

  /** In every reachable state, whatever the row filter: the cached rows are the shown list filtered
      with the current props; the list is sorted, has distinct uids and at most 500 events. */
  lemma {:induction false} RunKeepsInv(v: View, keeps: Keeps, inputs: seq<Input>)
    requires ViewInv(v, keeps)
    ensures ViewInv(Run(v, keeps, inputs), keeps)
    decreases |inputs|
  {
    if inputs != [] {
      StepKeepsInv(v, keeps, inputs[0]);
      RunKeepsInv(Step(v, keeps, inputs[0]), keeps, inputs[1..]);
    }
  }

  /** The rows are exactly the events that pass, as often and in the order in which they are listed. */
  ghost predicate RowsPass(rows: seq<KubeEvent>, es: seq<KubeEvent>, keeps: Keeps, props: Props) {
    && Picked(rows, es, (e: KubeEvent) => keeps(props, e))
    && (forall e :: e in rows <==> e in es && keeps(props, e))
  }

  lemma FilterSnoc(init: seq<KubeEvent>, last: KubeEvent, keeps: Keeps, props: Props)
    ensures Filter(init + [last], keeps, props) ==
            if keeps(props, last) then Filter(init, keeps, props) + [last] else Filter(init, keeps, props)
  {
    assert (init + [last])[..|init|] == init;
  }

  lemma {:induction false} FilterPicksPassing(
    es: seq<KubeEvent>, keeps: Keeps, props: Props, passes: KubeEvent -> bool)
    requires forall e :: passes(e) == keeps(props, e)
    ensures Picked(Filter(es, keeps, props), es, passes)
    decreases |es|
  {
    if es == [] {
      PickedNothing(passes);
    } else {
      var init, last := es[..|es| - 1], es[|es| - 1];
      assert es == init + [last];
      FilterPicksPassing(init, keeps, props, passes);
      PickedSnoc(Filter(init, keeps, props), init, last, passes);
      FilterSnoc(init, last, keeps, props);
    }
  }

  lemma FilterPicks(es: seq<KubeEvent>, keeps: Keeps, props: Props)
    ensures RowsPass(Filter(es, keeps, props), es, keeps, props)
  {
    var passes := (e: KubeEvent) => keeps(props, e);
    FilterPicksPassing(es, keeps, props, passes);
    PickedMembers(Filter(es, keeps, props), es, passes);
  }

  /** The props that were set last. */
  function LastProps(props: Props, inputs: seq<Input>): Props {
    if inputs == [] then props
    else
      var last := inputs[|inputs| - 1];
      if last.NewProps? then last.props else LastProps(props, inputs[..|inputs| - 1])
  }

  lemma {:induction false} RunConcat(v: View, keeps: Keeps, a: seq<Input>, b: seq<Input>)
    ensures Run(v, keeps, a + b) == Run(Run(v, keeps, a), keeps, b)
    decreases |a|
  {
    if a == [] {
      assert a + b == b;
    } else {
      assert (a + b)[1..] == a[1..] + b;
      RunConcat(Step(v, keeps, a[0]), keeps, a[1..], b);
    }
  }

  lemma {:induction false} RunHasLastProps(v: View, keeps: Keeps, inputs: seq<Input>)
    ensures Run(v, keeps, inputs).props == LastProps(v.props, inputs)
    decreases |inputs|
  {
    if inputs != [] {
      var n := |inputs| - 1;
      assert inputs == inputs[..n] + [inputs[n]];
      RunConcat(v, keeps, inputs[..n], [inputs[n]]);
      RunHasLastProps(v, keeps, inputs[..n]);
      var w := Run(v, keeps, inputs[..n]);
      assert Run(w, keeps, [inputs[n]]) == Step(w, keeps, inputs[n]);
    }
  }

  /** In every reachable state an event is among the rows if and only if it is on the shown list and passes
      the props that were set last; the rows keep the order of the list, which is sorted, has distinct uids
      and at most 500 events. */
  lemma CacheIsCurrent(props: Props, keeps: Keeps, now: int, inputs: seq<Input>)
    ensures var v := Run(Mounted(props, keeps, now), keeps, inputs);
      && ViewInv(v, keeps) && |v.sorted| <= 500
      && RowsPass(v.filtered, v.sorted, keeps, LastProps(props, inputs))
      && v.props == LastProps(props, inputs)
  {
    var v := Run(Mounted(props, keeps, now), keeps, inputs);
    RunKeepsInv(Mounted(props, keeps, now), keeps, inputs);
    RunHasLastProps(Mounted(props, keeps, now), keeps, inputs);
    FilterPicks(v.sorted, keeps, v.props);
  }

  // ---- a reset forgets everything ----

  /** The same but for the oldest time seen. */
  ghost predicate Alike(v: View, w: View) {
    v.(oldest := w.oldest) == w
  }

  lemma {:induction false} RunsAlike(v: View, w: View, keeps: Keeps, inputs: seq<Input>)
    requires Alike(v, w)
    ensures Alike(Run(v, keeps, inputs), Run(w, keeps, inputs))
    decreases |inputs|
  {
    if inputs != [] {
      RunsAlike(Step(v, keeps, inputs[0]), Step(w, keeps, inputs[0]), keeps, inputs[1..]);
    }
  }

  /** After the socket opened, closed or failed, the component shows and stores what a new one with the
      current props would, whatever it had received before. */
  lemma ResetForgets(props: Props, keeps: Keeps, now: int, past: seq<Input>, later: seq<Input>)
    ensures var v := Run(Mounted(props, keeps, now), keeps, past + [SocketReset] + later);
      var w := Run(Mounted(LastProps(props, past), keeps, now), keeps, later);
      v.messages == w.messages && v.sorted == w.sorted && v.filtered == w.filtered && v.props == w.props
  {
    var start := Mounted(props, keeps, now);
    var v := Run(start, keeps, past);
    RunConcat(start, keeps, past + [SocketReset], later);
    RunConcat(start, keeps, past, [SocketReset]);
    assert Run(v, keeps, [SocketReset]) == Step(v, keeps, SocketReset);
    RunHasLastProps(start, keeps, past);
    RunKeepsInv(start, keeps, past);
    RunsAlike(Step(v, keeps, SocketReset), Mounted(v.props, keeps, now), keeps, later);
  }

  // ---- the oldest time ----

  /** The dictionary as each batch of a run leaves it to its flush. */
  function Flushed(v: View, keeps: Keeps, inputs: seq<Input>): seq<KubeEvent>
    decreases |inputs|
  {
    if inputs == [] then []
    else
      (if inputs[0].Batch? then ApplyAll(v.messages, inputs[0].changes) else [])
      + Flushed(Step(v, keeps, inputs[0]), keeps, inputs[1..])
  }

  ghost predicate IsMinimum(t: int, start: int, es: seq<KubeEvent>) {
    && t <= start && (forall e :: e in es ==> t <= e.lastTimestamp)
    && (t == start || exists e :: e in es && e.lastTimestamp == t)
  }

  lemma FlushTakesMinimum(v: View, keeps: Keeps)
    ensures IsMinimum(Flush(v, keeps).oldest, v.oldest, v.messages)
  {
    if v.messages != [] {
      var all := SortMessages(v.messages);
      MessagesAreSorted(v.messages);
      SameMembers(all, v.messages);
      assert all[|all| - 1] in v.messages;
      forall e | e in v.messages ensures all[|all| - 1].lastTimestamp <= e.lastTimestamp {
        assert e in all;
        var i :| 0 <= i < |all| && all[i] == e;
      }
    }
  }

  lemma MinimumOfBoth(t: int, u: int, start: int, a: seq<KubeEvent>, b: seq<KubeEvent>)
    requires IsMinimum(t, start, a) && IsMinimum(u, t, b)
    ensures IsMinimum(u, start, a + b)
  {
    if u == t && t != start {
      var e :| e in a && e.lastTimestamp == t;
      assert e in a + b;
    } else if u != t {
      var e :| e in b && e.lastTimestamp == u;
      assert e in a + b;
    }
  }

  lemma {:induction false} RunTakesMinimum(v: View, keeps: Keeps, inputs: seq<Input>)
    ensures IsMinimum(Run(v, keeps, inputs).oldest, v.oldest, Flushed(v, keeps, inputs))
    decreases |inputs|
  {
    if inputs != [] {
      var w := Step(v, keeps, inputs[0]);
      var now := if inputs[0].Batch? then ApplyAll(v.messages, inputs[0].changes) else [];
      if inputs[0].Batch? {
        FlushTakesMinimum(v.(messages := now), keeps);
      }
      RunTakesMinimum(w, keeps, inputs[1..]);
      MinimumOfBoth(w.oldest, Run(w, keeps, inputs[1..]).oldest, v.oldest, now, Flushed(w, keeps, inputs[1..]));
    }
  }

  /** The time shown as the oldest is the smallest of the time of mounting and the times of all events ever
      in the dictionary at a flush, those cut from the list and those forgotten by a reset included. */
  lemma OldestIsMinimum(props: Props, keeps: Keeps, now: int, inputs: seq<Input>)
    ensures var start := Mounted(props, keeps, now);
      IsMinimum(Run(start, keeps, inputs).oldest, now, Flushed(start, keeps, inputs))
  {
    RunTakesMinimum(Mounted(props, keeps, now), keeps, inputs);
  }

  /** After a batch the dictionary's keys are the uids of the shown list if and only if the batch
      left something in the dictionary, or nothing was shown: a batch that deletes the last message
      throws before it updates the list. */
  lemma BatchSyncs(v: View, keeps: Keeps, batch: seq<Change>)
    requires ViewInv(v, keeps)
    ensures var w := Receive(v, keeps, batch);
      && (Uids(w.messages) == Uids(w.sorted) <==> ApplyAll(v.messages, batch) != [] || v.sorted == [])
      && |w.messages| <= MAX_MESSAGES
  {
    var m := ApplyAll(v.messages, batch);
    ApplyAllKeepsDistinct(v.messages, batch);
    if m != [] {
      FlushResult(v.(messages := m), keeps);
    } else if v.sorted != [] {
      assert v.sorted[0].uid in Uids(v.sorted);
      assert Uids(m) == {};
    }
  }

  /** A stored count never decreases: for a uid stored before and after a run of batches that never
      drop it in between, the later count is at least the earlier one. */
  ghost predicate NeverDropped(v: View, keeps: Keeps, batches: seq<seq<Change>>, uid: string)
    decreases |batches|
  {
    && Find(v.messages, uid).Some?
    && (batches != [] ==>
          && NotDeleted(batches[0], uid)
          && NeverDropped(Receive(v, keeps, batches[0]), keeps, batches[1..], uid))
  }

  predicate NotDeleted(batch: seq<Change>, uid: string) {
    forall c :: c in batch ==> !(c.kind == DELETED && c.event.uid == uid)
  }

  /** They can come apart: an event that is added and deleted in the next batch stays on the list. */
  lemma DeletedEventStays(props: Props, keeps: Keeps, now: int, e: KubeEvent)
    ensures var v := Run(Mounted(props, keeps, now), keeps, [Batch([Change(ADDED, e)]), Batch([Change(DELETED, e)])]);
      v.messages == [] && v.sorted == [e]
  {
    var v0 := Mounted(props, keeps, now);
    var b1, b2 := [Change(ADDED, e)], [Change(DELETED, e)];
    var v1, v2 := Receive(v0, keeps, b1), Receive(Receive(v0, keeps, b1), keeps, b2);
    assert b1[..0] == [] && b2[..0] == [];
    assert ApplyAll([], b1) == Apply([], b1[0]) == [e];
    OneMessage(v0.(messages := [e]), keeps, e);
    assert ApplyAll([e], b2) == Apply([e], b2[0]) == [];
    var inputs := [Batch(b1), Batch(b2)];
    assert inputs[1..] == [Batch(b2)] && inputs[1..][1..] == [];
    assert Run(v1, keeps, [Batch(b2)]) == v2;
  }

  lemma OneMessage(v: View, keeps: Keeps, e: KubeEvent)
    requires v.messages == [e]
    ensures Flush(v, keeps).messages == [e] && Flush(v, keeps).sorted == [e]
  {
    assert [e][..0] == [];
    assert SortMessages([e]) == [e];
    assert KeyBy([e]) == [e];
  }

  function BatchRun(v: View, keeps: Keeps, batches: seq<seq<Change>>): View
    decreases |batches|
  {
    if batches == [] then v else BatchRun(Receive(v, keeps, batches[0]), keeps, batches[1..])
  }

  lemma {:induction false} FoldNeverLowersCount(ms: seq<KubeEvent>, batch: seq<Change>, uid: string)
    requires DistinctUids(ms) && Find(ms, uid).Some? && NotDeleted(batch, uid)
    ensures Find(ApplyAll(ms, batch), uid).Some?
    ensures Find(ApplyAll(ms, batch), uid).value.count >= Find(ms, uid).value.count
    decreases |batch|
  {
    if batch != [] {
      var n := |batch| - 1;
      FoldNeverLowersCount(ms, batch[..n], uid);
      var m := ApplyAll(ms, batch[..n]);
      ApplyAllKeepsDistinct(ms, batch[..n]);
      PutLaws(m, batch[n].event, uid);
      RemoveLaws(m, batch[n].event.uid, uid);
      assert batch[n] in batch;
    }
  }

  predicate Stores(c: Change, uid: string) {
    c.kind in {ADDED, MODIFIED} && c.event.uid == uid
  }

  /** Of all versions of an event that a batch brings, one with the highest count is stored. */
  lemma {:induction false} BatchStoresHighest(ms: seq<KubeEvent>, batch: seq<Change>, uid: string)
    requires DistinctUids(ms) && NotDeleted(batch, uid)
    ensures var found := Find(ApplyAll(ms, batch), uid);
      && (forall c :: c in batch && Stores(c, uid) ==> found.Some? && c.event.count <= found.value.count)
      && (found == Find(ms, uid) || exists c :: c in batch && Stores(c, uid) && found == Some(c.event))
    decreases |batch|
  {
    if batch != [] {
      var init, last := batch[..|batch| - 1], batch[|batch| - 1];
      assert batch == init + [last];
      assert last in batch && forall c :: c in init ==> c in batch;
      BatchStoresHighest(ms, init, uid);
      ApplyAllKeepsDistinct(ms, init);
      ApplyStores(ApplyAll(ms, init), last, uid);
    }
  }

  /** What one change does to one uid. */
  lemma ApplyStores(ms: seq<KubeEvent>, c: Change, uid: string)
    requires DistinctUids(ms)
    ensures var was, now := Find(ms, uid), Find(Apply(ms, c), uid);
      if c.event.uid != uid || c.kind == OTHER then now == was
      else if c.kind == DELETED then now == None
      else now.Some? && now.value.count >= c.event.count && (was.Some? ==> now.value.count >= was.value.count)
           && (now == was || now == Some(c.event))
           && (was.None? || was.value.count <= c.event.count ==> now == Some(c.event))
  {
    PutLaws(ms, c.event, uid);
    RemoveLaws(ms, c.event.uid, uid);
  }

  /** A flush changes no stored event, it only drops some. */
  lemma FlushKeepsStored(v: View, keeps: Keeps, uid: string)
    requires DistinctUids(v.messages) && Find(Flush(v, keeps).messages, uid).Some?
    ensures Find(v.messages, uid) == Find(Flush(v, keeps).messages, uid)
  {
    if v.messages != [] {
      FlushResult(v, keeps);
      MessagesAreSorted(v.messages);
      var w := Flush(v, keeps).messages;
      FindMember(w, uid);
      FindMember(v.messages, uid);
      var e := Find(w, uid).value;
      assert e in SortMessages(v.messages);
      assert e in multiset(SortMessages(v.messages));
      assert e in v.messages;
      UniqueByUid(v.messages, e);
    }
  }

  lemma {:induction false} UniqueByUid(ms: seq<KubeEvent>, e: KubeEvent)
    requires DistinctUids(ms) && e in ms
    ensures Find(ms, e.uid) == Some(e)
    decreases |ms|
  {
    if ms[0] != e {
      assert e in ms[1..];
      UniqueByUid(ms[1..], e);
    }
  }

  lemma {:induction false} CountNeverDecreases(v: View, keeps: Keeps, batches: seq<seq<Change>>, uid: string)
    requires ViewInv(v, keeps) && NeverDropped(v, keeps, batches, uid)
    ensures Find(BatchRun(v, keeps, batches).messages, uid).Some?
    ensures Find(BatchRun(v, keeps, batches).messages, uid).value.count >= Find(v.messages, uid).value.count
    decreases |batches|
  {
    if batches != [] {
      var m := ApplyAll(v.messages, batches[0]);
      var w := Receive(v, keeps, batches[0]);
      ApplyAllKeepsDistinct(v.messages, batches[0]);
      FoldNeverLowersCount(v.messages, batches[0], uid);
      FlushKeepsStored(v.(messages := m), keeps, uid);
      StepKeepsInv(v, keeps, Batch(batches[0]));
      CountNeverDecreases(w, keeps, batches[1..], uid);
    }
  }
}
