/** The component itself: the bulk handler and flushMessages on fields. */
module EventStreamComponent {
  import opened EventStreamModel
  import opened EventStreamLaws
  import opened Sorting

  class EventStream {
    const keeps: Keeps
    var messages: seq<KubeEvent>
    var sortedMessages: seq<KubeEvent>
    var filteredEvents: seq<KubeEvent>
    var oldestTimestamp: int
    var props: Props
    var seenProps: Props

    ghost function State(): View
      reads this
    {
      View(messages, sortedMessages, filteredEvents, oldestTimestamp, props, seenProps)
    }

    constructor (props: Props, keeps: Keeps, now: int)
      ensures State() == Mounted(props, keeps, now) && this.keeps == keeps
    {
      this.keeps := keeps;
      messages, sortedMessages, filteredEvents := [], [], [];
      oldestTimestamp, this.props, seenProps := now, props, NO_PROPS;
      new;
      DeriveState();
    }

    method DeriveState()
      modifies this
      ensures State() == Derive(old(State()), keeps)
      ensures old(seenProps) != props ==> RowsPass(filteredEvents, sortedMessages, keeps, props)
    {
      if seenProps == props {
        return;
      }
      filteredEvents := FilterEvents(sortedMessages);
      seenProps := props;
    }

    method FilterEvents(es: seq<KubeEvent>) returns (r: seq<KubeEvent>)
      ensures r == Filter(es, keeps, props) && RowsPass(r, es, keeps, props)
    {
      r := [];
      var i := 0;
      while i < |es|
        invariant 0 <= i <= |es| && r == Filter(es[..i], keeps, props)
      {
        assert es[..i + 1][..i] == es[..i];
        if keeps(props, es[i]) {
          r := r + [es[i]];
        }
        i := i + 1;
      }
      assert es[..i] == es;
      FilterPicks(es, keeps, props);
    }

    method SetProps(next: Props)
      modifies this
      ensures State() == Step(old(State()), keeps, NewProps(next))
      ensures old(seenProps) != next ==> RowsPass(filteredEvents, sortedMessages, keeps, next)
    {
      props := next;
      DeriveState();
    }

    /** onopen, onclose and onerror */
    method OnSocket()
      modifies this
      ensures State() == Step(old(State()), keeps, SocketReset)
    {
      messages := [];
      sortedMessages, filteredEvents := [], [];
    }

    method OnBulkMessage(events: seq<Change>)
      modifies this
      ensures State() == Step(old(State()), keeps, Batch(events))
    {
      var i := 0;
      while i < |events|
        invariant 0 <= i <= |events|
        invariant State() == old(State()).(messages := ApplyAll(old(messages), events[..i]))
      {
        assert events[..i + 1][..i] == events[..i];
        var c := events[i];
        i := i + 1;
        if c.kind == DELETED {
          messages := Remove(messages, c.event.uid);
        } else if c.kind != OTHER {
          var known := Find(messages, c.event.uid);
          if known.Some? && known.value.count > c.event.count {
            continue;
          }
          messages := Put(messages, c.event);
        }
      }
      assert events[..i] == events;
      FlushMessages();
    }

    method FlushMessages()
      modifies this
      ensures State() == Flush(old(State()), keeps)
      ensures old(messages) != [] ==> RowsPass(filteredEvents, sortedMessages, keeps, props)
    {
      var sorted := SortMessages(messages);
      if sorted == [] {
        return;   // reading the timestamp of the last of no messages throws
      }
      oldestTimestamp := Min(oldestTimestamp, sorted[|sorted| - 1].lastTimestamp);
      sorted := Take(sorted, MAX_MESSAGES);
      sortedMessages := sorted;
      filteredEvents := FilterEvents(sorted);
      messages := KeyBy(sorted);
    }
  }
}
