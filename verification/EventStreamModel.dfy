/** The event stream cache: a dictionary of the newest events, cut to 500 after every batch, and a
    cached filtered view of it. */
module EventStreamModel {
  import opened Options
  import opened Sorting

  const MAX_MESSAGES: nat := 500

  datatype KubeEvent = KubeEvent(uid: string, lastTimestamp: int, name: int, count: int, body: string)

  datatype ChangeType = ADDED | MODIFIED | DELETED | OTHER

  datatype Change = Change(kind: ChangeType, event: KubeEvent)

  datatype Props = Props(
    kind: Option<string>, category: Option<string>, filter: Option<map<string, string>>, textFilter: Option<string>)

  const NO_PROPS := Props(None, None, None, None)

  // ---- the message dictionary: entries in insertion order, one per uid ----

  /** Overwriting keeps the place of the key; a new key goes to the end. */
  function Put(ms: seq<KubeEvent>, e: KubeEvent): seq<KubeEvent> {
    if ms == [] then [e]
    else if ms[0].uid == e.uid then [e] + ms[1..]
    else [ms[0]] + Put(ms[1..], e)
  }

  function Remove(ms: seq<KubeEvent>, uid: string): seq<KubeEvent> {
    if ms == [] then [] else if ms[0].uid == uid then ms[1..] else [ms[0]] + Remove(ms[1..], uid)
  }

  function Find(ms: seq<KubeEvent>, uid: string): Option<KubeEvent> {
    if ms == [] then None else if ms[0].uid == uid then Some(ms[0]) else Find(ms[1..], uid)
  }

  function KeyBy(es: seq<KubeEvent>): seq<KubeEvent> {
    if es == [] then [] else Put(KeyBy(es[..|es| - 1]), es[|es| - 1])
  }

  // ---- one batch ----

  function Apply(ms: seq<KubeEvent>, c: Change): seq<KubeEvent> {
    match c.kind
    case DELETED => Remove(ms, c.event.uid)
    case OTHER => ms
    case _ =>
      var known := Find(ms, c.event.uid);
      if known.Some? && known.value.count > c.event.count then ms else Put(ms, c.event)
  }

  function ApplyAll(ms: seq<KubeEvent>, batch: seq<Change>): seq<KubeEvent> {
    if batch == [] then ms else Apply(ApplyAll(ms, batch[..|batch| - 1]), batch[|batch| - 1])
  }

  /** Newest first, then by name: the order of _.orderBy. */
  predicate Before(a: KubeEvent, b: KubeEvent) {
    a.lastTimestamp > b.lastTimestamp || (a.lastTimestamp == b.lastTimestamp && a.name <= b.name)
  }

  const NEWEST_FIRST: Order<KubeEvent> := (a, b) => Before(a, b)

  function SortMessages(es: seq<KubeEvent>): (r: seq<KubeEvent>)
    ensures |r| == |es|
  {
    Sort(es, NEWEST_FIRST)
  }

  // ---- the component ----

  /** `keeps` stands for the row filter, about which nothing is assumed. `book` is the copy of the
      filter props that the state remembers. */
  datatype View = View(
    messages: seq<KubeEvent>, sorted: seq<KubeEvent>, filtered: seq<KubeEvent>,
    oldest: int, props: Props, book: Props)

  type Keeps = (Props, KubeEvent) -> bool

  function Filter(es: seq<KubeEvent>, keeps: Keeps, props: Props): seq<KubeEvent> {
    if es == [] then []
    else
      var rest := Filter(es[..|es| - 1], keeps, props);
      if keeps(props, es[|es| - 1]) then rest + [es[|es| - 1]] else rest
  }

  function Min(a: int, b: int): int {
    if a <= b then a else b
  }

  /** flushMessages. On an empty dictionary it throws before it changes anything. */
  function Flush(v: View, keeps: Keeps): View {
    if v.messages == [] then v
    else
      var all := SortMessages(v.messages);
      var kept := Take(all, MAX_MESSAGES);
      v.(oldest := Min(v.oldest, all[|all| - 1].lastTimestamp), sorted := kept,
         filtered := Filter(kept, keeps, v.props), messages := KeyBy(kept))
  }

  function Receive(v: View, keeps: Keeps, batch: seq<Change>): View {
    Flush(v.(messages := ApplyAll(v.messages, batch)), keeps)
  }

  /** The socket opened, closed or failed. */
  function Reset(v: View): View {
    v.(messages := [], sorted := [], filtered := [])
  }

  /** getDerivedStateFromProps */
  function Derive(v: View, keeps: Keeps): View {
    if v.book == v.props then v
    else v.(filtered := Filter(v.sorted, keeps, v.props), book := v.props)
  }

  datatype Input = Batch(changes: seq<Change>) | SocketReset | NewProps(props: Props)

  function Step(v: View, keeps: Keeps, i: Input): View {
    match i
    case Batch(changes) => Receive(v, keeps, changes)
    case SocketReset => Reset(v)
    case NewProps(props) => Derive(v.(props := props), keeps)
  }

  function Run(v: View, keeps: Keeps, inputs: seq<Input>): View
    decreases |inputs|
  {
    if inputs == [] then v else Run(Step(v, keeps, inputs[0]), keeps, inputs[1..])
  }

  function Mounted(props: Props, keeps: Keeps, now: int): View {
    Derive(View([], [], [], now, props, NO_PROPS), keeps)
  }
}
