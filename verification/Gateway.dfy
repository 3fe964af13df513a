/** Delivery, queueing and reconnection in the gateway control plane (`gateway_server.py`), as a state
    machine whose steps are the stretches of code between two awaits.

    The only awaits of a delivery or a flush are the ones on a send, so what is suspended there is a message
    in flight.  Every other coroutine may run any number of steps before that send returns or throws. */
module Gateway {
  import opened Text

  const MAX_QUEUE_SIZE := 1000

  datatype ChannelStatusType = Connected | Disconnected | Error

  datatype OutboundMessage = OutboundMessage(channel: string, text: string)

  /** The fields of a channel adapter that the protocol uses. */
  datatype Adapter = Adapter(
    socket: Option<nat>,
    status: ChannelStatusType,
    queue: seq<OutboundMessage>,
    sent: nat,
    errors: nat)
  {
    predicate IsConnected() {
      socket.Some? && status == Connected
    }

    function MarkConnected(s: nat): Adapter {
      this.(socket := Some(s), status := Connected)
    }

    function MarkDisconnected(error: bool): Adapter {
      this.(socket := None, status := Disconnected, errors := errors + if error then 1 else 0)
    }

    function MarkError(): Adapter {
      this.(status := Error, errors := errors + 1)
    }

    /** A status message from the adapter itself. */
    function Report(s: ChannelStatusType): Adapter {
      var told := this.(status := s);
      if s == Error then told.MarkError() else told
    }
  }

  const NEW_ADAPTER := Adapter(None, Disconnected, [], 0, 0)

  /** What happened on a channel so far.  `overlap` is the largest number of flushes that were in progress
      when a message was queued. */
  datatype Log = Log(
    offered: seq<OutboundMessage>,
    refused: seq<OutboundMessage>,
    sent: seq<OutboundMessage>,
    enqueued: seq<OutboundMessage>,
    flushed: seq<OutboundMessage>,
    overlap: nat)

  /** An adapter, the messages whose send is pending in a delivery or in a flush, and the log. */
  datatype Line = Line(
    adapter: Adapter,
    direct: seq<OutboundMessage>,
    flushing: seq<OutboundMessage>,
    log: Log)

  const NEW_LINE := Line(NEW_ADAPTER, [], [], Log([], [], [], [], [], 0))

  datatype Event =
    | Register(socket: nat)
    | Unregister(error: bool)
    | StatusMessage(status: ChannelStatusType)
    | HandlerError                       // handling a message of the adapter throws
    | Deliver(message: OutboundMessage)
    | DirectSent(i: nat)                 // a delivery's send returns
    | DirectFailed(i: nat)               // or throws
    | FlushStart
    | FlushSent(i: nat)                  // a flush's send returns, and the flush goes on
    | FlushFailed(i: nat)

  function Removed<T>(s: seq<T>, i: nat): seq<T>
    requires i < |s|
  {
    s[..i] + s[i + 1..]
  }

  function Max(a: nat, b: nat): nat {
    if a < b then b else a
  }

  predicate LineEnabled(l: Line, e: Event) {
    match e
    case DirectSent(i) => i < |l.direct|
    case DirectFailed(i) => i < |l.direct|
    case FlushSent(i) => i < |l.flushing|
    case FlushFailed(i) => i < |l.flushing|
    case _ => true
  }

  /** Queue for later delivery, unless the queue is full. */
  function Enqueue(l: Line, m: OutboundMessage): Line {
    if |l.adapter.queue| >= MAX_QUEUE_SIZE then
      l.(log := l.log.(refused := l.log.refused + [m]))
    else
      l.(adapter := l.adapter.(queue := l.adapter.queue + [m]),
         log := l.log.(enqueued := l.log.enqueued + [m], overlap := Max(l.log.overlap, |l.flushing|)))
  }

  function Accept(l: Line, m: OutboundMessage): Line {
    var offered := l.(log := l.log.(offered := l.log.offered + [m]));
    if l.adapter.IsConnected() then offered.(direct := l.direct + [m]) else Enqueue(offered, m)
  }

  function Sent(l: Line, m: OutboundMessage): Line {
    l.(adapter := l.adapter.(sent := l.adapter.sent + 1), log := l.log.(sent := l.log.sent + [m]))
  }

  /** Does the flush loop take another message? */
  predicate Flushable(a: Adapter) {
    a.IsConnected() && a.queue != []
  }

  function FlushedOne(l: Line, i: nat): Line
    requires i < |l.flushing|
  {
    var m := l.flushing[i];
    var done := Sent(l, m);
    var noted := done.(log := done.log.(flushed := done.log.flushed + [m]));
    if Flushable(l.adapter) then
      noted.(flushing := l.flushing[i := l.adapter.queue[0]],
             adapter := noted.adapter.(queue := l.adapter.queue[1..]))
    else
      noted.(flushing := Removed(l.flushing, i))
  }

  function LineStep(l: Line, e: Event): Line
    requires LineEnabled(l, e)
  {
    match e
    case Register(s) => l.(adapter := l.adapter.MarkConnected(s))
    case Unregister(error) => l.(adapter := l.adapter.MarkDisconnected(error))
    case StatusMessage(s) => l.(adapter := l.adapter.Report(s))
    case HandlerError => l.(adapter := l.adapter.MarkError())
    case Deliver(m) => Accept(l, m)
    case DirectSent(i) => Sent(l, l.direct[i]).(direct := Removed(l.direct, i))
    case DirectFailed(i) =>
      Enqueue(l.(adapter := l.adapter.MarkError(), direct := Removed(l.direct, i)), l.direct[i])
    case FlushStart =>
      if Flushable(l.adapter) then
        l.(flushing := l.flushing + [l.adapter.queue[0]],
           adapter := l.adapter.(queue := l.adapter.queue[1..]))
      else l
    case FlushSent(i) => FlushedOne(l, i)
    case FlushFailed(i) =>
      l.(adapter := l.adapter.(queue := [l.flushing[i]] + l.adapter.queue).MarkError(),
         flushing := Removed(l.flushing, i))
  }

  // ---------------------------------------------------------------- the control plane

  datatype Plane = Plane(lines: map<string, Line>, delivered: nat, connections: nat)

  const EMPTY_PLANE := Plane(map[], 0, 0)

  predicate Enabled(p: Plane, c: string, e: Event) {
    && (e.Deliver? ==> e.message.channel == c)
    && (if c in p.lines then LineEnabled(p.lines[c], e) else e.Register? || e.Unregister? || e.Deliver?)
  }

  /** One step on the channel `c`.  Only a registration adds a channel, and none is ever removed. */
  function Step(p: Plane, c: string, e: Event): Plane
    requires Enabled(p, c, e)
  {
    if c in p.lines then
      p.(lines := p.lines[c := LineStep(p.lines[c], e)],
         delivered := p.delivered + if e.DirectSent? || e.FlushSent? then 1 else 0)
    else if e.Register? then
      p.(lines := p.lines[c := LineStep(NEW_LINE, e)], connections := p.connections + 1)
    else p
  }

  // ---------------------------------------------------------------- the ledger

  /** Every message a delivery was offered is sent, queued, in flight or refused, and only once. */
  ghost predicate Ledger(l: Line) {
    multiset(l.log.offered)
    == multiset(l.log.sent) + multiset(l.adapter.queue) + multiset(l.direct) + multiset(l.flushing)
       + multiset(l.log.refused)
  }

  lemma RemovedMultiset<T>(s: seq<T>, i: nat)
    requires i < |s|
    ensures multiset(s) == multiset(Removed(s, i)) + multiset{s[i]}
  {
    SplitAt(s, i);
    assert s == s[..i] + ([s[i]] + s[i + 1..]);
  }

  lemma HeadMultiset<T>(s: seq<T>)
    requires s != []
    ensures multiset(s) == multiset(s[1..]) + multiset{s[0]}
  {
    assert s == [s[0]] + s[1..];
  }

  lemma ReplacedMultiset<T>(s: seq<T>, i: nat, x: T)
    requires i < |s|
    ensures multiset(s[i := x]) + multiset{s[i]} == multiset(s) + multiset{x}
  {
    RemovedMultiset(s, i);
    RemovedMultiset(s[i := x], i);
    assert Removed(s[i := x], i) == Removed(s, i);
  }

  lemma EnqueueKeepsLedger(l: Line, m: OutboundMessage)
    requires multiset(l.log.offered)
          == multiset(l.log.sent) + multiset(l.adapter.queue) + multiset(l.direct) + multiset(l.flushing)
             + multiset(l.log.refused) + multiset{m}
    ensures Ledger(Enqueue(l, m))
  {
  }

  lemma AcceptKeepsLedger(l: Line, m: OutboundMessage)
    requires Ledger(l)
    ensures Ledger(Accept(l, m))
  {
    if !l.adapter.IsConnected() {
      EnqueueKeepsLedger(l.(log := l.log.(offered := l.log.offered + [m])), m);
    }
  }

  lemma DirectSentKeepsLedger(l: Line, i: nat)
    requires Ledger(l) && i < |l.direct|
    ensures Ledger(LineStep(l, DirectSent(i)))
  {
    RemovedMultiset(l.direct, i);
  }

  lemma TakenOut<T>(sent: multiset<T>, queue: multiset<T>, direct: multiset<T>, flushing: multiset<T>,
                    refused: multiset<T>, rest: multiset<T>, taken: multiset<T>)
    requires direct == rest + taken
    ensures sent + queue + direct + flushing + refused == sent + queue + rest + flushing + refused + taken
  {
  }

  lemma DirectFailedKeepsLedger(l: Line, i: nat)
    requires Ledger(l) && i < |l.direct|
    ensures Ledger(Enqueue(l.(adapter := l.adapter.MarkError(), direct := Removed(l.direct, i)), l.direct[i]))
  {
    RemovedMultiset(l.direct, i);
    var m, rest := l.direct[i], Removed(l.direct, i);
    TakenOut(multiset(l.log.sent), multiset(l.adapter.queue), multiset(l.direct), multiset(l.flushing),
             multiset(l.log.refused), multiset(rest), multiset{m});
    EnqueueKeepsLedger(l.(adapter := l.adapter.MarkError(), direct := rest), m);
  }

  lemma FlushSentKeepsLedger(l: Line, i: nat)
    requires Ledger(l) && i < |l.flushing|
    ensures Ledger(FlushedOne(l, i))
  {
    if Flushable(l.adapter) {
      HeadMultiset(l.adapter.queue);
      ReplacedMultiset(l.flushing, i, l.adapter.queue[0]);
    } else {
      RemovedMultiset(l.flushing, i);
    }
  }

  lemma FlushFailedKeepsLedger(l: Line, i: nat)
    requires Ledger(l) && i < |l.flushing|
    ensures Ledger(LineStep(l, FlushFailed(i)))
  {
    RemovedMultiset(l.flushing, i);
    HeadMultiset([l.flushing[i]] + l.adapter.queue);
  }

  lemma StepKeepsLedger(l: Line, e: Event)
    requires LineEnabled(l, e) && Ledger(l)
    ensures Ledger(LineStep(l, e))
  {
    match e
    case Deliver(m) => AcceptKeepsLedger(l, m);
    case DirectSent(i) => DirectSentKeepsLedger(l, i);
    case DirectFailed(i) => DirectFailedKeepsLedger(l, i);
    case FlushStart =>
      if Flushable(l.adapter) {
        HeadMultiset(l.adapter.queue);
      }
    case FlushSent(i) => FlushSentKeepsLedger(l, i);
    case FlushFailed(i) => FlushFailedKeepsLedger(l, i);
    case _ =>
  }

  // ---------------------------------------------------------------- the bound

  /** The queue and the messages taken from it exceed the limit by no more than the number of flushes that
      were in progress while something was queued. */
  ghost predicate Bounded(l: Line) {
    |l.adapter.queue| + |l.flushing| <= MAX_QUEUE_SIZE + l.log.overlap
  }

  lemma StepKeepsBounded(l: Line, e: Event)
    requires LineEnabled(l, e) && Bounded(l)
    ensures Bounded(LineStep(l, e))
  {
  }

  /** What counts against the limit: the queue, and what flushes hold of it. */
  function Load(l: Line): nat {
    |l.adapter.queue| + |l.flushing|
  }

  /** The step queues a message into the gap a flush has left in a full queue. */
  predicate Overfills(l: Line, e: Event) {
    && l.flushing != [] && Load(l) == MAX_QUEUE_SIZE
    && (e.DirectFailed? || (e.Deliver? && !l.adapter.IsConnected()))
  }

  /** A step keeps the limit exactly if it does not fill the gap of a flush. */
  lemma StepKeepsLimitIff(l: Line, e: Event)
    requires LineEnabled(l, e) && Load(l) <= MAX_QUEUE_SIZE
    ensures Load(LineStep(l, e)) <= MAX_QUEUE_SIZE <==> !Overfills(l, e)
  {
  }

  /** A flush puts its message back in front of a full queue. */
  predicate PutsBackOntoFull(l: Line, e: Event) {
    e.FlushFailed? && |l.adapter.queue| == MAX_QUEUE_SIZE
  }

  /** The queue alone passes the limit exactly when a flush puts its message back in front of a full queue. */
  lemma StepKeepsQueueIff(l: Line, e: Event)
    requires LineEnabled(l, e) && |l.adapter.queue| <= MAX_QUEUE_SIZE
    ensures |LineStep(l, e).adapter.queue| <= MAX_QUEUE_SIZE <==> !PutsBackOntoFull(l, e)
  {
  }

  // ---------------------------------------------------------------- the order

  /** Queued messages leave the queue in the order they came. */
  ghost predicate InOrder(l: Line) {
    l.log.flushed + l.flushing + l.adapter.queue == l.log.enqueued
  }

  lemma StepKeepsOrder(l: Line, e: Event)
    requires LineEnabled(l, e) && InOrder(l) && |l.flushing| <= 1
    ensures InOrder(LineStep(l, e))
  {
    var a := l.adapter;
    match e
    case Deliver(m) =>
      ConcatAssoc(l.log.flushed + l.flushing, a.queue, [m]);
    case DirectFailed(i) =>
      ConcatAssoc(l.log.flushed + l.flushing, a.queue, [l.direct[i]]);
    case FlushStart =>
      if Flushable(a) {
        Handover(l.log.flushed, l.flushing, a.queue);
      }
    case FlushSent(i) =>
      assert l.flushing == [l.flushing[0]];
      AppendEmpty(l.log.flushed + l.flushing);
      if Flushable(a) {
        Handover(l.log.flushed, l.flushing, a.queue);
      }
    case FlushFailed(i) =>
      assert l.flushing == [l.flushing[0]];
      AppendEmpty(l.log.flushed);
      ConcatAssoc(l.log.flushed, l.flushing, a.queue);
    case _ =>
  }

  lemma Handover<T>(xs: seq<T>, ys: seq<T>, zs: seq<T>)
    requires zs != []
    ensures xs + ys + zs == xs + (ys + [zs[0]]) + zs[1..]
    ensures xs + ys + zs == xs + ys + [zs[0]] + zs[1..]
  {
  }

  /** If the second flush is done first, its message is flushed in the place of the first. */
  lemma SecondFlushFirst(l: Line)
    requires InOrder(l) && |l.flushing| >= 2 && l.flushing[0] != l.flushing[1]
    ensures LineEnabled(l, FlushSent(1)) && !InOrder(LineStep(l, FlushSent(1)))
  {
    var n, step := |l.log.flushed|, LineStep(l, FlushSent(1));
    assert l.log.enqueued[n] == (l.log.flushed + l.flushing)[n] == l.flushing[0];
    assert step.log.flushed[n] == l.flushing[1];
  }

  ghost predicate Distinct<T>(s: seq<T>) {
    forall i, j :: 0 <= i < j < |s| ==> s[i] != s[j]
  }

  /** Whatever happens next keeps the order. */
  ghost predicate OrderSafe(l: Line) {
    forall e :: LineEnabled(l, e) ==> InOrder(LineStep(l, e))
  }

  /** Exactly with at most one flush in progress the order is safe from every next step. */
  lemma OrderSafeIff(l: Line)
    requires InOrder(l) && Distinct(l.flushing)
    ensures OrderSafe(l) <==> |l.flushing| <= 1
  {
    if |l.flushing| <= 1 {
      forall e | LineEnabled(l, e) ensures InOrder(LineStep(l, e)) {
        StepKeepsOrder(l, e);
      }
    } else {
      SecondFlushFirst(l);
    }
  }

  // ---------------------------------------------------------------- a flush on its own

  /** The rest of a flush when no other coroutine runs: its sends from the n-th on return or throw. */
  function FlushRun(l: Line, i: nat, throws: nat -> bool, n: nat): Line
    requires i < |l.flushing|
    decreases |l.adapter.queue|
  {
    if throws(n) then LineStep(l, FlushFailed(i))
    else if Flushable(l.adapter) then FlushRun(LineStep(l, FlushSent(i)), i, throws, n + 1)
    else LineStep(l, FlushSent(i))
  }

  function Undisturbed(l: Line, throws: nat -> bool): Line {
    if Flushable(l.adapter) then FlushRun(LineStep(l, FlushStart), |l.flushing|, throws, 0) else l
  }

  lemma FlushedOneMore(l: Line, i: nat)
    requires i < |l.flushing| && Flushable(l.adapter)
    ensures var next := LineStep(l, FlushSent(i));
            && next.flushing == l.flushing[i := l.adapter.queue[0]]
            && next.adapter.queue == l.adapter.queue[1..] && next.adapter.IsConnected()
            && next.log.sent == l.log.sent + [l.flushing[i]]
  {
  }

  lemma ConsSlices<T>(before: seq<T>, x: T, rest: seq<T>, k: nat)
    requires k <= |rest|
    ensures ([x] + rest)[k + 1..] == rest[k..]
    ensures before + ([x] + rest)[..k + 1] == (before + [x]) + rest[..k]
  {
  }

  lemma HeadTail<T>(s: seq<T>)
    requires s != []
    ensures [s[0]] + s[1..] == s
  {
  }

  lemma UpdateLast<T>(s: seq<T>, i: nat, x: T)
    requires |s| == i + 1
    ensures s[i := x][..i] == s[..i]
  {
  }

  /** What a flush leaves when it holds the first of `all` and sends the first `k` of them. */
  ghost predicate Leaves(end: Line, l: Line, i: nat, all: seq<OutboundMessage>, k: nat)
    requires k <= |all| && i <= |l.flushing|
  {
    && end.adapter.queue == all[k..] && end.log.sent == l.log.sent + all[..k]
    && end.flushing == l.flushing[..i]
    && (end.adapter.IsConnected() <==> k == |all|)
  }

  /** From send n on, a flush sends what it holds and what is queued, up to the first send that throws. */
  lemma {:induction false} FlushRunSends(l: Line, i: nat, throws: nat -> bool, n: nat) returns (k: nat)
    requires |l.flushing| == i + 1 && l.adapter.IsConnected()
    ensures k <= 1 + |l.adapter.queue| && (forall j :: n <= j < n + k ==> !throws(j))
    ensures k <= |l.adapter.queue| ==> throws(n + k)
    ensures Leaves(FlushRun(l, i, throws, n), l, i, [l.flushing[i]] + l.adapter.queue, k)
    decreases |l.adapter.queue|
  {
    var queue := l.adapter.queue;
    AppendEmpty(l.flushing[..i]);
    if throws(n) {
      k := 0;
      AppendEmpty(l.log.sent);
    } else if Flushable(l.adapter) {
      var next := LineStep(l, FlushSent(i));
      FlushedOneMore(l, i);
      HeadTail(queue);
      var rest := FlushRunSends(next, i, throws, n + 1);
      k := rest + 1;
      ConsSlices(l.log.sent, l.flushing[i], queue, rest);
      UpdateLast(l.flushing, i, queue[0]);
    } else {
      k := 1;
    }
  }

  /** Undisturbed, a flush sends the queue in order up to the first send that throws, keeps the rest with
      that message in front, and leaves the channel connected exactly if everything was sent. */
  lemma UndisturbedSends(l: Line, throws: nat -> bool) returns (k: nat)
    requires l.adapter.IsConnected()
    ensures k <= |l.adapter.queue| && (forall j :: 0 <= j < k ==> !throws(j))
    ensures k < |l.adapter.queue| ==> throws(k)
    ensures Leaves(Undisturbed(l, throws), l, |l.flushing|, l.adapter.queue, k)
  {
    TakeAll(l.flushing);
    if Flushable(l.adapter) {
      var begun := LineStep(l, FlushStart);
      k := FlushRunSends(begun, |l.flushing|, throws, 0);
      HeadTail(l.adapter.queue);
      SnocInit(l.flushing, l.adapter.queue[0]);
    } else {
      k := 0;
      AppendEmpty(l.log.sent);
    }
  }

  // ---------------------------------------------------------------- the counters

  ghost function TotalSent(lines: map<string, Line>): nat {
    if lines == map[] then 0
    else
      var c :| c in lines;
      lines[c].adapter.sent + TotalSent(lines - {c})
  }

  lemma {:induction false} TotalWithout(lines: map<string, Line>, c: string)
    requires c in lines
    ensures TotalSent(lines) == lines[c].adapter.sent + TotalSent(lines - {c})
    decreases |lines|
  {
    var d :| d in lines && TotalSent(lines) == lines[d].adapter.sent + TotalSent(lines - {d});
    if d != c {
      TotalWithout(lines - {d}, c);
      TotalWithout(lines - {c}, d);
      assert lines - {d} - {c} == lines - {c} - {d};
    }
  }

  lemma TotalUpdated(lines: map<string, Line>, c: string, l: Line)
    ensures c in lines ==> TotalSent(lines[c := l]) == TotalSent(lines) - lines[c].adapter.sent + l.adapter.sent
    ensures c !in lines ==> TotalSent(lines[c := l]) == TotalSent(lines) + l.adapter.sent
  {
    TotalWithout(lines[c := l], c);
    if c in lines {
      TotalWithout(lines, c);
      assert lines[c := l] - {c} == lines - {c};
    } else {
      assert lines[c := l] - {c} == lines;
    }
  }

  // ---------------------------------------------------------------- all runs

  /** What holds on every channel after any interleaving. */
  ghost predicate LineSound(c: string, l: Line) {
    && Ledger(l)
    && Bounded(l)
    && l.adapter.sent == |l.log.sent|
    && forall m :: m in l.log.offered ==> m.channel == c
  }

  ghost predicate LinesSound(lines: map<string, Line>) {
    forall c :: c in lines ==> LineSound(c, lines[c])
  }

  ghost predicate Sound(p: Plane) {
    && LinesSound(p.lines)
    && p.delivered == TotalSent(p.lines)
    && p.connections == |p.lines|
  }

  /** One more message is sent exactly when a send returns. */
  lemma StepCounts(l: Line, e: Event)
    requires LineEnabled(l, e)
    ensures var step := LineStep(l, e);
            var more := if e.DirectSent? || e.FlushSent? then 1 else 0;
            step.adapter.sent == l.adapter.sent + more && |step.log.sent| == |l.log.sent| + more
  {
  }

  lemma StepOffers(l: Line, e: Event)
    requires LineEnabled(l, e)
    ensures LineStep(l, e).log.offered == if e.Deliver? then l.log.offered + [e.message] else l.log.offered
  {
  }

  lemma LineStepSound(c: string, l: Line, e: Event, step: Line)
    requires LineEnabled(l, e) && (e.Deliver? ==> e.message.channel == c) && LineSound(c, l)
    requires step == LineStep(l, e)
    ensures LineSound(c, step)
    ensures step.adapter.sent == l.adapter.sent + if e.DirectSent? || e.FlushSent? then 1 else 0
  {
    StepKeepsLedger(l, e);
    StepKeepsBounded(l, e);
    StepCounts(l, e);
    StepOffers(l, e);
  }

  lemma UpdatedKeys<K, V>(m: map<K, V>, k: K, v: V)
    ensures |m[k := v]| == |m| + if k in m then 0 else 1
  {
    assert m[k := v].Keys == m.Keys + {k};
  }

  lemma UpdateLines(lines: map<string, Line>, c: string, l: Line)
    requires LinesSound(lines) && LineSound(c, l)
    ensures LinesSound(lines[c := l])
  {
  }

  lemma UpdateSound(p: Plane, c: string, l: Line, more: nat)
    requires Sound(p) && LineSound(c, l)
    requires l.adapter.sent == (if c in p.lines then p.lines[c].adapter.sent else 0) + more
    ensures Sound(Plane(p.lines[c := l], p.delivered + more, p.connections + if c in p.lines then 0 else 1))
  {
    TotalUpdated(p.lines, c, l);
    UpdatedKeys(p.lines, c, l);
    UpdateLines(p.lines, c, l);
  }

  /** How many messages a step delivers. */
  function Delivers(e: Event): nat {
    if e.DirectSent? || e.FlushSent? then 1 else 0
  }

  /** A step on a channel as an update of its line. */
  lemma StepShape(p: Plane, c: string, e: Event, l: Line, p': Plane)
    requires Enabled(p, c, e) && (c in p.lines || e.Register?)
    requires LineEnabled(if c in p.lines then p.lines[c] else NEW_LINE, e)
    requires l == LineStep(if c in p.lines then p.lines[c] else NEW_LINE, e)
    requires p' == Plane(p.lines[c := l], p.delivered + Delivers(e), p.connections + if c in p.lines then 0 else 1)
    ensures Step(p, c, e) == p'
  {
  }

  lemma StepOn(p: Plane, c: string, e: Event, l: Line, p': Plane)
    requires c in p.lines && Enabled(p, c, e) && l == LineStep(p.lines[c], e)
    requires p'.lines == p.lines[c := l] && p'.connections == p.connections
    requires p'.delivered == p.delivered + Delivers(e)
    ensures p' == Step(p, c, e)
  {
  }

  lemma NewLineSound(c: string)
    ensures LineSound(c, NEW_LINE)
  {
  }

  lemma StepLine(p: Plane, c: string, e: Event) returns (l: Line)
    requires Enabled(p, c, e) && LinesSound(p.lines) && (c in p.lines || e.Register?)
    ensures LineSound(c, l)
    ensures l.adapter.sent == (if c in p.lines then p.lines[c].adapter.sent else 0) + Delivers(e)
    ensures Step(p, c, e)
         == Plane(p.lines[c := l], p.delivered + Delivers(e), p.connections + if c in p.lines then 0 else 1)
  {
    NewLineSound(c);
    var before := if c in p.lines then p.lines[c] else NEW_LINE;
    l := LineStep(before, e);
    LineStepSound(c, before, e, l);
    StepShape(p, c, e, l,
              Plane(p.lines[c := l], p.delivered + Delivers(e), p.connections + if c in p.lines then 0 else 1));
  }

  lemma StepSound(p: Plane, c: string, e: Event)
    requires Enabled(p, c, e) && Sound(p)
    ensures Sound(Step(p, c, e))
  {
    if c in p.lines || e.Register? {
      var l := StepLine(p, c, e);
      UpdateSound(p, c, l, Delivers(e));
    }
  }

  /** A run: at each point some coroutine takes its next step on some channel. */
  ghost predicate IsRun(planes: seq<Plane>, steps: seq<(string, Event)>) {
    && |planes| == |steps| + 1 && planes[0] == EMPTY_PLANE
    && forall i :: 0 <= i < |steps| ==> Follows(planes, steps, i)
  }

  ghost predicate Follows(planes: seq<Plane>, steps: seq<(string, Event)>, i: nat)
    requires i < |steps| && |planes| == |steps| + 1
  {
    && Enabled(planes[i], steps[i].0, steps[i].1)
    && planes[i + 1] == Step(planes[i], steps[i].0, steps[i].1)
  }

  /** Under every interleaving: each message offered to a channel is sent once, queued, in flight or refused;
      the delivery counter is the sum of the channels' counters; and the queue is bounded. */
  lemma {:induction false} RunsAreSound(planes: seq<Plane>, steps: seq<(string, Event)>, n: nat)
    requires IsRun(planes, steps) && n <= |steps|
    ensures Sound(planes[n])
  {
    if n > 0 {
      RunsAreSound(planes, steps, n - 1);
      assert Follows(planes, steps, n - 1);
      StepSound(planes[n - 1], steps[n - 1].0, steps[n - 1].1);
    }
  }

  /** A message offered once is sent at most once, and on its own channel only. */
  lemma SentAtMostOnce(planes: seq<Plane>, steps: seq<(string, Event)>, n: nat, c: string, m: OutboundMessage)
    requires IsRun(planes, steps) && n <= |steps| && c in planes[n].lines
    ensures var log := planes[n].lines[c].log;
            && multiset(log.sent)[m] <= multiset(log.offered)[m]
            && (m in log.sent ==> m.channel == c)
  {
    RunsAreSound(planes, steps, n);
    var l := planes[n].lines[c];
    assert LineSound(c, l);
    assert m in multiset(l.log.sent) ==> m in multiset(l.log.offered);
  }

  lemma OneFlushStep(l: Line, e: Event, step: Line)
    requires LineEnabled(l, e) && InOrder(l) && |l.flushing| <= 1 && l.log.overlap <= 1
    requires step == LineStep(l, e)
    ensures InOrder(step) && step.log.overlap <= 1
  {
    StepKeepsOrder(l, e);
  }

  /** The channel never has two flushes in progress. */
  ghost predicate OneFlush(planes: seq<Plane>, c: string) {
    forall i :: 0 <= i < |planes| ==> c in planes[i].lines ==> |planes[i].lines[c].flushing| <= 1
  }

  /** With at most one flush at a time, queued messages are flushed in the order they were queued, and the
      queue with the message in flight never holds more than one above the limit. */
  lemma {:induction false} OneFlushKeepsOrder(planes: seq<Plane>, steps: seq<(string, Event)>, c: string, n: nat)
    requires IsRun(planes, steps) && n <= |steps| && OneFlush(planes, c)
    ensures c in planes[n].lines ==>
              var l := planes[n].lines[c];
              InOrder(l) && l.log.overlap <= 1 && |l.adapter.queue| + |l.flushing| <= MAX_QUEUE_SIZE + 1
  {
    if n > 0 {
      OneFlushKeepsOrder(planes, steps, c, n - 1);
      assert Follows(planes, steps, n - 1);
      var e := steps[n - 1].1;
      if c in planes[n - 1].lines && steps[n - 1].0 == c {
        assert |planes[n - 1].lines[c].flushing| <= 1;
        OneFlushStep(planes[n - 1].lines[c], e, planes[n].lines[c]);
      }
      RunsAreSound(planes, steps, n);
      assert c in planes[n].lines ==> LineSound(c, planes[n].lines[c]);
    }
  }

  /** If nothing was queued while a flush was in progress, the limit is kept. */
  lemma NoOverlapKeepsLimit(planes: seq<Plane>, steps: seq<(string, Event)>, c: string, n: nat)
    requires IsRun(planes, steps) && n <= |steps| && c in planes[n].lines
    requires planes[n].lines[c].log.overlap == 0
    ensures Load(planes[n].lines[c]) <= MAX_QUEUE_SIZE
  {
    RunsAreSound(planes, steps, n);
    assert LineSound(c, planes[n].lines[c]);
  }

  /** What a run does to one channel in one step. */
  lemma LineFollows(planes: seq<Plane>, steps: seq<(string, Event)>, c: string, n: nat)
    requires IsRun(planes, steps) && n < |steps|
    ensures c in planes[n].lines ==>
              && c in planes[n + 1].lines
              && (steps[n].0 == c ==> LineEnabled(planes[n].lines[c], steps[n].1)
                                      && planes[n + 1].lines[c] == LineStep(planes[n].lines[c], steps[n].1))
              && (steps[n].0 != c ==> planes[n + 1].lines[c] == planes[n].lines[c])
    ensures c !in planes[n].lines && c in planes[n + 1].lines ==>
              steps[n].0 == c && steps[n].1.Register? && planes[n + 1].lines[c] == LineStep(NEW_LINE, steps[n].1)
  {
    assert Follows(planes, steps, n);
  }

  // ---------------------------------------------------------------- when the order and the limit are kept

  lemma {:induction false} OfferedGrows(planes: seq<Plane>, steps: seq<(string, Event)>, c: string, n: nat, k: nat)
    requires IsRun(planes, steps) && n <= k <= |steps| && c in planes[n].lines
    ensures c in planes[k].lines && planes[n].lines[c].log.offered <= planes[k].lines[c].log.offered
    decreases k
  {
    if n < k {
      OfferedGrows(planes, steps, c, n, k - 1);
      LineFollows(planes, steps, c, k - 1);
      if steps[k - 1].0 == c {
        StepOffers(planes[k - 1].lines[c], steps[k - 1].1);
      }
    }
  }

  lemma DistinctCounts<T>(s: seq<T>)
    ensures Distinct(s) <==> forall x :: multiset(s)[x] <= 1
  {
    if Distinct(s) {
      forall x ensures multiset(s)[x] <= 1 {
        DistinctCountsOne(s, x);
      }
    } else {
      var i, j :| 0 <= i < j < |s| && s[i] == s[j];
      RemovedMultiset(s, i);
      assert Removed(s, i)[j - 1] == s[j];
      assert multiset(s)[s[i]] >= 2;
    }
  }

  lemma {:induction false} DistinctCountsOne<T>(s: seq<T>, x: T)
    requires Distinct(s)
    ensures multiset(s)[x] <= 1
  {
    if s != [] {
      HeadMultiset(s);
      DistinctCountsOne(s[1..], x);
      assert x == s[0] ==> x !in s[1..];
      assert x !in s[1..] ==> x !in multiset(s[1..]);
    }
  }

  /** Messages that were offered once are pairwise different while they are flushed. */
  lemma FlushingDistinct(l: Line)
    requires Ledger(l) && Distinct(l.log.offered)
    ensures Distinct(l.flushing)
  {
    DistinctCounts(l.log.offered);
    DistinctCounts(l.flushing);
    forall x ensures multiset(l.flushing)[x] <= 1 {
      assert multiset(l.flushing)[x] <= multiset(l.log.offered)[x];
    }
  }

  /** At every point of the run every possible next step on the channel keeps the order. */
  ghost predicate OrderIsSafe(planes: seq<Plane>, c: string) {
    forall n :: 0 <= n < |planes| ==> c in planes[n].lines ==> OrderSafe(planes[n].lines[c])
  }

  lemma {:induction false} SafeIsInOrder(planes: seq<Plane>, steps: seq<(string, Event)>, c: string, n: nat)
    requires IsRun(planes, steps) && n <= |steps| && OrderIsSafe(planes, c) && c in planes[n].lines
    ensures InOrder(planes[n].lines[c])
  {
    if n > 0 {
      LineFollows(planes, steps, c, n - 1);
      if c in planes[n - 1].lines {
        SafeIsInOrder(planes, steps, c, n - 1);
        assert OrderSafe(planes[n - 1].lines[c]);
      }
    }
  }

  /** A flush starts on a connected channel with a queue while another flush is in progress. */
  predicate SecondFlush(l: Line, e: Event) {
    e.FlushStart? && l.flushing != [] && Flushable(l.adapter)
  }

  ghost predicate NoSecondFlush(planes: seq<Plane>, steps: seq<(string, Event)>, c: string)
    requires |planes| == |steps| + 1
  {
    forall n :: 0 <= n < |steps| ==>
      steps[n].0 == c && c in planes[n].lines ==> !SecondFlush(planes[n].lines[c], steps[n].1)
  }

  lemma StepKeepsOneFlushIff(l: Line, e: Event)
    requires LineEnabled(l, e) && |l.flushing| <= 1
    ensures |LineStep(l, e).flushing| <= 1 <==> !SecondFlush(l, e)
  {
  }

  lemma {:induction false} OneFlushUpTo(planes: seq<Plane>, steps: seq<(string, Event)>, c: string, n: nat)
    requires IsRun(planes, steps) && n <= |steps| && NoSecondFlush(planes, steps, c)
    ensures c in planes[n].lines ==> |planes[n].lines[c].flushing| <= 1
  {
    if n > 0 {
      OneFlushUpTo(planes, steps, c, n - 1);
      LineFollows(planes, steps, c, n - 1);
      if c in planes[n - 1].lines && steps[n - 1].0 == c {
        StepKeepsOneFlushIff(planes[n - 1].lines[c], steps[n - 1].1);
      }
    }
  }

  /** A channel never has two flushes in progress exactly if none starts during another. */
  lemma OneFlushIff(planes: seq<Plane>, steps: seq<(string, Event)>, c: string)
    requires IsRun(planes, steps)
    ensures OneFlush(planes, c) <==> NoSecondFlush(planes, steps, c)
  {
    if NoSecondFlush(planes, steps, c) {
      forall n | 0 <= n < |planes| && c in planes[n].lines ensures |planes[n].lines[c].flushing| <= 1 {
        OneFlushUpTo(planes, steps, c, n);
      }
    }
    if OneFlush(planes, c) {
      forall n | 0 <= n < |steps| && steps[n].0 == c && c in planes[n].lines
        ensures !SecondFlush(planes[n].lines[c], steps[n].1)
      {
        LineFollows(planes, steps, c, n);
        assert |planes[n].lines[c].flushing| <= 1 && |planes[n + 1].lines[c].flushing| <= 1;
        StepKeepsOneFlushIff(planes[n].lines[c], steps[n].1);
      }
    }
  }

  /** Over a whole run, queued messages are sure to leave in their order exactly if no flush of the channel
      starts during another.  Messages carry their own id, so no two offered ones are equal. */
  lemma OrderIff(planes: seq<Plane>, steps: seq<(string, Event)>, c: string)
    requires IsRun(planes, steps) && c in planes[|steps|].lines
    requires Distinct(planes[|steps|].lines[c].log.offered)
    ensures OrderIsSafe(planes, c) <==> NoSecondFlush(planes, steps, c)
  {
    OneFlushIff(planes, steps, c);
    forall n | 0 <= n < |planes| && c in planes[n].lines ensures Distinct(planes[n].lines[c].flushing) {
      OfferedGrows(planes, steps, c, n, |steps|);
      RunsAreSound(planes, steps, n);
      assert LineSound(c, planes[n].lines[c]);
      FlushingDistinct(planes[n].lines[c]);
    }
    if OrderIsSafe(planes, c) {
      forall n | 0 <= n < |planes| && c in planes[n].lines ensures |planes[n].lines[c].flushing| <= 1 {
        SafeIsInOrder(planes, steps, c, n);
        OrderSafeIff(planes[n].lines[c]);
      }
    }
    if OneFlush(planes, c) {
      forall n | 0 <= n < |planes| && c in planes[n].lines ensures OrderSafe(planes[n].lines[c]) {
        OneFlushKeepsOrder(planes, steps, c, n);
        OrderSafeIff(planes[n].lines[c]);
      }
    }
  }

  /** The queue of the channel and what flushes hold of it stay within the limit. */
  ghost predicate LimitIsKept(planes: seq<Plane>, c: string) {
    forall n :: 0 <= n < |planes| ==> c in planes[n].lines ==> Load(planes[n].lines[c]) <= MAX_QUEUE_SIZE
  }

  /** No step fills the gap of a flush in a full queue. */
  ghost predicate NothingOverfills(planes: seq<Plane>, steps: seq<(string, Event)>, c: string)
    requires |planes| == |steps| + 1
  {
    forall n :: 0 <= n < |steps| ==>
      steps[n].0 == c && c in planes[n].lines ==> !Overfills(planes[n].lines[c], steps[n].1)
  }

  lemma {:induction false} LimitKeptUpTo(planes: seq<Plane>, steps: seq<(string, Event)>, c: string, n: nat)
    requires IsRun(planes, steps) && n <= |steps| && NothingOverfills(planes, steps, c)
    ensures c in planes[n].lines ==> Load(planes[n].lines[c]) <= MAX_QUEUE_SIZE
  {
    if n > 0 {
      LimitKeptUpTo(planes, steps, c, n - 1);
      LineFollows(planes, steps, c, n - 1);
      if c in planes[n - 1].lines && steps[n - 1].0 == c {
        StepKeepsLimitIff(planes[n - 1].lines[c], steps[n - 1].1);
      }
    }
  }

  /** Over a whole run, the limit is kept exactly if nothing is queued into the gap that a flush has left in a
      full queue. */
  lemma LimitIff(planes: seq<Plane>, steps: seq<(string, Event)>, c: string)
    requires IsRun(planes, steps)
    ensures LimitIsKept(planes, c) <==> NothingOverfills(planes, steps, c)
  {
    if NothingOverfills(planes, steps, c) {
      forall n | 0 <= n < |planes| && c in planes[n].lines ensures Load(planes[n].lines[c]) <= MAX_QUEUE_SIZE {
        LimitKeptUpTo(planes, steps, c, n);
      }
    }
    if LimitIsKept(planes, c) {
      forall n | 0 <= n < |steps| && steps[n].0 == c && c in planes[n].lines
        ensures !Overfills(planes[n].lines[c], steps[n].1)
      {
        LineFollows(planes, steps, c, n);
        assert Load(planes[n].lines[c]) <= MAX_QUEUE_SIZE && Load(planes[n + 1].lines[c]) <= MAX_QUEUE_SIZE;
        StepKeepsLimitIff(planes[n].lines[c], steps[n].1);
      }
    }
  }

  ghost predicate QueueIsWithin(planes: seq<Plane>, c: string) {
    forall n :: 0 <= n < |planes| ==> c in planes[n].lines ==> |planes[n].lines[c].adapter.queue| <= MAX_QUEUE_SIZE
  }

  ghost predicate NothingPutBack(planes: seq<Plane>, steps: seq<(string, Event)>, c: string)
    requires |planes| == |steps| + 1
  {
    forall n :: 0 <= n < |steps| ==>
      steps[n].0 == c && c in planes[n].lines ==> !PutsBackOntoFull(planes[n].lines[c], steps[n].1)
  }

  lemma {:induction false} QueueWithinUpTo(planes: seq<Plane>, steps: seq<(string, Event)>, c: string, n: nat)
    requires IsRun(planes, steps) && n <= |steps| && NothingPutBack(planes, steps, c)
    ensures c in planes[n].lines ==> |planes[n].lines[c].adapter.queue| <= MAX_QUEUE_SIZE
  {
    if n > 0 {
      QueueWithinUpTo(planes, steps, c, n - 1);
      LineFollows(planes, steps, c, n - 1);
      if c in planes[n - 1].lines && steps[n - 1].0 == c {
        StepKeepsQueueIff(planes[n - 1].lines[c], steps[n - 1].1);
      }
    }
  }

  /** Over a whole run, the queue on its own stays within the limit exactly if no flush puts its message back in
      front of a full queue. */
  lemma QueueIff(planes: seq<Plane>, steps: seq<(string, Event)>, c: string)
    requires IsRun(planes, steps)
    ensures QueueIsWithin(planes, c) <==> NothingPutBack(planes, steps, c)
  {
    if NothingPutBack(planes, steps, c) {
      forall n | 0 <= n < |planes| && c in planes[n].lines
        ensures |planes[n].lines[c].adapter.queue| <= MAX_QUEUE_SIZE
      {
        QueueWithinUpTo(planes, steps, c, n);
      }
    }
    if QueueIsWithin(planes, c) {
      forall n | 0 <= n < |steps| && steps[n].0 == c && c in planes[n].lines
        ensures !PutsBackOntoFull(planes[n].lines[c], steps[n].1)
      {
        LineFollows(planes, steps, c, n);
        assert |planes[n].lines[c].adapter.queue| <= MAX_QUEUE_SIZE;
        assert |planes[n + 1].lines[c].adapter.queue| <= MAX_QUEUE_SIZE;
        StepKeepsQueueIff(planes[n].lines[c], steps[n].1);
      }
    }
  }

  // ---------------------------------------------------------------- both failures are reached

  /** A run in the order of the connection handler, with no connection ending: a flush comes right after the
      registration of its connection, and a status comes from a connection when no flush is in progress. */
  ghost predicate CodeOrder(planes: seq<Plane>, steps: seq<(string, Event)>)
    requires |planes| == |steps| + 1
  {
    forall n :: 0 <= n < |steps| ==> StepInOrder(planes, steps, n)
  }

  ghost predicate StepInOrder(planes: seq<Plane>, steps: seq<(string, Event)>, n: nat)
    requires n < |steps| < |planes|
  {
    match steps[n].1
    case Register(_) => n + 1 < |steps| && steps[n + 1] == (steps[n].0, FlushStart)
    case FlushStart => n > 0 && steps[n - 1].0 == steps[n].0 && steps[n - 1].1.Register?
    case StatusMessage(_) => steps[n].0 in planes[n].lines && planes[n].lines[steps[n].0].flushing == []
    case Unregister(_) => false
    case HandlerError => false
    case _ => true
  }

  /** Some run of the connection handlers ends here. */
  ghost predicate Reachable(p: Plane) {
    exists planes, steps :: IsRun(planes, steps) && CodeOrder(planes, steps) && planes[|steps|] == p
  }

  lemma EmptyReachable()
    ensures Reachable(EMPTY_PLANE)
  {
    var steps: seq<(string, Event)> := [];
    assert IsRun([EMPTY_PLANE], steps) && CodeOrder([EMPTY_PLANE], steps) && [EMPTY_PLANE][|steps|] == EMPTY_PLANE;
  }

  lemma MorePlanes(planes: seq<Plane>, steps: seq<(string, Event)>, c: string, e: Event)
    returns (more: seq<Plane>, last: seq<(string, Event)>)
    requires IsRun(planes, steps) && Enabled(planes[|steps|], c, e)
    ensures more == planes + [Step(planes[|steps|], c, e)] && last == steps + [(c, e)] && IsRun(more, last)
  {
    more, last := planes + [Step(planes[|steps|], c, e)], steps + [(c, e)];
    forall i | 0 <= i < |last| ensures Follows(more, last, i) {
      assert i < |steps| ==> Follows(planes, steps, i);
    }
  }

  /** The steps that need no other step beside them. */
  predicate Alone(l: Line, e: Event) {
    && !e.Register? && !e.FlushStart? && !e.Unregister? && !e.HandlerError?
    && (e.StatusMessage? ==> l.flushing == [])
  }

  lemma ReachNext(p: Plane, c: string, e: Event) returns (end: Plane)
    requires Reachable(p) && c in p.lines && LineEnabled(p.lines[c], e) && Alone(p.lines[c], e)
    requires e.Deliver? ==> e.message.channel == c
    ensures Reachable(end) && c in end.lines && end.lines[c] == LineStep(p.lines[c], e)
  {
    var planes, steps :| IsRun(planes, steps) && CodeOrder(planes, steps) && planes[|steps|] == p;
    var more, last := MorePlanes(planes, steps, c, e);
    forall n | 0 <= n < |last| ensures StepInOrder(more, last, n) {
      assert n < |steps| ==> StepInOrder(planes, steps, n);
    }
    assert CodeOrder(more, last);
    end := more[|last|];
  }

  /** A connection registers and begins its flush. */
  lemma ReachConnect(p: Plane, c: string, socket: nat) returns (end: Plane)
    requires Reachable(p)
    ensures Reachable(end) && c in end.lines
    ensures end.lines[c]
         == LineStep(LineStep(if c in p.lines then p.lines[c] else NEW_LINE, Register(socket)), FlushStart)
  {
    var planes, steps :| IsRun(planes, steps) && CodeOrder(planes, steps) && planes[|steps|] == p;
    var more, last := MorePlanes(planes, steps, c, Register(socket));
    var most, all := MorePlanes(more, last, c, FlushStart);
    forall n | 0 <= n < |all| ensures StepInOrder(most, all, n) {
      assert n < |steps| ==> StepInOrder(planes, steps, n);
    }
    assert CodeOrder(most, all);
    end := most[|all|];
  }

  /** A channel with exactly these messages queued, none of them flushed yet. */
  ghost predicate Holds(p: Plane, c: string, messages: seq<OutboundMessage>) {
    && c in p.lines && p.lines[c].flushing == [] && p.lines[c].direct == []
    && p.lines[c].adapter.queue == messages == p.lines[c].log.enqueued && p.lines[c].log.flushed == []
  }

  /** A connection that reports itself disconnected. */
  lemma DisconnectedReachable(c: string) returns (p: Plane)
    ensures Reachable(p) && Holds(p, c, []) && !p.lines[c].adapter.IsConnected()
  {
    EmptyReachable();
    p := ReachConnect(EMPTY_PLANE, c, 0);
    p := ReachNext(p, c, StatusMessage(Disconnected));
  }

  /** Messages delivered to a disconnected channel wait in their order, up to the limit. */
  lemma {:induction false} QueueReachable(c: string, messages: seq<OutboundMessage>) returns (p: Plane)
    requires |messages| <= MAX_QUEUE_SIZE && forall m :: m in messages ==> m.channel == c
    ensures Reachable(p) && Holds(p, c, messages) && !p.lines[c].adapter.IsConnected()
  {
    if messages == [] {
      p := DisconnectedReachable(c);
    } else {
      var init, last := messages[..|messages| - 1], messages[|messages| - 1];
      assert last in messages && forall m :: m in init ==> m in messages;
      var before := QueueReachable(c, init);
      p := ReachNext(before, c, Deliver(last));
      assert messages == init + [last];
    }
  }

  /** The flush of a new connection takes the first message. */
  lemma FlushingReachable(c: string, messages: seq<OutboundMessage>) returns (p: Plane)
    requires 0 < |messages| <= MAX_QUEUE_SIZE && forall m :: m in messages ==> m.channel == c
    ensures Reachable(p) && c in p.lines && p.lines[c].adapter.IsConnected() && p.lines[c].direct == []
    ensures p.lines[c].flushing == [messages[0]] && p.lines[c].adapter.queue == messages[1..]
    ensures p.lines[c].log.enqueued == messages && p.lines[c].log.flushed == []
  {
    var before := QueueReachable(c, messages);
    p := ReachConnect(before, c, 1);
  }

  /** Some run of the code leaves more messages in a queue than its limit: while the flush of a new connection
      waits on its first send, a direct send fails and fills the gap, and then the flush fails too. */
  lemma LimitIsPassed(messages: seq<OutboundMessage>, m: OutboundMessage) returns (p: Plane)
    requires |messages| == MAX_QUEUE_SIZE && forall x :: x in messages ==> x.channel == m.channel
    ensures Reachable(p) && m.channel in p.lines && p.lines[m.channel].adapter.queue == messages + [m]
  {
    var c := m.channel;
    p := FlushingReachable(c, messages);
    p := ReachNext(p, c, Deliver(m));
    p := ReachNext(p, c, DirectFailed(0));
    assert p.lines[c].adapter.queue == messages[1..] + [m];
    p := ReachNext(p, c, FlushFailed(0));
    PutBack(messages, m);
  }

  lemma PutBack<T>(xs: seq<T>, x: T)
    requires xs != []
    ensures [xs[0]] + (xs[1..] + [x]) == xs + [x]
  {
  }

  /** Some run of the code sends the second of two queued messages first: a second connection registers while
      the flush of the first one waits on its send. */
  lemma OrderIsLost(a: OutboundMessage, b: OutboundMessage) returns (p: Plane)
    requires a != b && a.channel == b.channel
    ensures Reachable(p) && a.channel in p.lines
    ensures p.lines[a.channel].log.enqueued == [a, b] && p.lines[a.channel].log.flushed == [b, a]
  {
    var c := a.channel;
    p := FlushingReachable(c, [a, b]);
    p := ReachConnect(p, c, 2);
    p := ReachNext(p, c, FlushSent(1));
    p := ReachNext(p, c, FlushSent(0));
  }

  // ---------------------------------------------------------------- the objects

  /** How far a delivery got before its first await. */
  datatype Delivery = Pending(socket: nat) | Queued | Rejected

  /** A channel adapter, with what is pending on it and its log as ghosts. */
  class ChannelAdapter {
    var socket: Option<nat>
    var status: ChannelStatusType
    var queue: seq<OutboundMessage>
    var sent: nat
    var errors: nat
    ghost var direct: seq<OutboundMessage>
    ghost var flushing: seq<OutboundMessage>
    ghost var log: Log

    ghost function View(): Line
      reads this
    {
      Line(Adapter(socket, status, queue, sent, errors), direct, flushing, log)
    }

    constructor ()
      ensures View() == NEW_LINE
    {
      socket, status, queue, sent, errors := None, Disconnected, [], 0, 0;
      direct, flushing, log := [], [], NEW_LINE.log;
    }

    predicate IsConnected()
      reads this
    {
      socket.Some? && status == Connected
    }

    method MarkConnected(s: nat)
      modifies this
      ensures View() == LineStep(old(View()), Register(s))
      ensures socket == Some(s) && status == Connected
      ensures queue == old(queue) && sent == old(sent) && errors == old(errors)
    {
      socket := Some(s);
      status := Connected;
    }

    method MarkDisconnected(error: bool)
      modifies this
      ensures View() == LineStep(old(View()), Unregister(error))
      ensures socket == None && status == Disconnected
      ensures queue == old(queue) && sent == old(sent) && errors == old(errors) + if error then 1 else 0
    {
      socket := None;
      status := Disconnected;
      if error {
        errors := errors + 1;
      }
    }

    method MarkError()
      modifies this
      ensures View() == LineStep(old(View()), HandlerError)
      ensures status == Error && errors == old(errors) + 1
      ensures socket == old(socket) && queue == old(queue) && sent == old(sent)
    {
      status := Error;
      errors := errors + 1;
    }

    /** Queue a message for later, or refuse it. */
    method QueueForLater(m: OutboundMessage) returns (ok: bool)
      modifies this
      ensures View() == Enqueue(old(View()), m)
      ensures ok <==> |old(queue)| < 1000
      ensures queue == if ok then old(queue) + [m] else old(queue)
      ensures socket == old(socket) && status == old(status) && sent == old(sent) && errors == old(errors)
    {
      if |queue| >= MAX_QUEUE_SIZE {
        log := log.(refused := log.refused + [m]);
        return false;
      }
      queue := queue + [m];
      log := log.(enqueued := log.enqueued + [m], overlap := Max(log.overlap, |flushing|));
      return true;
    }

    /** `while message_queue and is_connected: popleft()`, up to the await. */
    method TakeNext() returns (m: Option<OutboundMessage>)
      modifies this`queue
      ensures var a := old(View()).adapter;
              m == (if Flushable(a) then Some(a.queue[0]) else None)
              && queue == (if Flushable(a) then a.queue[1..] else a.queue)
    {
      m := None;
      if queue != [] && IsConnected() {
        m := Some(queue[0]);
        queue := queue[1..];
      }
    }

    method HandleStatus(s: ChannelStatusType)
      modifies this
      ensures View() == LineStep(old(View()), StatusMessage(s))
      ensures status == s && errors == old(errors) + if s == Error then 1 else 0
      ensures socket == old(socket) && queue == old(queue) && sent == old(sent)
    {
      status := s;
      if s == Error {
        MarkError();
      }
    }

    /** A delivery to this adapter up to its send, or to its end when the adapter is not connected. */
    method BeginDirect(m: OutboundMessage) returns (r: Delivery)
      modifies this
      ensures View() == LineStep(old(View()), Deliver(m))
      ensures r == if old(socket).Some? && old(status) == Connected then Pending(old(socket).value)
                   else if |old(queue)| < 1000 then Queued else Rejected
      ensures queue == if r == Queued then old(queue) + [m] else old(queue)
      ensures socket == old(socket) && status == old(status) && sent == old(sent) && errors == old(errors)
    {
      log := log.(offered := log.offered + [m]);
      if IsConnected() {
        direct := direct + [m];
        return Pending(socket.value);
      }
      var ok := QueueForLater(m);
      r := if ok then Queued else Rejected;
    }

    /** The end of a delivery's send. */
    method EndDirect(m: OutboundMessage, success: bool, ghost i: nat) returns (ok: bool)
      requires i < |direct| && direct[i] == m
      modifies this
      ensures success ==> View() == LineStep(old(View()), DirectSent(i))
      ensures !success ==> View() == LineStep(old(View()), DirectFailed(i))
      ensures ok <==> success || |old(queue)| < 1000
      ensures queue == if !success && ok then old(queue) + [m] else old(queue)
      ensures success ==> status == old(status) && sent == old(sent) + 1 && errors == old(errors)
      ensures !success ==> status == Error && sent == old(sent) && errors == old(errors) + 1
      ensures socket == old(socket)
    {
      direct := Removed(direct, i);
      if success {
        sent := sent + 1;
        log := log.(sent := log.sent + [m]);
        return true;
      }
      MarkError();
      ok := QueueForLater(m);
    }

    method BeginFlush() returns (next: Option<OutboundMessage>)
      modifies this
      ensures View() == LineStep(old(View()), FlushStart)
      ensures next == if old(socket).Some? && old(status) == Connected && old(queue) != [] then Some(old(queue)[0])
                      else None
      ensures old(queue) == (if next.Some? then [next.value] else []) + queue
      ensures socket == old(socket) && status == old(status) && sent == old(sent) && errors == old(errors)
    {
      next := TakeNext();
      if next.Some? {
        flushing := flushing + [next.value];
      }
    }

    /** The end of a flush's send. */
    method EndFlush(m: OutboundMessage, success: bool, ghost i: nat) returns (next: Option<OutboundMessage>)
      requires i < |flushing| && flushing[i] == m
      modifies this
      ensures success ==> View() == LineStep(old(View()), FlushSent(i))
      ensures !success ==> View() == LineStep(old(View()), FlushFailed(i))
      ensures next == if success && old(socket).Some? && old(status) == Connected && old(queue) != [] then
                        Some(old(queue)[0])
                      else None
      ensures success ==> old(queue) == (if next.Some? then [next.value] else []) + queue
      ensures !success ==> queue == [m] + old(queue)
      ensures success ==> status == old(status) && sent == old(sent) + 1 && errors == old(errors)
      ensures !success ==> status == Error && sent == old(sent) && errors == old(errors) + 1
      ensures socket == old(socket)
    {
      if success {
        sent := sent + 1;
        log := log.(sent := log.sent + [m], flushed := log.flushed + [m]);
        next := TakeNext();
        flushing := if next.Some? then flushing[i := next.value] else Removed(flushing, i);
      } else {
        queue := [m] + queue;
        flushing := Removed(flushing, i);
        MarkError();
        next := None;
      }
    }

    /** A whole flush during which no other coroutine runs: the steps of the machine, one after the other. */
    method FlushMessageQueue(throws: nat -> bool)
      modifies this
      ensures View() == Undisturbed(old(View()), throws)
    {
      ghost var i := |flushing|;
      var n := 0;
      var message := BeginFlush();
      while message.Some?
        invariant if message.Some? then
                    && i < |flushing| && flushing[i] == message.value
                    && Undisturbed(old(View()), throws) == FlushRun(View(), i, throws, n)
                  else
                    View() == Undisturbed(old(View()), throws)
        decreases message.Some?, |queue|
      {
        message := EndFlush(message.value, !throws(n), i);
        n := n + 1;
      }
    }
  }

  /** The control plane.  Each method is one stretch of code between awaits, and is a step of the state
      machine. */
  class ControlPlane {
    var adapters: map<string, ChannelAdapter>
    var delivered: nat
    var connections: nat

    ghost predicate Valid()
      reads this
    {
      forall c, d :: c in adapters && d in adapters && c != d ==> adapters[c] != adapters[d]
    }

    ghost function View(): Plane
      reads this, adapters.Values
    {
      Plane(map c | c in adapters :: adapters[c].View(), delivered, connections)
    }

    /** When one adapter changes, so does one line. */
    twostate lemma OneLineChanged(c: string)
      requires Valid() && adapters == old(adapters) && c in adapters
      requires forall a :: a in adapters.Values && a != adapters[c] ==> a.View() == old(a.View())
      ensures View().lines == old(View()).lines[c := adapters[c].View()]
    {
    }

    /** When an adapter is added, so is one line. */
    twostate lemma OneLineAdded(c: string)
      requires c !in old(adapters) && adapters.Keys == old(adapters).Keys + {c}
      requires forall d :: d in old(adapters) ==> adapters[d] == old(adapters[d])
      requires forall a :: a in old(adapters).Values ==> a.View() == old(a.View())
      ensures View().lines == old(View()).lines[c := adapters[c].View()]
    {
    }

    constructor ()
      ensures Valid() && View() == EMPTY_PLANE
    {
      adapters, delivered, connections := map[], 0, 0;
    }

    method RegisterAdapter(c: string, socket: nat)
      requires Valid()
      modifies this, adapters.Values
      ensures Valid() && View() == Step(old(View()), c, Register(socket))
      ensures c in adapters && adapters[c].socket == Some(socket) && adapters[c].status == Connected
      ensures adapters[c].queue == if c in old(adapters) then old(adapters[c].queue) else []
      ensures adapters.Keys == old(adapters).Keys + {c}
    {
      if c in adapters {
        adapters[c].MarkConnected(socket);
        OneLineChanged(c);
      } else {
        var adapter := new ChannelAdapter();
        adapter.MarkConnected(socket);
        ghost var line := adapter.View();
        adapters := adapters[c := adapter];
        connections := connections + 1;
        OneLineAdded(c);
        StepShape(old(View()), c, Register(socket), line, View());
      }
    }

    method UnregisterAdapter(c: string, error: bool)
      requires Valid()
      modifies adapters.Values
      ensures Valid() && View() == Step(old(View()), c, Unregister(error))
      ensures c in adapters ==>
                && adapters[c].socket == None && adapters[c].status == Disconnected
                && adapters[c].queue == old(adapters[c].queue)
                && adapters[c].errors == old(adapters[c].errors) + if error then 1 else 0
    {
      if c in adapters {
        adapters[c].MarkDisconnected(error);
        OneLineChanged(c);
      }
    }

    method HandleStatus(c: string, status: ChannelStatusType)
      requires Valid() && c in adapters
      modifies adapters[c]
      ensures Valid() && View() == Step(old(View()), c, StatusMessage(status))
      ensures adapters[c].status == status && adapters[c].socket == old(adapters[c].socket)
      ensures adapters[c].errors == old(adapters[c].errors) + if status == Error then 1 else 0
    {
      adapters[c].HandleStatus(status);
      OneLineChanged(c);
    }

    method HandleMessageError(c: string)
      requires Valid() && c in adapters
      modifies adapters[c]
      ensures Valid() && View() == Step(old(View()), c, HandlerError)
      ensures adapters[c].status == Error && adapters[c].errors == old(adapters[c].errors) + 1
    {
      adapters[c].MarkError();
      OneLineChanged(c);
    }

    /** A delivery up to its send, or to its end when the channel is not connected. */
    method BeginDelivery(m: OutboundMessage) returns (r: Delivery)
      requires Valid()
      modifies this, adapters.Values
      ensures Valid() && View() == Step(old(View()), m.channel, Deliver(m))
      ensures adapters == old(adapters) && (m.channel !in adapters ==> r == Rejected)
      ensures m.channel in adapters ==>
                var socket, queue := old(adapters[m.channel].socket), old(adapters[m.channel].queue);
                && r == (if socket.Some? && old(adapters[m.channel].status) == Connected then Pending(socket.value)
                         else if |queue| < 1000 then Queued else Rejected)
                && adapters[m.channel].queue == if r == Queued then queue + [m] else queue
    {
      if m.channel !in adapters {
        return Rejected;
      }
      r := adapters[m.channel].BeginDirect(m);
      OneLineChanged(m.channel);
    }

    /** The rest of a delivery once its send has returned or thrown. */
    method EndDelivery(m: OutboundMessage, success: bool, ghost i: nat) returns (ok: bool)
      requires Valid() && m.channel in adapters
      requires i < |adapters[m.channel].direct| && adapters[m.channel].direct[i] == m
      modifies this, adapters[m.channel]
      ensures Valid() && adapters == old(adapters)
      ensures success ==> View() == Step(old(View()), m.channel, DirectSent(i))
      ensures !success ==> View() == Step(old(View()), m.channel, DirectFailed(i))
      ensures ok <==> success || |old(adapters[m.channel].queue)| < 1000
      ensures adapters[m.channel].queue
           == if !success && ok then old(adapters[m.channel].queue) + [m] else old(adapters[m.channel].queue)
      ensures delivered == old(delivered) + if success then 1 else 0
      ensures !success ==> adapters[m.channel].status == Error
    {
      ok := adapters[m.channel].EndDirect(m, success, i);
      OneLineChanged(m.channel);
      if success {
        delivered := delivered + 1;
        StepOn(old(View()), m.channel, DirectSent(i), adapters[m.channel].View(), View());
      } else {
        StepOn(old(View()), m.channel, DirectFailed(i), adapters[m.channel].View(), View());
      }
    }

    /** A flush up to its first send, if it has anything to send. */
    method BeginFlush(c: string) returns (next: Option<OutboundMessage>)
      requires Valid() && c in adapters
      modifies adapters[c]
      ensures Valid() && View() == Step(old(View()), c, FlushStart)
      ensures next == if old(adapters[c].socket).Some? && old(adapters[c].status) == Connected
                         && old(adapters[c].queue) != [] then Some(old(adapters[c].queue)[0]) else None
    {
      next := adapters[c].BeginFlush();
      OneLineChanged(c);
    }

    /** A flush from the end of one send up to the next. */
    method EndFlushSend(c: string, m: OutboundMessage, success: bool, ghost i: nat)
      returns (next: Option<OutboundMessage>)
      requires Valid() && c in adapters && i < |adapters[c].flushing| && adapters[c].flushing[i] == m
      modifies this, adapters[c]
      ensures Valid() && adapters == old(adapters)
      ensures success ==> View() == Step(old(View()), c, FlushSent(i))
      ensures !success ==> View() == Step(old(View()), c, FlushFailed(i))
      ensures next == if success && old(adapters[c].socket).Some? && old(adapters[c].status) == Connected
                         && old(adapters[c].queue) != [] then Some(old(adapters[c].queue)[0]) else None
      ensures !success ==> adapters[c].queue == [m] + old(adapters[c].queue) && adapters[c].status == Error
      ensures delivered == old(delivered) + if success then 1 else 0
    {
      next := adapters[c].EndFlush(m, success, i);
      OneLineChanged(c);
      if success {
        delivered := delivered + 1;
        StepOn(old(View()), c, FlushSent(i), adapters[c].View(), View());
      } else {
        StepOn(old(View()), c, FlushFailed(i), adapters[c].View(), View());
      }
    }
  }
}
