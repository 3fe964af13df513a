/** Who is connected: the sockets and statuses of the gateway's channels (`gateway_server.py`), over every
    interleaving of the control plane's steps. */
module GatewayConnections {
  import opened Text
  import opened Gateway

  /** What a step does to the connection: only a registration sets the socket and only its end clears it; a
      failed send and a failed handler put the channel in error. */
  lemma StepConnection(l: Line, e: Event)
    requires LineEnabled(l, e)
    ensures LineStep(l, e).adapter.socket
         == if e.Register? then Some(e.socket) else if e.Unregister? then None else l.adapter.socket
    ensures LineStep(l, e).adapter.status
         == if e.Register? then Connected
            else if e.Unregister? then Disconnected
            else if e.StatusMessage? then e.status
            else if e.HandlerError? || e.DirectFailed? || e.FlushFailed? then Error
            else l.adapter.status
  {
  }

  /** The socket of the last of the first `n` steps that registered or unregistered the channel. */
  function LastSocket(steps: seq<(string, Event)>, c: string, n: nat): Option<nat>
    requires n <= |steps|
  {
    if n == 0 then None
    else if steps[n - 1].0 == c && steps[n - 1].1.Register? then Some(steps[n - 1].1.socket)
    else if steps[n - 1].0 == c && steps[n - 1].1.Unregister? then None
    else LastSocket(steps, c, n - 1)
  }

  /** The status that the last of the first `n` steps to touch it gave the channel. */
  function LastStatus(steps: seq<(string, Event)>, c: string, n: nat): ChannelStatusType
    requires n <= |steps|
  {
    if n == 0 then Disconnected
    else
      var d, e := steps[n - 1].0, steps[n - 1].1;
      if d == c && e.Register? then Connected
      else if d == c && e.Unregister? then Disconnected
      else if d == c && e.StatusMessage? then e.status
      else if d == c && (e.HandlerError? || e.DirectFailed? || e.FlushFailed?) then Error
      else LastStatus(steps, c, n - 1)
  }

  /** Over every run a channel holds the socket registered last, none after that connection ended, and the
      status given last. */
  lemma {:induction false} RunsConnect(planes: seq<Plane>, steps: seq<(string, Event)>, c: string, n: nat)
    requires IsRun(planes, steps) && n <= |steps|
    ensures c in planes[n].lines ==>
              && planes[n].lines[c].adapter.socket == LastSocket(steps, c, n)
              && planes[n].lines[c].adapter.status == LastStatus(steps, c, n)
  {
    if n > 0 {
      RunsConnect(planes, steps, c, n - 1);
      LineFollows(planes, steps, c, n - 1);
      if c in planes[n].lines && steps[n - 1].0 == c {
        var before := if c in planes[n - 1].lines then planes[n - 1].lines[c] else NEW_LINE;
        StepConnection(before, steps[n - 1].1);
      }
    }
  }

  /** No connection of the channel registers in the steps from `i` up to `n`. */
  ghost predicate NoneRegisters(steps: seq<(string, Event)>, c: string, i: nat, n: nat)
    requires n <= |steps|
  {
    forall k :: i <= k < n ==> !(steps[k].0 == c && steps[k].1.Register?)
  }

  ghost predicate NoneUnregisters(steps: seq<(string, Event)>, c: string, i: nat, n: nat)
    requires n <= |steps|
  {
    forall k :: i <= k < n ==> !(steps[k].0 == c && steps[k].1.Unregister?)
  }

  lemma {:induction false} LastSocketSince(steps: seq<(string, Event)>, c: string, i: nat, n: nat)
    requires i < n <= |steps| && steps[i].0 == c && NoneRegisters(steps, c, i + 1, n)
    ensures steps[i].1.Unregister? ==> LastSocket(steps, c, n) == None
    ensures steps[i].1.Register? && NoneUnregisters(steps, c, i + 1, n) ==>
              LastSocket(steps, c, n) == Some(steps[i].1.socket)
    decreases n
  {
    if n > i + 1 {
      LastSocketSince(steps, c, i, n - 1);
    }
  }

  /** What a step does on a channel without a socket: a delivery is queued or refused and not sent, and no flush
      takes a message. */
  ghost predicate Quiet(l: Line, e: Event, l': Line) {
    && (e.Deliver? ==>
          && l'.direct == l.direct && l'.flushing == l.flushing
          && l'.adapter.queue == if |l.adapter.queue| < 1000 then l.adapter.queue + [e.message] else l.adapter.queue)
    && (e.FlushStart? ==> l'.flushing == l.flushing && l'.adapter.queue == l.adapter.queue)
    && (e.FlushSent? ==> |l'.flushing| < |l.flushing| && l'.adapter.queue == l.adapter.queue)
  }

  lemma QuietWithoutSocket(l: Line, e: Event)
    requires LineEnabled(l, e) && l.adapter.socket == None
    ensures Quiet(l, e, LineStep(l, e))
  {
  }

  /** From the end of a connection up to the next registration, over every run and whatever status messages
      come: nothing is sent directly, no flush takes a message, and what is delivered waits. */
  lemma UnregisteredIsQuiet(planes: seq<Plane>, steps: seq<(string, Event)>, c: string, i: nat, n: nat)
    requires IsRun(planes, steps) && i < n < |steps|
    requires c in planes[i].lines && steps[i].0 == c && steps[i].1.Unregister? && NoneRegisters(steps, c, i + 1, n)
    requires steps[n].0 == c
    ensures c in planes[n].lines && c in planes[n + 1].lines && planes[n].lines[c].adapter.socket == None
    ensures Quiet(planes[n].lines[c], steps[n].1, planes[n + 1].lines[c])
  {
    StaysKnown(planes, steps, c, i, n);
    LastSocketSince(steps, c, i, n);
    RunsConnect(planes, steps, c, n);
    LineFollows(planes, steps, c, n);
    QuietWithoutSocket(planes[n].lines[c], steps[n].1);
  }

  lemma {:induction false} StaysKnown(planes: seq<Plane>, steps: seq<(string, Event)>, c: string, i: nat, n: nat)
    requires IsRun(planes, steps) && i <= n <= |steps| && c in planes[i].lines
    ensures c in planes[n].lines
    decreases n
  {
    if i < n {
      StaysKnown(planes, steps, c, i, n - 1);
      LineFollows(planes, steps, c, n - 1);
    }
  }

  /** From a registration up to the next one or the end of a connection the channel holds the new socket. */
  lemma RegisteredSocket(planes: seq<Plane>, steps: seq<(string, Event)>, c: string, i: nat, n: nat)
    requires IsRun(planes, steps) && i < n <= |steps| && steps[i].0 == c && steps[i].1.Register?
    requires NoneRegisters(steps, c, i + 1, n) && NoneUnregisters(steps, c, i + 1, n)
    ensures c in planes[n].lines && planes[n].lines[c].adapter.socket == Some(steps[i].1.socket)
  {
    assert Follows(planes, steps, i);
    assert c in planes[i + 1].lines;
    StaysKnown(planes, steps, c, i + 1, n);
    LastSocketSince(steps, c, i, n);
    RunsConnect(planes, steps, c, n);
  }
}
