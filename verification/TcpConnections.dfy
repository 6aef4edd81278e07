/**
 The output side of a connection (src/net/TcpConnection.cc): `send`, the writable
 event, half-close and close, on top of the byte buffer, the channel and the poller.
 All calls are made in the loop thread.
 */
module TcpConnections {
  import opened Buffers
  import opened Pollers

  datatype State = Connecting | Connected | Disconnecting | Disconnected

  /** What a `write` on the socket may answer. */
  datatype WriteResult =
    | Wrote(n: nat)
    | WouldBlock        // EWOULDBLOCK
    | Fault             // EPIPE or ECONNRESET
    | OtherError

  /** The high-water mark, and which of the two callbacks are set. */
  datatype Config = Config(highWaterMark: nat, high: bool, complete: bool)

  datatype Conn = Conn(
    state: State,
    out: string,                // the output buffer
    wire: string,               // bytes the socket has accepted
    mask: Mask,                 // what the channel watches for
    index: Index,               // how the poller knows the channel
    shutdowns: nat,             // calls of shutdownWrite
    highWaterCalls: seq<nat>,   // queued high-water callbacks, with their argument
    writeCompleteCalls: nat,
    destroyed: bool)

  const START := Conn(Connecting, "", "", NONE, New, 0, [], 0, false)

  // -------------------------------------------------------------------- steps

  predicate Fits(result: WriteResult, data: string) { result.Wrote? ==> result.n <= |data| }

  /** The channel gets a new mask and tells the poller. */
  function Watching(c: Conn, mask: Mask): Conn {
    c.(mask := mask, index := if c.index.Added? && mask == NONE then Deleted else Added)
  }

  function Established(c: Conn): Conn { Watching(c.(state := Connected), c.mask.(reading := true)) }

  /** Whether a send may write to the socket at once. */
  predicate Direct(c: Conn) { !c.mask.writing && c.out == "" }

  /** How much of a message the socket takes at once. */
  function TakenAtOnce(c: Conn, result: WriteResult): nat {
    if Direct(c) && result.Wrote? then result.n else 0
  }

  /** `sendInLoop`: write directly when nothing is queued; queue what the socket did not
      take. A fault drops the message, any other error queues it. */
  function Sending(k: Config, c: Conn, data: string, result: WriteResult): Conn
    requires Fits(result, data)
  {
    var n := TakenAtOnce(c, result);
    var w := Written(k, c, data, result);
    if n == |data| || (Direct(c) && result.Fault?) then w else Queued(k, w, data[n..])
  }

  /** The direct write and its completion callback. */
  function Written(k: Config, c: Conn, data: string, result: WriteResult): Conn
    requires Fits(result, data)
  {
    c.(wire := c.wire + data[..TakenAtOnce(c, result)],
       writeCompleteCalls := c.writeCompleteCalls + if Direct(c) && result == Wrote(|data|) && k.complete then 1 else 0)
  }

  function Queued(k: Config, c: Conn, rest: string): Conn {
    var w := c.(out := c.out + rest,
                highWaterCalls := c.highWaterCalls
                  + if |c.out| + |rest| >= k.highWaterMark && |c.out| < k.highWaterMark && k.high then [|c.out + rest|] else []);
    if c.mask.writing then w else Watching(w, c.mask.(writing := true))
  }

  /** `handleWrite`, when the socket takes n bytes; an error is 0. */
  function Flushing(k: Config, c: Conn, n: nat): Conn
    requires n <= |c.out|
  {
    if !c.mask.writing || n == 0 then c
    else
      var w := c.(wire := c.wire + c.out[..n], out := c.out[n..]);
      if w.out == "" then Drained(k, w) else w
  }

  /** Stop watching for writability; complete a half-close that had to wait. */
  function Drained(k: Config, c: Conn): Conn {
    var w := Watching(c, c.mask.(writing := false));
    var x := w.(writeCompleteCalls := w.writeCompleteCalls + if k.complete then 1 else 0);
    if x.state.Disconnecting? then ShuttingInLoop(x) else x
  }

  function ShuttingInLoop(c: Conn): Conn { c.(shutdowns := c.shutdowns + if c.mask.writing then 0 else 1) }

  function Shutting(c: Conn): Conn {
    if c.state.Connected? then ShuttingInLoop(c.(state := Disconnecting)) else c
  }

  function Closing(c: Conn): Conn { Watching(c.(state := Disconnected), NONE) }

  function Destroying(c: Conn): Conn {
    (if c.state.Connected? then Closing(c) else c).(index := New, destroyed := true)
  }

  datatype Event =
    | Establish
    | SendData(data: string, result: WriteResult)
    | Writable(n: nat)
    | ShutdownWrite
    | Close
    | Destroy

  /** What an event does; one that cannot happen now does nothing. */
  function Next(k: Config, c: Conn, e: Event): Conn {
    match e
    case Establish => if c.state.Connecting? then Established(c) else c
    case SendData(data, result) => if c.state.Connected? && Fits(result, data) then Sending(k, c, data, result) else c
    case Writable(n) => if n <= |c.out| && !c.destroyed then Flushing(k, c, n) else c
    case ShutdownWrite => Shutting(c)
    case Close => if c.state.Connecting? || c.destroyed then c else Closing(c)
    case Destroy => if c.state.Connecting? || c.destroyed then c else Destroying(c)
  }

  /** The state after a schedule. */
  function After(k: Config, schedule: seq<Event>): Conn {
    if schedule == [] then START else Next(k, After(k, schedule[..|schedule| - 1]), schedule[|schedule| - 1])
  }

  // ---------------------------------------------------------------- invariant

  /** Writability is watched exactly while there is something to write, and the write
      side is closed at most once, with an empty buffer. */
  predicate Invariant(c: Conn) {
    && (c.state.Connecting? ==> c.mask == NONE && c.index == New && c.out == "")
    && (c.state.Connecting? || c.state.Connected? ==> !c.destroyed && c.shutdowns == 0)
    && ((c.state.Connected? || c.state.Disconnecting?) && !c.destroyed ==>
          c.index == Added && c.mask.reading && (c.mask.writing <==> c.out != ""))
    && (c.state.Disconnected? ==> c.mask == NONE)
    && (c.state.Disconnecting? ==> c.shutdowns == if c.out == "" then 1 else 0)
    && (c.destroyed ==> c.index == New)
    && c.shutdowns <= 1
  }

  lemma NextKeepsInvariant(k: Config, c: Conn, e: Event)
    requires Invariant(c)
    ensures Invariant(Next(k, c, e))
  {
  }

  /** The write side is closed only when everything queued has been written. */
  lemma ShutdownOnlyWhenDrained(k: Config, c: Conn, e: Event)
    requires Invariant(c) && Next(k, c, e).shutdowns != c.shutdowns
    ensures c.shutdowns == 0 && Next(k, c, e).shutdowns == 1
    ensures Next(k, c, e).out == "" && Next(k, c, e).state.Disconnecting?
  {
  }

  /** A send that reaches `sendInLoop` after the close is only logged and then goes on.
      The closed socket stays unwatched if and only if nothing has to be queued; what the
      socket takes then still goes out, with its completion callback. Otherwise the
      socket is watched for writability again. */
  lemma SendAfterCloseStaysUnwatchedIff(k: Config, c: Conn, data: string, result: WriteResult)
    requires Invariant(c) && c.state.Disconnected? && Fits(result, data)
    ensures var w := Sending(k, c, data, result);
            var nothingQueued := data == "" || (c.out == "" && (result.Fault? || result == Wrote(|data|)));
            && (w.mask == NONE <==> nothingQueued) && (Invariant(w) <==> nothingQueued)
            && (nothingQueued ==> w == Written(k, c, data, result) && w.out == c.out)
            && (!nothingQueued ==> w.mask.writing && w.index == Added && |w.out| > |c.out|)
  {
  }

  // --------------------------------------------------------------- lifecycle

  /** The connection was established before event n. */
  predicate Begun(schedule: seq<Event>, n: nat)
    requires n <= |schedule|
  {
    exists i :: 0 <= i < n && schedule[i] == Establish
  }

  predicate Ends(e: Event) { e.ShutdownWrite? || e.Close? || e.Destroy? }

  /** Event j ends an established connection that nothing has ended. */
  predicate FirstEnd(schedule: seq<Event>, j: nat)
    requires j < |schedule|
  {
    Ends(schedule[j]) && Begun(schedule, j) && forall i: nat :: i < j && Begun(schedule, i) ==> !Ends(schedule[i])
  }

  predicate DestroyedBefore(schedule: seq<Event>, n: nat)
    requires n <= |schedule|
  {
    exists j: nat :: j < n && Begun(schedule, j) && schedule[j].Destroy?
  }

  /** Event j closes an established connection: a close before it is destroyed, or a
      destruction that finds it open. */
  predicate Closes(schedule: seq<Event>, j: nat)
    requires j < |schedule|
  {
    && Begun(schedule, j)
    && ((schedule[j].Close? && !DestroyedBefore(schedule, j)) || (schedule[j].Destroy? && FirstEnd(schedule, j)))
  }

  /** The state that the first n events of a schedule ask for, from their kinds alone:
      which came first. */
  ghost predicate LivesBy(c: Conn, schedule: seq<Event>, n: nat)
    requires n <= |schedule|
  {
    && (c.state.Connecting? <==> !Begun(schedule, n))
    && (c.state.Connected? <==> Begun(schedule, n) && forall j: nat :: j < n ==> !FirstEnd(schedule, j))
    && (c.state.Disconnected? <==> exists j: nat :: j < n && Closes(schedule, j))
    && (c.destroyed <==> DestroyedBefore(schedule, n))
  }

  lemma {:induction false} LifecycleIff(k: Config, schedule: seq<Event>, n: nat)
    requires n <= |schedule|
    ensures LivesBy(After(k, schedule[..n]), schedule, n)
  {
    if n > 0 {
      LifecycleIff(k, schedule, n - 1);
      var c, e := After(k, schedule[..n - 1]), schedule[n - 1];
      RunIsSound(k, schedule[..n - 1]);
      LivesOn(k, c, e, Next(k, c, e), schedule, n - 1);
      AfterNext(k, schedule, n - 1);
    } else {
      StartLives(schedule);
    }
  }

  lemma StartLives(schedule: seq<Event>)
    ensures LivesBy(START, schedule, 0)
  {
  }

  lemma AfterNext(k: Config, schedule: seq<Event>, n: nat)
    requires n < |schedule|
    ensures After(k, schedule[..n + 1]) == Next(k, After(k, schedule[..n]), schedule[n])
  {
    assert schedule[..n + 1][..n] == schedule[..n];
  }

  lemma LivesOn(k: Config, c: Conn, e: Event, w: Conn, schedule: seq<Event>, n: nat)
    requires n < |schedule| && LivesBy(c, schedule, n) && Invariant(c) && e == schedule[n] && w == Next(k, c, e)
    ensures LivesBy(w, schedule, n + 1)
  {
    FirstEndIff(schedule, n);
    LifeMoves(k, c, e);
    BegunNext(schedule, n);
    ClosesIff(c, schedule, n);
    assert DestroyedBefore(schedule, n + 1) <==> DestroyedBefore(schedule, n) || (Begun(schedule, n) && schedule[n].Destroy?);
  }

  lemma ClosesIff(c: Conn, schedule: seq<Event>, n: nat)
    requires n < |schedule| && LivesBy(c, schedule, n)
    ensures Closes(schedule, n) <==>
            !c.state.Connecting? && ((schedule[n].Close? && !c.destroyed) || (schedule[n].Destroy? && c.state.Connected?))
  {
    FirstEndIff(schedule, n);
  }

  lemma BegunNext(schedule: seq<Event>, n: nat)
    requires n < |schedule|
    ensures Begun(schedule, n + 1) <==> Begun(schedule, n) || schedule[n] == Establish
  {
  }

  /** How an event moves the state. */
  lemma LifeMoves(k: Config, c: Conn, e: Event)
    requires Invariant(c)
    ensures var w := Next(k, c, e);
            && (w.state.Connecting? <==> c.state.Connecting? && e != Establish)
            && (w.state.Connected? <==> (c.state.Connected? && !Ends(e)) || (c.state.Connecting? && e == Establish))
            && (w.state.Disconnected? <==> c.state.Disconnected? || (e.Close? && !c.state.Connecting? && !c.destroyed)
                                           || (e.Destroy? && c.state.Connected?))
            && (w.destroyed <==> c.destroyed || (e.Destroy? && !c.state.Connecting?))
  {
  }

  /** The next event is the first end exactly when nothing has ended the connection. */
  lemma FirstEndIff(schedule: seq<Event>, n: nat)
    requires n < |schedule|
    ensures FirstEnd(schedule, n) <==>
            Ends(schedule[n]) && Begun(schedule, n) && forall j: nat :: j < n ==> !FirstEnd(schedule, j)
    ensures !Begun(schedule, n) ==> forall j: nat :: j < n ==> !FirstEnd(schedule, j)
  {
    if forall j: nat :: j < n ==> !FirstEnd(schedule, j) { StillOpen(schedule, n); }
    assert forall j: nat :: j < n && FirstEnd(schedule, j) ==> Begun(schedule, n) && Ends(schedule[j]);
  }

  /** What nothing has ended first, nothing has ended. */
  lemma {:induction false} StillOpen(schedule: seq<Event>, n: nat)
    requires n <= |schedule| && forall j: nat :: j < n ==> !FirstEnd(schedule, j)
    ensures forall i: nat :: i < n && Begun(schedule, i) ==> !Ends(schedule[i])
  {
    if n > 0 {
      StillOpen(schedule, n - 1);
      assert !FirstEnd(schedule, n - 1);
    }
  }

  // ----------------------------------------------------------------- the stream

  /** The bytes that an event adds to the stream: those of a send on a connected
      connection, unless a fault drops the message. */
  function Accepted(c: Conn, e: Event): string {
    if e.SendData? && c.state.Connected? && Fits(e.result, e.data) && !(e.result.Fault? && c.out == "") then e.data else ""
  }

  /** The concatenation of all accepted messages. */
  function Sent(k: Config, schedule: seq<Event>): string {
    if schedule == [] then ""
    else
      var before := schedule[..|schedule| - 1];
      Sent(k, before) + Accepted(After(k, before), schedule[|schedule| - 1])
  }

  lemma SendKeepsStream(k: Config, c: Conn, data: string, result: WriteResult)
    requires Fits(result, data) && (c.mask.writing ==> c.out != "")
    ensures var w := Sending(k, c, data, result);
            w.wire + w.out == c.wire + c.out + if result.Fault? && c.out == "" then "" else data
  {
  }

  lemma FlushKeepsStream(k: Config, c: Conn, n: nat)
    requires n <= |c.out|
    ensures Flushing(k, c, n).wire + Flushing(k, c, n).out == c.wire + c.out
  {
  }

  lemma NextKeepsStream(k: Config, c: Conn, e: Event)
    requires Invariant(c)
    ensures Next(k, c, e).wire + Next(k, c, e).out == c.wire + c.out + Accepted(c, e)
  {
    match e
    case SendData(data, result) => if c.state.Connected? && Fits(result, data) { SendKeepsStream(k, c, data, result); }
    case Writable(n) => if n <= |c.out| && !c.destroyed { FlushKeepsStream(k, c, n); }
    case _ =>
  }

  /** Bytes that the socket takes at an event: of a send when nothing is queued, or of
      what is queued when the socket is writable. */
  function TakenBy(c: Conn, e: Event): nat {
    match e
    case SendData(data, result) => if c.state.Connected? && c.out == "" && result.Wrote? && Fits(result, data) then result.n else 0
    case Writable(n) => if n <= |c.out| && !c.destroyed && !c.state.Disconnected? then n else 0
    case _ => 0
  }

  function Taken(k: Config, schedule: seq<Event>): nat {
    if schedule == [] then 0
    else
      var before := schedule[..|schedule| - 1];
      Taken(k, before) + TakenBy(After(k, before), schedule[|schedule| - 1])
  }

  lemma NextTakes(k: Config, c: Conn, e: Event)
    requires Invariant(c)
    ensures |Next(k, c, e).wire| == |c.wire| + TakenBy(c, e)
  {
  }

  // -------------------------------------------------------------- completions

  /** An event writes the last byte of the output: a send that the socket takes whole, or
      a writable event that drains the buffer. */
  function CompletedBy(k: Config, c: Conn, e: Event): nat {
    match e
    case SendData(data, result) => if c.state.Connected? && c.out == "" && result == Wrote(|data|) then 1 else 0
    case Writable(n) => if 0 < n == |c.out| && !c.destroyed && !c.state.Disconnected? then 1 else 0
    case _ => 0
  }

  function Completions(k: Config, schedule: seq<Event>): nat {
    if schedule == [] then 0
    else
      var before := schedule[..|schedule| - 1];
      Completions(k, before) + CompletedBy(k, After(k, before), schedule[|schedule| - 1])
  }

  lemma NextCompletes(k: Config, c: Conn, e: Event)
    requires Invariant(c)
    ensures Next(k, c, e).writeCompleteCalls == c.writeCompleteCalls + if k.complete then CompletedBy(k, c, e) else 0
  {
  }

  /** Over every run the completion callback is queued once per event that leaves nothing
      to write, if it is set, and the socket has taken the first bytes of the stream, as
      many as its answers said. */
  lemma {:induction false} RunReportsCompletions(k: Config, schedule: seq<Event>)
    ensures After(k, schedule).writeCompleteCalls == if k.complete then Completions(k, schedule) else 0
    ensures |After(k, schedule).wire| == Taken(k, schedule)
  {
    if schedule != [] {
      var before, e := schedule[..|schedule| - 1], schedule[|schedule| - 1];
      RunReportsCompletions(k, before);
      RunIsSound(k, before);
      NextTakes(k, After(k, before), e);
      NextCompletes(k, After(k, before), e);
    }
  }

  // --------------------------------------------------------------- half-close

  /** `shutdown` on a connected connection begins the half-close, and performs it at once
      if nothing is queued. */
  lemma HalfCloseBegins(k: Config, c: Conn)
    requires Invariant(c)
    ensures var w := Next(k, c, ShutdownWrite);
            if c.state.Connected? then w == c.(state := Disconnecting, shutdowns := if c.out == "" then 1 else 0) else w == c
  {
  }

  /** After n events a half-close was asked for, nothing is queued, and no close came. */
  ghost predicate DrainedAt(k: Config, schedule: seq<Event>, n: nat)
    requires n <= |schedule|
  {
    var c := After(k, schedule[..n]);
    c.state.Disconnecting? && c.out == ""
  }

  /** In every run the write side is shut exactly once if and only if at some moment a
      half-close asked for before any close found the output drained, and never
      otherwise; `LifecycleIff` says when that state is reached. */
  lemma {:induction false} HalfCloseIff(k: Config, schedule: seq<Event>, n: nat)
    requires n <= |schedule|
    ensures After(k, schedule[..n]).shutdowns == if exists i: nat :: i <= n && DrainedAt(k, schedule, i) then 1 else 0
  {
    RunIsSound(k, schedule[..n]);
    if n > 0 {
      HalfCloseIff(k, schedule, n - 1);
      RunIsSound(k, schedule[..n - 1]);
      AfterNext(k, schedule, n - 1);
      ShutdownsMove(k, After(k, schedule[..n - 1]), schedule[n - 1]);
      assert (exists i: nat :: i <= n && DrainedAt(k, schedule, i))
             <==> DrainedAt(k, schedule, n) || exists i: nat :: i <= n - 1 && DrainedAt(k, schedule, i);
    } else {
      assert !DrainedAt(k, schedule, 0);
    }
  }

  lemma ShutdownsMove(k: Config, c: Conn, e: Event)
    requires Invariant(c)
    ensures var w := Next(k, c, e);
            w.shutdowns == if w.state.Disconnecting? && w.out == "" then 1 else c.shutdowns
  {
  }

  /** Closing and destroying stop the watch and leave the stream and the write side alone. */
  lemma EndingKeepsStream(k: Config, c: Conn)
    requires Invariant(c) && (c.state.Connected? || c.state.Disconnecting?) && !c.destroyed
    ensures Next(k, c, Close) == c.(state := Disconnected, mask := NONE, index := Deleted)
    ensures Next(k, c, Destroy) ==
            if c.state.Connected? then c.(state := Disconnected, mask := NONE, index := New, destroyed := true)
            else c.(index := New, destroyed := true)
  {
  }

  /** A new connection is watched for reading, and nothing else has happened yet. */
  lemma EstablishingWatches(k: Config)
    ensures Next(k, START, Establish) == START.(state := Connected, mask := Mask(true, false), index := Added)
  {
  }

  // ------------------------------------------------------------ high-water mark

  /** The size of the buffer at each rise of it to the mark, in order. */
  function Crossings(k: Config, schedule: seq<Event>): seq<nat> {
    if schedule == [] then []
    else
      var before := schedule[..|schedule| - 1];
      Crossings(k, before) + Crossing(k, |After(k, before).out|, |After(k, schedule).out|)
  }

  function Crossing(k: Config, before: nat, after: nat): seq<nat> {
    if before < k.highWaterMark <= after then [after] else []
  }

  lemma NextReportsCrossing(k: Config, c: Conn, e: Event)
    ensures Next(k, c, e).highWaterCalls == c.highWaterCalls + if k.high then Crossing(k, |c.out|, |Next(k, c, e).out|) else []
  {
  }

  // ---------------------------------------------------------------------- runs

  lemma {:induction false} RunIsSound(k: Config, schedule: seq<Event>)
    ensures Invariant(After(k, schedule))
  {
    if schedule != [] {
      RunIsSound(k, schedule[..|schedule| - 1]);
      NextKeepsInvariant(k, After(k, schedule[..|schedule| - 1]), schedule[|schedule| - 1]);
    }
  }

  /** Over every run the bytes accepted by the socket, followed by the output buffer,
      are the accepted messages in order. */
  lemma {:induction false} RunKeepsStream(k: Config, schedule: seq<Event>)
    ensures After(k, schedule).wire + After(k, schedule).out == Sent(k, schedule)
  {
    if schedule != [] {
      var before := schedule[..|schedule| - 1];
      RunKeepsStream(k, before);
      RunIsSound(k, before);
      NextKeepsStream(k, After(k, before), schedule[|schedule| - 1]);
    }
  }

  /** Over every run the high-water callback is queued exactly once per upward crossing,
      with the size of the buffer then, if it is set. */
  lemma {:induction false} RunReportsCrossings(k: Config, schedule: seq<Event>)
    ensures After(k, schedule).highWaterCalls == if k.high then Crossings(k, schedule) else []
  {
    if schedule != [] {
      var before := schedule[..|schedule| - 1];
      RunReportsCrossings(k, before);
      NextReportsCrossing(k, After(k, before), schedule[|schedule| - 1]);
    }
  }

  /** What a run leaves: the state that the order of the events asks for; the accepted
      messages, the first bytes of which, as many as the socket took, are on the wire and
      the others in the buffer; and the two callbacks queued exactly when due. */
  ghost predicate Outcome(k: Config, schedule: seq<Event>, c: Conn) {
    && Invariant(c) && LivesBy(c, schedule, |schedule|)
    && c.wire + c.out == Sent(k, schedule) && |c.wire| == Taken(k, schedule)
    && c.highWaterCalls == (if k.high then Crossings(k, schedule) else [])
    && c.writeCompleteCalls == (if k.complete then Completions(k, schedule) else 0)
    && c.shutdowns == if exists i: nat :: i <= |schedule| && DrainedAt(k, schedule, i) then 1 else 0
  }

  lemma RunHasOutcome(k: Config, schedule: seq<Event>)
    ensures Outcome(k, schedule, After(k, schedule))
  {
    assert schedule[..|schedule|] == schedule;
    RunIsSound(k, schedule);
    LifecycleIff(k, schedule, |schedule|);
    RunKeepsStream(k, schedule);
    RunReportsCompletions(k, schedule);
    RunReportsCrossings(k, schedule);
    HalfCloseIff(k, schedule, |schedule|);
  }

  // ------------------------------------------------------------------- object

  class TcpConnection {
    const channel: Channel
    const poller: EPollPoller
    const outputBuffer: Buffer
    const highWaterMark: nat
    const hasHighWaterCallback: bool
    const hasWriteCompleteCallback: bool
    var state: State
    // what the outside sees
    var wire: string
    var shutdowns: nat
    var highWaterCalls: seq<nat>
    var writeCompleteCalls: nat
    var destroyed: bool

    function Settings(): Config { Config(highWaterMark, hasHighWaterCallback, hasWriteCompleteCallback) }

    ghost function Footprint(): set<object>
      reads this, outputBuffer
    {
      {this, channel, poller, outputBuffer, outputBuffer.buffer}
    }

    /** The parts are different objects in good order. */
    ghost predicate Sane()
      reads this, channel, poller, poller.known, outputBuffer, outputBuffer.buffer
    {
      && channel as object != poller && channel as object != outputBuffer && poller as object != outputBuffer
      && outputBuffer.buffer as object != this && outputBuffer.buffer as object != channel
      && outputBuffer.buffer as object != poller
      && outputBuffer.Valid() && poller.Valid() && channel in poller.known
      && this as object !in poller.known && outputBuffer as object !in poller.known
      && outputBuffer.buffer as object !in poller.known && poller as object !in poller.known
    }

    ghost function View(): Conn
      requires outputBuffer.Valid()
      reads this, channel, outputBuffer, outputBuffer.buffer
    {
      Conn(state, outputBuffer.Contents(), wire, channel.events, channel.index, shutdowns, highWaterCalls,
           writeCompleteCalls, destroyed)
    }

    /** No stalled output: until the connection is closed, unsent bytes and the
        kernel's interest in writability go together. */
    lemma NoStalledOutput()
      requires Sane() && Invariant(View()) && (state.Connected? || state.Disconnecting?) && !destroyed
      ensures channel.fd in poller.kernel
      ensures outputBuffer.Contents() != "" <==> poller.kernel[channel.fd].writing
    {
    }

    constructor (channel: Channel, poller: EPollPoller, k: Config)
      requires poller.Valid() && channel in poller.known && channel.index == New && channel.events == NONE
      requires poller as object !in poller.known
      ensures Sane() && View() == START && fresh(this) && fresh(outputBuffer) && fresh(outputBuffer.buffer)
      ensures this.channel == channel && this.poller == poller && Settings() == k
    {
      this.channel, this.poller, highWaterMark := channel, poller, k.highWaterMark;
      hasHighWaterCallback, hasWriteCompleteCallback := k.high, k.complete;
      outputBuffer := new Buffer(INITIAL_SIZE);
      state, wire, shutdowns, highWaterCalls, writeCompleteCalls, destroyed := Connecting, "", 0, [], 0, false;
    }

    method ConnectEstablished()
      requires Sane()
      modifies this, channel, poller
      ensures Sane() && poller.known == old(poller.known) && View() == Established(old(View()))
    {
      state := Connected;
      channel.EnableReading(poller);
    }

    /** `send`: only a connected connection takes data. */
    method Send(data: string, result: WriteResult)
      requires Sane() && Fits(result, data)
      modifies Footprint()
      ensures Sane() && fresh(Footprint() - old(Footprint())) && poller.known == old(poller.known)
      ensures View() == if old(state).Connected? then Sending(Settings(), old(View()), data, result) else old(View())
    {
      if state.Connected? {
        SendInLoop(data, result);
      }
    }

    /** In any state: a disconnected one is only logged. */
    method SendInLoop(data: string, result: WriteResult)
      requires Sane() && Fits(result, data)
      modifies Footprint()
      ensures Sane() && fresh(Footprint() - old(Footprint())) && poller.known == old(poller.known)
      ensures View() == Sending(Settings(), old(View()), data, result)
    {
      ghost var c := View();
      var nwrote, faultError := 0, false;
      if !channel.events.writing && outputBuffer.ReadableBytes() == 0 {
        nwrote, faultError := WriteNow(data, result);
      } else {
        assert c.wire + data[..0] == c.wire;
      }
      assert View() == Written(Settings(), c, data, result);
      if !faultError && nwrote < |data| {
        QueueOutput(data[nwrote..]);
      }
    }

    /** The direct write on the socket, its errors and the completion callback. */
    method WriteNow(data: string, result: WriteResult) returns (nwrote: nat, faultError: bool)
      requires Fits(result, data)
      modifies this`wire, this`writeCompleteCalls
      ensures nwrote == (if result.Wrote? then result.n else 0) && faultError == result.Fault?
      ensures wire == old(wire) + data[..nwrote]
      ensures writeCompleteCalls == old(writeCompleteCalls)
                + (if result == Wrote(|data|) && hasWriteCompleteCallback then 1 else 0)
    {
      nwrote, faultError := 0, false;
      if result.Wrote? {
        nwrote := result.n;
        wire := wire + data[..nwrote];
        if nwrote == |data| && hasWriteCompleteCallback {
          writeCompleteCalls := writeCompleteCalls + 1;
        }
      } else {
        assert wire + data[..0] == wire;
        faultError := result.Fault?;
      }
    }

    /** Append to the output buffer, report the high-water mark when it is reached,
        and ask to be told when the socket is writable. */
    method QueueOutput(rest: string)
      requires Sane()
      modifies this`highWaterCalls, channel, poller, outputBuffer, outputBuffer.buffer
      ensures Sane() && fresh(Footprint() - old(Footprint())) && poller.known == old(poller.known)
      ensures View() == Queued(Settings(), old(View()), rest)
    {
      ghost var w := Queued(Settings(), View(), rest);
      var oldLen := outputBuffer.ReadableBytes();
      if oldLen + |rest| >= highWaterMark && oldLen < highWaterMark && hasHighWaterCallback {
        highWaterCalls := highWaterCalls + [oldLen + |rest|];
      }
      outputBuffer.Append(rest);
      if !channel.events.writing {
        channel.EnableWriting(poller);
      }
      assert View() == w;
    }

    /** The socket is writable: write what is queued, of which it takes n bytes (none
        or an error is 0); when the buffer has drained, stop watching and complete a
        pending half-close. */
    method HandleWrite(n: nat)
      requires Sane() && n <= |outputBuffer.Contents()|
      modifies this, channel, poller, outputBuffer
      ensures Sane() && outputBuffer.buffer == old(outputBuffer.buffer) && poller.known == old(poller.known)
      ensures View() == Flushing(Settings(), old(View()), n)
    {
      if channel.events.writing && n > 0 {
        ghost var flushed := Flushing(Settings(), View(), n);
        WriteOut(n);
        if outputBuffer.ReadableBytes() == 0 {
          OutputDrained();
        }
        assert View() == flushed;
      }
    }

    /** The kernel takes the first n bytes of the buffer. */
    method WriteOut(n: nat)
      requires Sane() && n <= |outputBuffer.Contents()|
      modifies this`wire, outputBuffer
      ensures Sane() && outputBuffer.buffer == old(outputBuffer.buffer)
      ensures View() == old(View()).(wire := old(wire) + old(outputBuffer.Contents())[..n], out := old(outputBuffer.Contents())[n..])
    {
      ghost var sent, left := outputBuffer.Contents()[..n], outputBuffer.Contents()[n..];
      wire := wire + outputBuffer.buffer[outputBuffer.readerIndex..outputBuffer.readerIndex + n];
      assert wire == old(wire) + sent;
      outputBuffer.Retrieve(n);
      assert outputBuffer.Contents() == left;
    }

    /** Stop watching for writability; complete a half-close that had to wait. */
    method OutputDrained()
      requires Sane()
      modifies this`writeCompleteCalls, this`shutdowns, channel, poller
      ensures Sane() && poller.known == old(poller.known) && View() == Drained(Settings(), old(View()))
    {
      ghost var drained := Drained(Settings(), View());
      channel.DisableWriting(poller);
      if hasWriteCompleteCallback {
        writeCompleteCalls := writeCompleteCalls + 1;
      }
      if state.Disconnecting? {
        ShutdownInLoop();
      }
      assert View() == drained;
    }

    method Shutdown()
      requires Sane()
      modifies this
      ensures Sane() && View() == Shutting(old(View()))
    {
      if state.Connected? {
        state := Disconnecting;
        ShutdownInLoop();
      }
    }

    /** Close the write side unless output is still queued. */
    method ShutdownInLoop()
      modifies this`shutdowns
      ensures shutdowns == old(shutdowns) + (if channel.events.writing then 0 else 1)
    {
      if !channel.events.writing {
        shutdowns := shutdowns + 1;
      }
    }

    method HandleClose()
      requires Sane()
      modifies this, channel, poller
      ensures Sane() && poller.known == old(poller.known) && View() == Closing(old(View()))
    {
      state := Disconnected;
      channel.DisableAll(poller);
    }

    method ConnectDestroyed()
      requires Sane()
      modifies this, channel, poller
      ensures Sane() && poller.known == old(poller.known) && View() == Destroying(old(View()))
      ensures channel.fd !in poller.kernel && channel.fd !in poller.channels
    {
      if state.Connected? {
        HandleClose();
      }
      poller.RemoveChannel(channel);
      destroyed := true;
    }
  }

  /** Perform an event if it can happen now; otherwise do nothing. */
  method Perform(conn: TcpConnection, e: Event)
    requires conn.Sane()
    modifies conn.Footprint()
    ensures conn.Sane() && fresh(conn.Footprint() - old(conn.Footprint())) && conn.poller.known == old(conn.poller.known)
    ensures conn.View() == Next(conn.Settings(), old(conn.View()), e)
  {
    match e
    case Establish => if conn.state.Connecting? { conn.ConnectEstablished(); }
    case SendData(data, result) => if Fits(result, data) { conn.Send(data, result); }
    case Writable(n) => if n <= conn.outputBuffer.ReadableBytes() && !conn.destroyed { conn.HandleWrite(n); }
    case ShutdownWrite => conn.Shutdown();
    case Close => if !conn.state.Connecting? && !conn.destroyed { conn.HandleClose(); }
    case Destroy => if !conn.state.Connecting? && !conn.destroyed { conn.ConnectDestroyed(); }
  }

  /** Over every run the object ends with the outcome of the schedule, and the kernel
      agrees: until close it watches for writability exactly while output is queued,
      after a close it watches for nothing. */
  method RunSchedule(fd: Fd, k: Config, schedule: seq<Event>) returns (conn: TcpConnection)
    ensures fresh(conn) && conn.Sane() && conn.Settings() == k && conn.View() == After(k, schedule)
    ensures Outcome(k, schedule, conn.View()) && conn.channel.fd == fd
    ensures (conn.state.Connected? || conn.state.Disconnecting?) && !conn.destroyed ==>
              fd in conn.poller.kernel && (conn.outputBuffer.Contents() != "" <==> conn.poller.kernel[fd].writing)
    ensures conn.state.Disconnected? && fd in conn.poller.kernel ==> conn.poller.kernel[fd] == NONE
    ensures conn.destroyed ==> fd !in conn.poller.kernel
  {
    var poller := new EPollPoller();
    var channel := new Channel(fd);
    poller.Adopt(channel);
    conn := new TcpConnection(channel, poller, k);
    for i := 0 to |schedule|
      invariant fresh(conn) && fresh(conn.Footprint()) && conn.Sane() && conn.channel == channel && conn.Settings() == k
      invariant conn.View() == After(k, schedule[..i])
    {
      Perform(conn, schedule[i]);
      assert schedule[..i + 1][..i] == schedule[..i];
    }
    assert schedule[..|schedule|] == schedule;
    RunHasOutcome(k, schedule);
    if (conn.state.Connected? || conn.state.Disconnecting?) && !conn.destroyed {
      conn.NoStalledOutput();
    }
  }
}
