/**
 The double-buffered asynchronous log (src/log/AsyncLogging.cc): front-end threads
 append lines under a mutex while one backend thread swaps the full buffers out,
 writes them to the file and recycles two of them.

 Each locked region is one step; the backend thread can be interrupted between any
 two of its steps. A `unique_ptr` is never shared, so a buffer is modelled by its
 contents (which `FixedBuffers` justifies) and a null pointer by `Null`.
 */
module AsyncLog {
  import opened FixedBuffers

  const LARGE: nat := 4000 * 1000

  datatype BufferPtr = Null | Ptr(contents: string)

  /** Where the backend thread stands. */
  datatype Backend =
    | AtHead              // about to test running_
    | Waiting             // inside the locked region, mutex released by wait_for
    | Writing(next: nat)  // writing buffersToWrite, `next` buffers are written
    | Finished

  datatype Log = Log(
    running: bool,
    current: BufferPtr,       // shared with the front end, protected by the mutex
    next: BufferPtr,
    buffers: seq<string>,
    spare1: BufferPtr,        // local to the backend thread
    spare2: BufferPtr,
    toWrite: seq<string>,
    backend: Backend,
    file: string)
  {
    /** What the front end has filled since the last swap. */
    function Pending(): string { Flatten(buffers) + if current.Ptr? then current.contents else "" }

    /** What the backend has swapped out and not written yet. */
    function Unwritten(): string {
      if backend.Writing? && backend.next <= |toWrite| then Flatten(toWrite[backend.next..]) else ""
    }

    /** All accepted bytes: those in the file, and those on their way to it. */
    function Stream(): string { file + Unwritten() + Pending() }
  }

  const START := Log(true, Ptr(""), Ptr(""), [], Ptr(""), Ptr(""), [], AtHead, "")

  function Flatten(lines: seq<string>): string {
    if lines == [] then "" else lines[0] + Flatten(lines[1..])
  }

  lemma {:induction false} FlattenConcat(a: seq<string>, b: seq<string>)
    ensures Flatten(a + b) == Flatten(a) + Flatten(b)
  {
    if a == [] {
      assert a + b == b;
    } else {
      assert (a + b)[1..] == a[1..] + b;
      FlattenConcat(a[1..], b);
    }
  }

  lemma FlattenSnoc(a: seq<string>, x: string)
    ensures Flatten(a + [x]) == Flatten(a) + x
  {
    FlattenConcat(a, [x]);
    assert Flatten([x]) == x + Flatten([]);
  }

  // -------------------------------------------------------------------- steps

  /** `append` under the mutex. */
  function Appending(l: Log, line: string): Log
    requires l.current.Ptr?
  {
    var w := if |l.current.contents| + |line| < LARGE then l else Rotated(l);
    w.(current := Ptr(Appended(LARGE, w.current.contents, line)))
  }

  /** The current buffer is queued, and the spare or a new one takes its place. */
  function Rotated(l: Log): (w: Log)
    requires l.current.Ptr?
    ensures w.current.Ptr?
  {
    l.(buffers := l.buffers + [l.current.contents], current := if l.next.Ptr? then l.next else Ptr(""), next := Null)
  }

  /** The locked region of the backend: all buffers are handed over, even the current one. */
  function Swapped(l: Log): Log
    requires l.current.Ptr?
  {
    l.(toWrite := l.buffers + [l.current.contents], buffers := l.toWrite, current := l.spare1, spare1 := Null,
       next := if l.next.Null? then l.spare2 else l.next, spare2 := if l.next.Null? then Null else l.spare2,
       backend := Writing(0))
  }

  /** Null spares are refilled, emptied, from the buffers just written. */
  function Recycled(l: Log): Log {
    l.(spare1 := if l.spare1.Null? then Ptr("") else l.spare1, spare2 := if l.spare2.Null? then Ptr("") else l.spare2,
       toWrite := [], backend := AtHead)
  }

  /** Whatever the backend does next. */
  function BackendNext(l: Log): Log
    requires l.current.Ptr?
  {
    match l.backend
    case AtHead => l.(backend := if l.running then Waiting else Finished)
    case Waiting => Swapped(l)
    case Writing(k) =>
      if k < |l.toWrite| then l.(file := l.file + l.toWrite[k], backend := Writing(k + 1)) else Recycled(l)
    case Finished => l
  }

  datatype Event = AppendLine(line: string) | StopLogging | Backend

  function Next(l: Log, e: Event): Log
    requires l.current.Ptr?
  {
    match e
    case AppendLine(line) => Appending(l, line)
    case StopLogging => l.(running := false)
    case Backend => BackendNext(l)
  }

  // ---------------------------------------------------------------- invariant

  /** Between locked regions there is a current buffer with room left; a missing spare
      means that a buffer is queued, so that the backend never runs out of buffers. */
  predicate Sound(l: Log) {
    && l.current.Ptr? && |l.current.contents| < LARGE
    && (l.next.Ptr? ==> l.next.contents == "") && (l.next.Null? ==> l.buffers != [])
    && (l.backend.AtHead? || l.backend.Waiting? ==> l.spare1 == Ptr("") && l.spare2 == Ptr("") && l.toWrite == [])
    && (l.backend.Writing? ==>
          && l.backend.next <= |l.toWrite|
          && l.spare1 == Null && (l.spare2 == Null || l.spare2 == Ptr(""))
          && |l.toWrite| >= (if l.spare2.Null? then 2 else 1))
  }

  lemma NextIsSound(l: Log, e: Event)
    requires Sound(l)
    ensures Sound(Next(l, e))
  {
  }

  /** The state after a schedule: any interleaving of appends, a stop and backend steps. */
  function After(schedule: seq<Event>): (l: Log)
    ensures Sound(l)
  {
    if schedule == [] then START
    else
      var before := After(schedule[..|schedule| - 1]);
      NextIsSound(before, schedule[|schedule| - 1]);
      Next(before, schedule[|schedule| - 1])
  }

  // ----------------------------------------------------------------- the stream

  function AcceptedBy(e: Event): seq<string> {
    if e.AppendLine? && |e.line| < LARGE then [e.line] else []
  }

  /** The lines of a schedule that fit a buffer, in the order of their locks. */
  function Accepted(schedule: seq<Event>): seq<string> {
    if schedule == [] then []
    else Accepted(schedule[..|schedule| - 1]) + AcceptedBy(schedule[|schedule| - 1])
  }

  /** An append adds its line to what is pending, or drops it when no buffer can hold it. */
  lemma AppendIsPending(l: Log, line: string)
    requires Sound(l)
    ensures Appending(l, line).Pending() == l.Pending() + Flatten(AcceptedBy(AppendLine(line)))
  {
    FlattenSnoc(l.buffers, l.current.contents);
    FlattenSnoc([], line);
    assert Flatten(l.buffers) + (l.current.contents + line) == Flatten(l.buffers) + l.current.contents + line;
  }

  lemma BackendKeepsStream(l: Log)
    requires Sound(l)
    ensures BackendNext(l).Stream() == l.Stream()
  {
    match l.backend
    case AtHead =>
    case Finished =>
    case Waiting => SwapKeepsStream(l);
    case Writing(k) => if k < |l.toWrite| { WriteKeepsStream(l, k); }
  }

  lemma SwapKeepsStream(l: Log)
    requires Sound(l) && l.backend == Waiting
    ensures Swapped(l).Stream() == l.Stream()
  {
    FlattenSnoc(l.buffers, l.current.contents);
    assert Swapped(l).toWrite[0..] == l.buffers + [l.current.contents];
  }

  lemma WriteKeepsStream(l: Log, k: nat)
    requires Sound(l) && l.backend == Writing(k) && k < |l.toWrite|
    ensures l.(file := l.file + l.toWrite[k], backend := Writing(k + 1)).Stream() == l.Stream()
  {
    FlattenFrom(l.toWrite, k);
    var w := l.(file := l.file + l.toWrite[k], backend := Writing(k + 1));
    assert l.Unwritten() == l.toWrite[k] + w.Unwritten() && w.Pending() == l.Pending();
    Reassociate(l.file, l.toWrite[k], w.Unwritten(), w.Pending());
  }

  lemma FlattenFrom(lines: seq<string>, k: nat)
    requires k < |lines|
    ensures Flatten(lines[k..]) == lines[k] + Flatten(lines[k + 1..])
  {
    assert lines[k..][1..] == lines[k + 1..];
  }

  lemma Reassociate(a: string, b: string, c: string, d: string)
    ensures a + (b + c) + d == a + b + c + d
  {
    assert a + (b + c) == a + b + c;
  }

  lemma NextKeepsStream(l: Log, e: Event)
    requires Sound(l)
    ensures Next(l, e).Stream() == l.Stream() + Flatten(AcceptedBy(e))
  {
    match e
    case AppendLine(line) =>
      AppendIsPending(l, line);
      var a, b, c := l.file + l.Unwritten(), l.Pending(), Flatten(AcceptedBy(e));
      assert a + (b + c) == a + b + c;
    case StopLogging =>
    case Backend => BackendKeepsStream(l);
  }

  /** In every interleaving file, unwritten batch and pending buffers are, in this order,
      the accepted lines in lock order: the file is a prefix of them, and nothing is lost
      on the way, duplicated or reordered. */
  lemma {:induction false} RunKeepsStream(schedule: seq<Event>)
    ensures After(schedule).Stream() == Flatten(Accepted(schedule))
  {
    if schedule != [] {
      var before, e := schedule[..|schedule| - 1], schedule[|schedule| - 1];
      RunKeepsStream(before);
      NextKeepsStream(After(before), e);
      FlattenConcat(Accepted(before), AcceptedBy(e));
    }
  }

  // --------------------------------------------------------- what reaches the file

  /** Event i is the backend's swap. */
  predicate IsSwap(schedule: seq<Event>, i: nat)
    requires i < |schedule|
  {
    schedule[i].Backend? && After(schedule[..i]).backend.Waiting?
  }

  /** Event i appends a line that is accepted, not empty, and followed by no swap. */
  predicate IsLate(schedule: seq<Event>, i: nat)
    requires i < |schedule|
  {
    && schedule[i].AppendLine? && 0 < |schedule[i].line| < LARGE
    && forall j :: i < j < |schedule| ==> !IsSwap(schedule, j)
  }

  predicate HasLateLine(schedule: seq<Event>) {
    exists i :: 0 <= i < |schedule| && IsLate(schedule, i)
  }

  lemma NextPending(l: Log, e: Event)
    requires Sound(l)
    ensures Next(l, e).Pending() == if e.Backend? && l.backend.Waiting? then "" else l.Pending() + Flatten(AcceptedBy(e))
  {
    if e.AppendLine? { AppendIsPending(l, e.line); }
  }

  lemma LateNext(before: seq<Event>, e: Event)
    ensures var schedule := before + [e];
            HasLateLine(schedule) <==>
              (e.AppendLine? && 0 < |e.line| < LARGE) || (HasLateLine(before) && !IsSwap(schedule, |before|))
  {
    var n, schedule := |before|, before + [e];
    assert schedule[..n] == before;
    forall j: nat | j < n ensures IsSwap(schedule, j) <==> IsSwap(before, j) {
      assert schedule[..j] == before[..j];
    }
    if i :| 0 <= i < |schedule| && IsLate(schedule, i) {
      if i < n { assert IsLate(before, i); }
    }
    if i :| 0 <= i < n && IsLate(before, i) {
      if !IsSwap(schedule, n) { assert IsLate(schedule, i); }
    }
    if e.AppendLine? && 0 < |e.line| < LARGE {
      assert IsLate(schedule, n);
    }
  }

  lemma {:induction false} PendingIff(schedule: seq<Event>)
    ensures After(schedule).Pending() != "" <==> HasLateLine(schedule)
  {
    if schedule != [] {
      var n := |schedule| - 1;
      var before, e := schedule[..n], schedule[n];
      assert before + [e] == schedule;
      PendingIff(before);
      NextPending(After(before), e);
      FlattenSnoc([], if e.AppendLine? then e.line else "");
      LateNext(before, e);
    }
  }

  /** The backend leaves its loop without a last swap. The file of a finished run holds
      every accepted line if and only if no non-empty one comes after the last swap. */
  lemma FinishedFileIsCompleteIff(schedule: seq<Event>)
    requires After(schedule).backend.Finished?
    ensures After(schedule).file == Flatten(Accepted(schedule)) <==> !HasLateLine(schedule)
    ensures After(schedule).file + After(schedule).Pending() == Flatten(Accepted(schedule))
  {
    RunKeepsStream(schedule);
    PendingIff(schedule);
  }

  // ------------------------------------------------------------ how it is packed

  /** Lines filled into buffers of 4,000,000 bytes: a line that does not leave a byte free
      starts a new buffer, which stays empty if no buffer can hold the line. */
  function Packed(lines: seq<string>): (p: seq<string>)
    ensures p != []
  {
    if lines == [] then [""]
    else
      var line, p := lines[|lines| - 1], Packed(lines[..|lines| - 1]);
      var full, last := p[..|p| - 1], p[|p| - 1];
      if |last| + |line| < 4_000_000 then full + [last + line]
      else full + [last, if |line| < 4_000_000 then line else ""]
  }

  /** The lines appended since the last swap. */
  function SinceSwap(schedule: seq<Event>): seq<string> {
    if schedule == [] then []
    else
      var before, e := schedule[..|schedule| - 1], schedule[|schedule| - 1];
      match e
      case AppendLine(line) => SinceSwap(before) + [line]
      case StopLogging => SinceSwap(before)
      case Backend => if After(before).backend.Waiting? then [] else SinceSwap(before)
  }

  /** In every interleaving the queued buffers and the current one are the lines since the
      last swap, packed greedily. */
  lemma {:induction false} PendingIsPacked(schedule: seq<Event>)
    ensures var l := After(schedule); l.buffers + [l.current.contents] == Packed(SinceSwap(schedule))
  {
    if schedule != [] {
      var before, e := schedule[..|schedule| - 1], schedule[|schedule| - 1];
      PendingIsPacked(before);
      if e.AppendLine? {
        AppendPacks(After(before), e.line, SinceSwap(before));
      }
    }
  }

  lemma AppendPacks(l: Log, line: string, lines: seq<string>)
    requires Sound(l) && l.buffers + [l.current.contents] == Packed(lines)
    ensures var w := Appending(l, line); w.current.Ptr? && w.buffers + [w.current.contents] == Packed(lines + [line])
  {
    var p := Packed(lines);
    assert (lines + [line])[..|lines|] == lines;
    var cur := l.current.contents;
    assert p[|p| - 1] == cur && p[..|p| - 1] == l.buffers;
    if |cur| + |line| >= 4_000_000 {
      var x := if |line| < 4_000_000 then line else "";
      assert Appending(l, line).current.contents == x;
      assert l.buffers + [cur] + [x] == l.buffers + [cur, x];
    }
  }

  // --------------------------------------------------------------- the backend

  function Steps(l: Log, n: nat): (w: Log)
    requires Sound(l)
    ensures Sound(w)
  {
    if n == 0 then l
    else
      NextIsSound(Steps(l, n - 1), Event.Backend);
      BackendNext(Steps(l, n - 1))
  }

  /** A round of the backend that nobody disturbs writes everything that was pending, gives
      the front end two empty buffers, and ends at the loop test with two spare ones. */
  lemma RoundWritesAll(l: Log)
    requires Sound(l) && l.backend.Waiting?
    ensures Steps(l, |l.buffers| + 3) ==
            Log(l.running, Ptr(""), Ptr(""), [], Ptr(""), Ptr(""), [], AtHead, l.file + l.Pending())
  {
    var w, n := Swapped(l), |l.buffers| + 1;
    assert Steps(l, 0) == l && Steps(l, 1) == w;
    WritesFirst(l, n);
    assert w.toWrite[..n] == w.toWrite;
    FlattenSnoc(l.buffers, l.current.contents);
  }

  lemma {:induction false} WritesFirst(l: Log, k: nat)
    requires Sound(l) && l.backend.Waiting? && k <= |l.buffers| + 1
    ensures var w := Swapped(l); Steps(l, k + 1) == w.(file := l.file + Flatten(w.toWrite[..k]), backend := Writing(k))
  {
    var w := Swapped(l);
    if k == 0 {
      assert Steps(l, 0) == l;
      assert l.file + Flatten([]) == l.file;
    } else {
      WritesFirst(l, k - 1);
      assert w.toWrite[..k] == w.toWrite[..k - 1] + [w.toWrite[k - 1]];
      FlattenSnoc(w.toWrite[..k - 1], w.toWrite[k - 1]);
      assert l.file + (Flatten(w.toWrite[..k - 1]) + w.toWrite[k - 1]) == l.file + Flatten(w.toWrite[..k - 1]) + w.toWrite[k - 1];
    }
  }

  /** Event i is a loop test of the backend after a stop. */
  predicate FindsStop(schedule: seq<Event>, i: nat)
    requires i < |schedule|
  {
    schedule[i].Backend? && After(schedule[..i]).backend.AtHead? && StopLogging in schedule[..i]
  }

  predicate HasFoundStop(schedule: seq<Event>, n: nat)
    requires n <= |schedule|
  {
    exists i: nat :: i < n && FindsStop(schedule, i)
  }

  lemma HasFoundNext(schedule: seq<Event>, n: nat)
    requires n < |schedule|
    ensures HasFoundStop(schedule, n + 1) <==> HasFoundStop(schedule, n) || FindsStop(schedule, n)
  {
  }

  /** In every interleaving the backend has finished if and only if one of its loop tests
      came after the stop. */
  lemma {:induction false} FinishedIff(schedule: seq<Event>, n: nat)
    requires n <= |schedule|
    ensures After(schedule[..n]).backend.Finished? <==> HasFoundStop(schedule, n)
    ensures After(schedule[..n]).running <==> StopLogging !in schedule[..n]
  {
    if n > 0 {
      FinishedIff(schedule, n - 1);
      AfterNext(schedule, n - 1);
      HasFoundNext(schedule, n - 1);
      StopMoves(After(schedule[..n - 1]), schedule[n - 1]);
    }
  }

  lemma AfterNext(schedule: seq<Event>, n: nat)
    requires n < |schedule|
    ensures After(schedule[..n + 1]) == Next(After(schedule[..n]), schedule[n])
    ensures schedule[..n + 1] == schedule[..n] + [schedule[n]]
  {
    assert schedule[..n + 1][..n] == schedule[..n];
  }

  lemma StopMoves(l: Log, e: Event)
    requires Sound(l)
    ensures Next(l, e).backend.Finished? <==> l.backend.Finished? || (e.Backend? && l.backend.AtHead? && !l.running)
    ensures Next(l, e).running <==> l.running && e != StopLogging
  {
  }

  // ------------------------------------------------------------------- object

  class AsyncLogging {
    var running: bool
    var currentBuffer: BufferPtr
    var nextBuffer: BufferPtr
    var buffers: seq<string>
    var newBuffer1: BufferPtr
    var newBuffer2: BufferPtr
    var buffersToWrite: seq<string>
    var backend: Backend
    var file: string

    ghost function View(): Log
      reads this
    {
      Log(running, currentBuffer, nextBuffer, buffers, newBuffer1, newBuffer2, buffersToWrite, backend, file)
    }

    constructor ()
      ensures View() == START
    {
      running := true;
      currentBuffer, nextBuffer, buffers := Ptr(""), Ptr(""), [];
      newBuffer1, newBuffer2, buffersToWrite := Ptr(""), Ptr(""), [];
      backend, file := AtHead, "";
    }

    /** A front-end thread appends a line. It is accepted exactly when it is shorter than
        a whole buffer. */
    method Append(line: string)
      requires Sound(View())
      modifies this
      ensures View() == Appending(old(View()), line)
      ensures View().Pending() == old(View().Pending()) + if |line| < LARGE then line else ""
    {
      AppendIsPending(View(), line);
      FlattenSnoc([], line);
      if LARGE - |currentBuffer.contents| > |line| {
        currentBuffer := Ptr(Appended(LARGE, currentBuffer.contents, line));
      } else {
        RotateBuffers();
        currentBuffer := Ptr(Appended(LARGE, currentBuffer.contents, line));
      }
    }

    /** Put the current buffer in the queue and start on the spare, or a new one. */
    method RotateBuffers()
      requires Sound(View())
      modifies this
      ensures View() == Rotated(old(View())) && View().Pending() == old(View().Pending()) && currentBuffer == Ptr("")
    {
      FlattenSnoc(buffers, currentBuffer.contents);
      buffers := buffers + [currentBuffer.contents];
      if nextBuffer.Ptr? {
        currentBuffer, nextBuffer := nextBuffer, Null;
      } else {
        currentBuffer := Ptr("");
      }
    }

    method Stop()
      modifies this
      ensures View() == old(View()).(running := false)
    {
      running := false;
    }

    /** The loop test, and the entry into the locked region. */
    method EnterLoop()
      requires backend.AtHead?
      modifies this
      ensures View() == old(View()).(backend := if running then Waiting else Finished)
    {
      backend := if running then Waiting else Finished;
    }

    /** The locked region after the wait. */
    method SwapBuffers()
      requires Sound(View()) && backend.Waiting?
      modifies this
      ensures View() == Swapped(old(View())) && Sound(View())
      ensures View().Unwritten() == old(View().Pending()) && View().Pending() == "" && nextBuffer == Ptr("")
    {
      NextIsSound(View(), Event.Backend);
      FlattenSnoc(buffers, currentBuffer.contents);
      buffers := buffers + [currentBuffer.contents];
      currentBuffer, newBuffer1 := newBuffer1, Null;
      if nextBuffer.Null? {
        nextBuffer, newBuffer2 := newBuffer2, Null;
      }
      buffersToWrite, buffers := buffers, buffersToWrite;
      backend := Writing(0);
      assert buffersToWrite[0..] == buffersToWrite;
    }

    /** Write the next swapped-out buffer to the file. */
    method WriteOne()
      requires backend.Writing? && backend.next < |buffersToWrite|
      modifies this
      ensures View() == old(View()).(file := old(file) + old(buffersToWrite)[old(backend).next],
                                     backend := Writing(old(backend).next + 1))
    {
      file := file + buffersToWrite[backend.next];
      backend := Writing(backend.next + 1);
    }

    /** Keep two written buffers, emptied, as the next spares, and go round. Neither is
        taken from an empty vector. */
    method Recycle()
      requires Sound(View()) && backend.Writing? && backend.next == |buffersToWrite|
      modifies this
      ensures View() == Recycled(old(View())) && newBuffer1 == Ptr("") && newBuffer2 == Ptr("")
    {
      if |buffersToWrite| > 2 {
        buffersToWrite := buffersToWrite[..2];
      }
      if newBuffer1.Null? {
        assert buffersToWrite != [];
        newBuffer1 := Ptr(buffersToWrite[|buffersToWrite| - 1]);
        buffersToWrite := buffersToWrite[..|buffersToWrite| - 1];
        newBuffer1 := Ptr("");
      }
      if newBuffer2.Null? {
        assert buffersToWrite != [];
        newBuffer2 := Ptr(buffersToWrite[|buffersToWrite| - 1]);
        buffersToWrite := buffersToWrite[..|buffersToWrite| - 1];
        newBuffer2 := Ptr("");
      }
      buffersToWrite := [];
      backend := AtHead;
    }

    method BackendStep()
      requires Sound(View())
      modifies this
      ensures View() == BackendNext(old(View()))
    {
      match backend
      case AtHead => EnterLoop();
      case Waiting => SwapBuffers();
      case Writing(k) => if k < |buffersToWrite| { WriteOne(); } else { Recycle(); }
      case Finished =>
    }
  }

  method Perform(log: AsyncLogging, e: Event)
    requires Sound(log.View())
    modifies log
    ensures log.View() == Next(old(log.View()), e)
  {
    match e
    case AppendLine(line) => log.Append(line);
    case StopLogging => log.Stop();
    case Backend => log.BackendStep();
  }

  /** After any interleaving the object is in the state that the schedule leads to: the
      file is a prefix of the accepted lines, what is missing is what the buffers still
      hold, and once the backend has finished nothing is missing if and only if no
      non-empty line came after its last swap. */
  method RunSchedule(schedule: seq<Event>) returns (log: AsyncLogging)
    ensures fresh(log) && log.View() == After(schedule)
    ensures log.View().Stream() == Flatten(Accepted(schedule)) && log.file <= Flatten(Accepted(schedule))
    ensures log.backend.Finished? ==> (log.file == Flatten(Accepted(schedule)) <==> !HasLateLine(schedule))
    ensures log.backend.Finished? <==> HasFoundStop(schedule, |schedule|)
    ensures log.currentBuffer.Ptr? && log.buffers + [log.currentBuffer.contents] == Packed(SinceSwap(schedule))
  {
    log := new AsyncLogging();
    for i := 0 to |schedule|
      invariant fresh(log) && log.View() == After(schedule[..i])
    {
      Perform(log, schedule[i]);
      assert schedule[..i + 1][..i] == schedule[..i];
    }
    assert schedule[..|schedule|] == schedule;
    RunKeepsStream(schedule);
    FinishedIff(schedule, |schedule|);
    PendingIsPacked(schedule);
    if log.backend.Finished? {
      FinishedFileIsCompleteIff(schedule);
    }
  }

  /** A line appended before the stop can miss the file for good. */
  method StopMayDropLine(line: string) returns (log: AsyncLogging)
    requires 0 < |line| < LARGE
    ensures fresh(log) && log.View() == After([AppendLine(line), StopLogging, Event.Backend])
    ensures log.backend == Finished && log.file == ""
  {
    var schedule := [AppendLine(line), StopLogging, Event.Backend];
    log := RunSchedule(schedule);
    assert schedule[..2][..1] == [AppendLine(line)] && schedule[..2][1] == StopLogging;
    assert After([AppendLine(line)]) == Appending(START, line);
  }
}
