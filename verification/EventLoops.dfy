/**
 The functor queue of an event loop and its wakeup (src/net/EventLoop.cc): other
 threads push functors and then write to the eventfd, while the loop thread blocks
 in poll, drains the eventfd, and runs what is pending.

 A step is a locked region, a system call or a store that other threads can see;
 any thread may be interrupted between two of its steps.
 */
module EventLoops {

  type Functor = nat
  type Tid = nat

  /** Largest value an eventfd holds; a write that would exceed it fails. */
  const EVENTFD_MAX: nat := 0xFFFF_FFFF_FFFF_FFFE

  /** Where the loop thread stands. */
  datatype Position =
    | Outside             // `loop` has not been entered
    | AtHead              // about to test quit_
    | AtPoll              // about to block in, or blocked in, poll
    | Handling            // poll has returned, handlers run
    | Calling             // callingPendingFunctors_ is set, the queue is not swapped yet
    | Running(next: nat)  // running the local batch, `next` functors are done
    | Stopped

  datatype Loop = Loop(
    pending: seq<Functor>,
    calling: bool,
    quit: bool,
    counter: nat,             // the eventfd
    position: Position,
    functors: seq<Functor>,   // the local batch of doPendingFunctors
    waking: set<Tid>,         // other threads between a push or quit and their wakeup write
    ownerWaking: bool,        // the loop thread itself, in a functor, likewise
    executed: seq<Functor>)
  {
    function Batch(): seq<Functor> {
      if position.Running? && position.next <= |functors| then functors[position.next..] else []
    }

    /** Everything queued so far, in the order in which it is or will be run. */
    function Order(): seq<Functor> { executed + Batch() + pending }

    /** The loop thread will not sleep through: poll returns at once, or someone is
        just about to make it return. */
    predicate Signalled() { counter > 0 || waking != {} || ownerWaking }

    /** Where the loop thread may call `queueInLoop` or `quit`. */
    predicate OwnerMay() { (position.Outside? || position.Handling? || position.Running?) && !ownerWaking }
  }

  const START := Loop([], false, false, 0, Outside, [], {}, false, [])

  // -------------------------------------------------------------------- steps

  datatype Event =
    | Push(tid: Tid, functor: Functor)
    | Quit(tid: Tid)
    | Write(tid: Tid)
    | OwnerPush(functor: Functor)
    | OwnerQuit
    | LoopStep(sawWakeup: bool)

  /** The eventfd write; it fails only when the counter is already positive. */
  function Bumped(counter: nat): nat { if counter < EVENTFD_MAX then counter + 1 else counter }

  /** What an event does; one that is not possible now does nothing. */
  function Next(v: Loop, e: Event): Loop {
    match e
    case Push(t, f) => if t in v.waking then v else v.(pending := v.pending + [f], waking := v.waking + {t})
    case Quit(t) => if t in v.waking then v else v.(quit := true, waking := v.waking + {t})
    case Write(t) => if t !in v.waking then v else v.(counter := Bumped(v.counter), waking := v.waking - {t})
    case OwnerPush(f) => if v.OwnerMay() then v.(pending := v.pending + [f], ownerWaking := v.calling) else v
    case OwnerQuit => if v.OwnerMay() then v.(quit := true) else v
    case LoopStep(sawWakeup) => Advanced(v, sawWakeup)
  }

  /** What the loop thread does next; `sawWakeup` says whether poll reported the
      eventfd and its handler now runs. */
  function Advanced(v: Loop, sawWakeup: bool): Loop {
    match v.position
    case Outside => v.(quit := false, position := AtHead)
    case AtHead => v.(position := if v.quit then Stopped else AtPoll)
    case AtPoll => v.(position := Handling)
    case Handling => if sawWakeup && v.counter > 0 then v.(counter := 0) else v.(calling := true, position := Calling)
    case Calling => v.(functors := v.pending, pending := [], position := Running(0))
    case Running(k) =>
      if v.ownerWaking then v.(counter := Bumped(v.counter), ownerWaking := false)
      else if k < |v.functors| then v.(executed := v.executed + [v.functors[k]], position := Running(k + 1))
      else v.(calling := false, position := AtHead)
    case Stopped => v
  }

  /** The state after a schedule: any interleaving of any threads. */
  function After(schedule: seq<Event>): Loop {
    if schedule == [] then START else Next(After(schedule[..|schedule| - 1]), schedule[|schedule| - 1])
  }

  /** The functor that an event adds to the queue. */
  function Pushed(v: Loop, e: Event): seq<Functor> {
    match e
    case Push(t, f) => if t in v.waking then [] else [f]
    case OwnerPush(f) => if v.OwnerMay() then [f] else []
    case _ => []
  }

  /** The functors enqueued by a schedule, in the order of their locks. */
  function Enqueued(schedule: seq<Event>): seq<Functor> {
    if schedule == [] then []
    else
      var before := schedule[..|schedule| - 1];
      Enqueued(before) + Pushed(After(before), schedule[|schedule| - 1])
  }

  // ---------------------------------------------------------------- invariant

  predicate Sane(v: Loop) {
    && v.counter <= EVENTFD_MAX
    && (v.position.Running? ==> v.position.next <= |v.functors|)
    && v.calling == (v.position.Calling? || v.position.Running?)
    && (v.ownerWaking ==> v.position.Running?)
    && (v.position.AtPoll? && v.quit ==> v.Signalled())
  }

  /** Pending work is signalled where the loop could otherwise sleep on it. */
  predicate Covered(v: Loop) {
    v.position.Running? || v.position.AtHead? || v.position.AtPoll? ==> v.pending == [] || v.Signalled()
  }

  lemma NextIsSane(v: Loop, e: Event)
    requires Sane(v)
    ensures Sane(Next(v, e))
  {
  }

  /** Nothing queued is lost, run twice or reordered. */
  lemma NextKeepsOrder(v: Loop, e: Event)
    requires Sane(v)
    ensures Next(v, e).Order() == v.Order() + Pushed(v, e)
  {
    if e.LoopStep? {
      AdvancedKeepsOrder(v, e.sawWakeup);
    }
  }

  lemma AdvancedKeepsOrder(v: Loop, sawWakeup: bool)
    requires Sane(v)
    ensures Advanced(v, sawWakeup).Order() == v.Order()
  {
    if v.position.Running? && !v.ownerWaking && v.position.next < |v.functors| {
      MoveOne(v.executed, v.functors, v.position.next, v.pending);
    } else if v.position.Calling? {
      assert v.pending[0..] == v.pending;
    }
  }

  lemma MoveOne(done: seq<Functor>, s: seq<Functor>, k: nat, rest: seq<Functor>)
    requires k < |s|
    ensures (done + [s[k]]) + s[k + 1..] + rest == done + s[k..] + rest
  {
  }

  // ---------------------------------------------------------------------- runs

  lemma {:induction false} RunIsSane(schedule: seq<Event>)
    ensures Sane(After(schedule))
  {
    if schedule != [] {
      RunIsSane(schedule[..|schedule| - 1]);
      NextIsSane(After(schedule[..|schedule| - 1]), schedule[|schedule| - 1]);
    }
  }

  /** In every interleaving the executed functors, the rest of the batch and the pending
      ones are the functors that were enqueued, in that order. */
  lemma {:induction false} RunKeepsOrder(schedule: seq<Event>)
    ensures After(schedule).Order() == Enqueued(schedule)
  {
    if schedule != [] {
      var before := schedule[..|schedule| - 1];
      RunKeepsOrder(before);
      RunIsSane(before);
      NextKeepsOrder(After(before), schedule[|schedule| - 1]);
    }
  }

  function LoopSteps(schedule: seq<Event>): nat {
    if schedule == [] then 0
    else LoopSteps(schedule[..|schedule| - 1]) + if schedule[|schedule| - 1].LoopStep? then 1 else 0
  }

  /** No other thread has pushed or quit. */
  predicate Alone(schedule: seq<Event>) {
    forall i :: 0 <= i < |schedule| ==> !schedule[i].Push? && !schedule[i].Quit?
  }

  /** The loop thread has queued work before it entered `loop`. */
  predicate QueuedEarly(schedule: seq<Event>) {
    exists i :: 0 <= i < |schedule| && schedule[i].OwnerPush? && LoopSteps(schedule[..i]) == 0
  }

  /** The loop is about to block although work is pending and nobody will wake it. */
  predicate SleepsOnWork(v: Loop) {
    v.position.AtPoll? && v.pending != [] && !v.Signalled()
  }

  /** The state before the first poll has returned, and after. */
  ghost predicate Started(v: Loop, steps: nat, alone: bool, early: bool) {
    if steps >= 3 then !v.position.Outside? && Covered(v)
    else
      && (steps == 0 ==> v.position.Outside?) && (steps == 1 ==> v.position.AtHead?)
      && (steps == 2 ==> v.position.AtPoll? || v.position.Stopped?)
      && (alone && steps == 2 ==> v.position.AtPoll?) && (alone && steps > 0 ==> !v.quit)
      && !v.ownerWaking && (alone <==> v.counter == 0 && v.waking == {})
      && (alone ==> (v.pending != [] <==> early))
  }

  lemma StartedNext(v: Loop, e: Event, steps: nat, alone: bool, early: bool)
    requires Sane(v) && Started(v, steps, alone, early)
    ensures Started(Next(v, e), steps + (if e.LoopStep? then 1 else 0), alone && !e.Push? && !e.Quit?,
                    early || (e.OwnerPush? && steps == 0))
  {
  }

  lemma AloneNext(schedule: seq<Event>, e: Event)
    ensures Alone(schedule + [e]) <==> Alone(schedule) && !e.Push? && !e.Quit?
    ensures QueuedEarly(schedule + [e]) <==> QueuedEarly(schedule) || (e.OwnerPush? && LoopSteps(schedule) == 0)
  {
    var s := schedule + [e];
    assert s[|schedule|] == e && s[..|schedule|] == schedule;
    assert forall i :: 0 <= i < |schedule| ==> s[i] == schedule[i] && s[..i] == schedule[..i];
  }

  lemma {:induction false} RunIsStarted(schedule: seq<Event>)
    ensures Started(After(schedule), LoopSteps(schedule), Alone(schedule), QueuedEarly(schedule))
  {
    if schedule != [] {
      var before, e := schedule[..|schedule| - 1], schedule[|schedule| - 1];
      RunIsStarted(before);
      RunIsSane(before);
      StartedNext(After(before), e, LoopSteps(before), Alone(before), QueuedEarly(before));
      AloneNext(before, e);
      assert before + [e] == schedule;
    }
  }

  /** The wakeup protocol, exactly: in every interleaving the loop is about to sleep on
      pending work if and only if this is its first poll, the loop thread had queued work
      before it entered `loop`, and no other thread has pushed or quit so far. */
  lemma SleepsOnWorkIff(schedule: seq<Event>)
    ensures SleepsOnWork(After(schedule)) <==> LoopSteps(schedule) == 2 && QueuedEarly(schedule) && Alone(schedule)
  {
    RunIsStarted(schedule);
  }

  /** No lost wakeup when work is queued from handlers and functors only; and a stop is
      never slept through. */
  lemma NoLostWakeup(schedule: seq<Event>)
    requires !QueuedEarly(schedule)
    ensures var v := After(schedule);
            v.position.AtPoll? && (v.pending != [] || v.quit) ==> v.counter > 0 || v.waking != {}
  {
    SleepsOnWorkIff(schedule);
    RunIsSane(schedule);
  }

  // ------------------------------------------------------------------ stopping

  /** Event i sets the quit flag: a `quit` of another thread that is not between a push and
      its wakeup, or one of the loop thread where it runs user code. */
  predicate SetsQuit(schedule: seq<Event>, i: nat)
    requires i < |schedule|
  {
    var v := After(schedule[..i]);
    match schedule[i]
    case Quit(t) => t !in v.waking
    case OwnerQuit => (v.position.Outside? || v.position.Handling? || v.position.Running?) && !v.ownerWaking
    case _ => false
  }

  /** A quit came after the loop was entered; before that, entering forgets it. */
  predicate QuitAsked(schedule: seq<Event>, n: nat)
    requires n <= |schedule|
  {
    exists i: nat {:trigger SetsQuit(schedule, i)} :: i < n && SetsQuit(schedule, i) && (LoopSteps(schedule[..i]) > 0 || LoopSteps(schedule[..n]) == 0)
  }

  /** Event j is a loop test that finds a quit. */
  predicate FindsQuit(schedule: seq<Event>, j: nat)
    requires j < |schedule|
  {
    schedule[j].LoopStep? && After(schedule[..j]).position.AtHead? && QuitAsked(schedule, j)
  }

  lemma AfterNext(schedule: seq<Event>, n: nat)
    requires n < |schedule|
    ensures After(schedule[..n + 1]) == Next(After(schedule[..n]), schedule[n])
    ensures LoopSteps(schedule[..n + 1]) == LoopSteps(schedule[..n]) + if schedule[n].LoopStep? then 1 else 0
  {
    assert schedule[..n + 1][..n] == schedule[..n];
  }

  lemma {:induction false} EnteredIff(schedule: seq<Event>, n: nat)
    requires n <= |schedule|
    ensures After(schedule[..n]).position.Outside? <==> LoopSteps(schedule[..n]) == 0
  {
    if n > 0 {
      EnteredIff(schedule, n - 1);
      AfterNext(schedule, n - 1);
    }
  }

  /** In every interleaving the quit flag is set if and only if a quit came after the loop
      was entered, or the loop has not been entered yet. */
  lemma {:induction false} QuitIff(schedule: seq<Event>, n: nat)
    requires n <= |schedule|
    ensures After(schedule[..n]).quit <==> QuitAsked(schedule, n)
  {
    if n > 0 {
      QuitIff(schedule, n - 1);
      AfterNext(schedule, n - 1);
      EnteredIff(schedule, n - 1);
      QuitNext(schedule, n - 1);
      QuitMoves(After(schedule[..n - 1]), schedule[n - 1]);
    }
  }

  lemma QuitNext(schedule: seq<Event>, n: nat)
    requires n < |schedule|
    ensures QuitAsked(schedule, n + 1) <==>
            if schedule[n].LoopStep? && LoopSteps(schedule[..n]) == 0 then false
            else QuitAsked(schedule, n) || SetsQuit(schedule, n)
  {
    AfterNext(schedule, n);
    StepsGrow(schedule, n);
  }

  lemma {:induction false} StepsGrow(schedule: seq<Event>, n: nat)
    requires n <= |schedule|
    ensures forall i: nat :: i <= n ==> LoopSteps(schedule[..i]) <= LoopSteps(schedule[..n])
  {
    if n > 0 {
      StepsGrow(schedule, n - 1);
      AfterNext(schedule, n - 1);
    }
  }

  lemma QuitMoves(v: Loop, e: Event)
    ensures Next(v, e).quit <==>
            if e.LoopStep? && v.position.Outside? then false
            else v.quit || (e.Quit? && e.tid !in v.waking)
                 || (e.OwnerQuit? && (v.position.Outside? || v.position.Handling? || v.position.Running?) && !v.ownerWaking)
  {
  }

  /** One of the loop tests so far came after a quit that was not forgotten. */
  predicate HasFoundQuit(schedule: seq<Event>, n: nat)
    requires n <= |schedule|
  {
    exists j: nat :: j < n && FindsQuit(schedule, j)
  }

  /** In every interleaving the loop has stopped if and only if one of its tests came after
      a quit that it has not forgotten. */
  lemma {:induction false} StoppedIff(schedule: seq<Event>, n: nat)
    requires n <= |schedule|
    ensures After(schedule[..n]).position.Stopped? <==> HasFoundQuit(schedule, n)
  {
    if n > 0 {
      StoppedIff(schedule, n - 1);
      AfterNext(schedule, n - 1);
      QuitIff(schedule, n - 1);
      StopMoves(After(schedule[..n - 1]), schedule[n - 1]);
      HasFoundNext(schedule, n - 1);
    }
  }

  lemma HasFoundNext(schedule: seq<Event>, n: nat)
    requires n < |schedule|
    ensures HasFoundQuit(schedule, n + 1) <==> HasFoundQuit(schedule, n) || FindsQuit(schedule, n)
  {
  }

  lemma StopMoves(v: Loop, e: Event)
    ensures Next(v, e).position.Stopped? <==> v.position.Stopped? || (e.LoopStep? && v.position.AtHead? && v.quit)
  {
  }

  // -------------------------------------------------------------- the eventfd

  /** Event i writes the eventfd. */
  predicate Wakes(schedule: seq<Event>, i: nat)
    requires i < |schedule|
  {
    var v := After(schedule[..i]);
    match schedule[i]
    case Write(t) => t in v.waking
    case LoopStep(_) => v.position.Running? && v.ownerWaking
    case _ => false
  }

  /** Event i reads the eventfd. */
  predicate Drains(schedule: seq<Event>, i: nat)
    requires i < |schedule|
  {
    schedule[i] == LoopStep(true) && After(schedule[..i]).position.Handling?
  }

  /** The eventfd was written, and not read since. */
  predicate Readable(schedule: seq<Event>, n: nat)
    requires n <= |schedule|
  {
    exists i: nat {:trigger Wakes(schedule, i)} :: i < n && Wakes(schedule, i) && forall j: nat :: i < j < n ==> !Drains(schedule, j)
  }

  /** In every interleaving the counter of the eventfd is positive if and only if it was
      written after it was last read: poll blocks otherwise. */
  lemma {:induction false} ReadableIff(schedule: seq<Event>, n: nat)
    requires n <= |schedule|
    ensures After(schedule[..n]).counter > 0 <==> Readable(schedule, n)
  {
    if n > 0 {
      ReadableIff(schedule, n - 1);
      AfterNext(schedule, n - 1);
      RunIsSane(schedule[..n - 1]);
      CounterMoves(After(schedule[..n - 1]), schedule[n - 1]);
      ReadableNext(schedule, n - 1);
    }
  }

  lemma ReadableNext(schedule: seq<Event>, n: nat)
    requires n < |schedule|
    ensures Readable(schedule, n + 1) <==> Wakes(schedule, n) || (Readable(schedule, n) && !Drains(schedule, n))
  {
  }

  lemma CounterMoves(v: Loop, e: Event)
    requires Sane(v)
    ensures Next(v, e).counter > 0 <==>
            (e.Write? && e.tid in v.waking) || (e.LoopStep? && v.position.Running? && v.ownerWaking)
            || (v.counter > 0 && !(e == LoopStep(true) && v.position.Handling?))
  {
  }

  // ------------------------------------------------------------------- object

  class EventLoop {
    var pendingFunctors: seq<Functor>
    var callingPendingFunctors: bool
    var quit: bool
    var counter: nat
    var position: Position
    var functors: seq<Functor>
    var waking: set<Tid>
    var ownerWaking: bool
    ghost var executed: seq<Functor>

    ghost function View(): Loop
      reads this
    {
      Loop(pendingFunctors, callingPendingFunctors, quit, counter, position, functors, waking, ownerWaking, executed)
    }

    constructor ()
      ensures View() == START
    {
      pendingFunctors, callingPendingFunctors, quit, counter := [], false, false, 0;
      position, functors, waking, ownerWaking, executed := Outside, [], {}, false, [];
    }

    // -------------------------------------------------------- other threads

    /** `queueInLoop` of another thread, up to its wakeup. */
    method PushFromOther(t: Tid, f: Functor)
      modifies this
      ensures View() == old(View()).(pending := old(pendingFunctors) + [f], waking := old(waking) + {t})
    {
      pendingFunctors := pendingFunctors + [f];
      waking := waking + {t};
    }

    /** `quit` of another thread, up to its wakeup. */
    method QuitFromOther(t: Tid)
      modifies this
      ensures View() == old(View()).(quit := true, waking := old(waking) + {t})
    {
      quit := true;
      waking := waking + {t};
    }

    method Wakeup(t: Tid)
      modifies this
      ensures View() == old(View()).(counter := Bumped(old(counter)), waking := old(waking) - {t}) && counter > 0
    {
      if counter < EVENTFD_MAX {
        counter := counter + 1;
      }
      waking := waking - {t};
    }

    // -------------------------------------------------------- the loop thread

    /** `queueInLoop` of the loop thread; it wakes itself only while it runs functors. */
    method PushFromOwner(f: Functor)
      modifies this
      ensures View() == old(View()).(pending := old(pendingFunctors) + [f], ownerWaking := old(callingPendingFunctors))
    {
      pendingFunctors := pendingFunctors + [f];
      ownerWaking := callingPendingFunctors;
    }

    method WakeupFromOwner()
      modifies this
      ensures View() == old(View()).(counter := Bumped(old(counter)), ownerWaking := false) && counter > 0
    {
      if counter < EVENTFD_MAX {
        counter := counter + 1;
      }
      ownerWaking := false;
    }

    method QuitFromOwner()
      modifies this
      ensures View() == old(View()).(quit := true)
    {
      quit := true;
    }

    /** The start of `loop`, which forgets an earlier `quit`. */
    method EnterLoop()
      requires position.Outside?
      modifies this
      ensures View() == old(View()).(quit := false, position := AtHead)
    {
      quit := false;
      position := AtHead;
    }

    method TestQuit()
      requires position.AtHead?
      modifies this
      ensures View() == old(View()).(position := if old(quit) then Stopped else AtPoll)
    {
      position := if quit then Stopped else AtPoll;
    }

    /** Poll returns, because of the eventfd, another descriptor or the timeout. */
    method PollReturns()
      requires position.AtPoll?
      modifies this
      ensures View() == old(View()).(position := Handling)
    {
      position := Handling;
    }

    /** `handleWakeupRead`: a read resets the eventfd. */
    method HandleWakeupRead()
      requires position.Handling?
      modifies this
      ensures View() == old(View()).(counter := 0)
    {
      counter := 0;
    }

    method BeginPending()
      requires position.Handling?
      modifies this
      ensures View() == old(View()).(calling := true, position := Calling)
    {
      callingPendingFunctors := true;
      position := Calling;
    }

    method SwapPending()
      requires position.Calling?
      modifies this
      ensures View() == old(View()).(functors := old(pendingFunctors), pending := [], position := Running(0))
    {
      functors, pendingFunctors := pendingFunctors, [];
      position := Running(0);
    }

    method RunOne()
      requires position.Running? && position.next < |functors|
      modifies this
      ensures View() == old(View()).(executed := old(executed) + [old(functors)[old(position).next]],
                                     position := Running(old(position).next + 1))
    {
      executed := executed + [functors[position.next]];
      position := Running(position.next + 1);
    }

    method EndPending()
      requires position.Running? && position.next == |functors|
      modifies this
      ensures View() == old(View()).(calling := false, position := AtHead)
    {
      callingPendingFunctors := false;
      position := AtHead;
    }

    /** The body of a loop turn when no other thread interferes: everything pending
        is run once, in order, and nothing is left to wait for. */
    method DoPendingFunctors()
      requires position.Handling?
      modifies this
      ensures View() == old(View()).(calling := false, position := AtHead, functors := old(pendingFunctors), pending := [],
                                     executed := old(executed) + old(pendingFunctors))
    {
      BeginPending();
      SwapPending();
      ghost var v := View();
      while position.next < |functors|
        invariant position.Running? && position.next <= |functors| && functors == v.functors
        invariant View() == v.(position := position, executed := v.executed + functors[..position.next])
        decreases |functors| - position.next
      {
        RunOne();
      }
      assert functors[..position.next] == functors;
      EndPending();
    }
  }

  /** Perform an event if it is possible now; otherwise do nothing. */
  method Perform(loop: EventLoop, e: Event)
    requires Sane(loop.View())
    modifies loop
    ensures loop.View() == Next(old(loop.View()), e)
  {
    var may := (loop.position.Outside? || loop.position.Handling? || loop.position.Running?) && !loop.ownerWaking;
    match e
    case Push(t, f) => if t !in loop.waking { loop.PushFromOther(t, f); }
    case Quit(t) => if t !in loop.waking { loop.QuitFromOther(t); }
    case Write(t) => if t in loop.waking { loop.Wakeup(t); }
    case OwnerPush(f) => if may { loop.PushFromOwner(f); }
    case OwnerQuit => if may { loop.QuitFromOwner(); }
    case LoopStep(sawWakeup) => AdvanceLoop(loop, sawWakeup);
  }

  /** Whatever the loop thread does next. */
  method AdvanceLoop(loop: EventLoop, sawWakeup: bool)
    requires Sane(loop.View())
    modifies loop
    ensures loop.View() == Advanced(old(loop.View()), sawWakeup)
  {
    match loop.position
    case Outside => loop.EnterLoop();
    case AtHead => loop.TestQuit();
    case AtPoll => loop.PollReturns();
    case Handling => if sawWakeup && loop.counter > 0 { loop.HandleWakeupRead(); } else { loop.BeginPending(); }
    case Calling => loop.SwapPending();
    case Running(k) =>
      if loop.ownerWaking { loop.WakeupFromOwner(); }
      else if k < |loop.functors| { loop.RunOne(); }
      else { loop.EndPending(); }
    case Stopped =>
  }

  /** After any interleaving the object is in the state that the schedule leads to:
      functors are executed once each, in the order in which the schedule enqueued them,
      and the loop is about to sleep on pending work exactly in the one case of an early
      push by its own thread. */
  method RunSchedule(schedule: seq<Event>) returns (loop: EventLoop)
    ensures fresh(loop) && loop.View() == After(schedule)
    ensures loop.View().Order() == Enqueued(schedule) && loop.executed <= Enqueued(schedule)
    ensures SleepsOnWork(loop.View()) <==> LoopSteps(schedule) == 2 && QueuedEarly(schedule) && Alone(schedule)
    ensures loop.position.Stopped? <==> HasFoundQuit(schedule, |schedule|)
    ensures loop.counter > 0 <==> Readable(schedule, |schedule|)
  {
    loop := new EventLoop();
    for i := 0 to |schedule|
      invariant fresh(loop) && loop.View() == After(schedule[..i])
    {
      RunIsSane(schedule[..i]);
      Perform(loop, schedule[i]);
      assert schedule[..i + 1][..i] == schedule[..i];
    }
    assert schedule[..|schedule|] == schedule;
    RunKeepsOrder(schedule);
    SleepsOnWorkIff(schedule);
    StoppedIff(schedule, |schedule|);
    ReadableIff(schedule, |schedule|);
  }

  /** The loop thread itself gets no wakeup for what it queues before it enters its
      loop: the first poll blocks with work pending. */
  method QueueBeforeLoopIsNotSignalled(f: Functor) returns (loop: EventLoop)
    ensures fresh(loop) && SleepsOnWork(loop.View()) && loop.pendingFunctors == [f]
  {
    loop := new EventLoop();
    loop.PushFromOwner(f);
    loop.EnterLoop();
    loop.TestQuit();
  }
}
