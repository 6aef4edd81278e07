/**
 The timer queue (src/util/TimerQueue.cc, src/util/Timer.cc): an ordered set of
 timers and one one-shot alarm. Times are microseconds. Nothing is assumed about the
 clocks: each time that is read is a parameter of its step, and the alarm may go off
 before `now()` says that its timer is due.

 `handleRead` is cut where user code runs: it takes the due timers, runs their
 callbacks one by one (each may add timers), then restarts or deletes them.
 */
module TimerQueues {

  type Id = nat   // a Timer object

  datatype Timer = Timer(expiration: int, delta: nat, repeat: bool)

  datatype Entry = Entry(when: int, id: Id)

  datatype Alarm = Disarmed | Armed(at: int, since: int)

  datatype Phase =
    | Idle
    | Calling(next: nat)     // running the callbacks of the batch
    | Resetting(next: nat)   // restarting or deleting the timers of the batch

  /** Shortest delay the alarm is set to. */
  const MIN_DELAY: int := 100

  datatype Queue = Queue(
    timers: seq<Entry>,        // std::set, in its order
    timer: map<Id, Timer>,     // the Timer objects that exist
    alarm: Alarm,
    phase: Phase,
    batch: seq<Entry>,         // the local vector of expired entries
    readAt: int,               // `now` of the last handleRead
    created: set<Id>,          // every timer ever made
    runs: map<Id, nat>)        // how often each callback has run
  {
    /** Entries of the batch whose timers still await restart or deletion. */
    function Rest(): seq<Entry> {
      match phase
      case Idle => []
      case Calling(_) => batch
      case Resetting(k) => if k <= |batch| then batch[k..] else []
    }

    /** Number of entries of Rest() whose callback has been run. */
    function Done(): nat {
      if phase.Calling? then phase.next else |Rest()|
    }
  }

  const FRESH := Queue([], map[], Disarmed, Idle, [], 0, {}, map[])

  predicate Less(a: Entry, b: Entry) {
    a.when < b.when || (a.when == b.when && a.id < b.id)
  }

  function Inserted(s: seq<Entry>, e: Entry): seq<Entry> {
    if s == [] || Less(e, s[0]) then [e] + s else [s[0]] + Inserted(s[1..], e)
  }

  /** Length of the prefix that is due. */
  function DueCount(s: seq<Entry>, now: int): (k: nat)
    ensures k <= |s|
  {
    if s == [] || now < s[0].when then 0 else 1 + DueCount(s[1..], now)
  }

  /** A relative one-shot alarm, at least MIN_DELAY from now. */
  function AlarmFor(expiration: int, now: int): Alarm {
    Armed(if expiration - now < MIN_DELAY then now + MIN_DELAY else expiration, now)
  }

  // -------------------------------------------------------------------- steps

  function AddStep(q: Queue, id: Id, t: Timer, now: int): Queue {
    var earliestChanged := q.timers == [] || t.expiration < q.timers[0].when;
    q.(timers := Inserted(q.timers, Entry(t.expiration, id)), timer := q.timer[id := t],
       alarm := if earliestChanged then AlarmFor(t.expiration, now) else q.alarm,
       created := q.created + {id}, runs := q.runs[id := 0])
  }

  function FireStep(q: Queue, now: int): Queue {
    var k := DueCount(q.timers, now);
    q.(timers := q.timers[k..], batch := q.timers[..k], alarm := Disarmed, phase := Calling(0), readAt := now)
  }

  function CallStep(q: Queue): Queue
    requires q.phase.Calling? && q.phase.next <= |q.batch|
  {
    var k := q.phase.next;
    if k == |q.batch| then q.(phase := Resetting(0))
    else
      var id := q.batch[k].id;
      q.(phase := Calling(k + 1), runs := q.runs[id := (if id in q.runs then q.runs[id] else 0) + 1])
  }

  function ResetStep(q: Queue, now1: int, now2: int): Queue
    requires q.phase.Resetting? && q.phase.next <= |q.batch|
  {
    var k := q.phase.next;
    if k == |q.batch| then q.(phase := Idle)
    else
      var id := q.batch[k].id;
      var w := q.(phase := Resetting(k + 1));
      var w' := if id in q.timer && q.timer[id].repeat then Restarted(w, id, now1) else w.(timer := q.timer - {id});
      if w'.timers == [] then w' else w'.(alarm := AlarmFor(w'.timers[0].when, now2))
  }

  function Restarted(q: Queue, id: Id, now: int): Queue
    requires id in q.timer
  {
    var when := now + q.timer[id].delta;
    q.(timers := Inserted(q.timers, Entry(when, id)), timer := q.timer[id := q.timer[id].(expiration := when)])
  }

  datatype Step =
    | Add(id: Id, timer: Timer, now: int)
    | Fire(now: int)
    | Call
    | Reset(now1: int, now2: int)

  /** Timers are new objects; they are added between calls of `handleRead` or by the
      callbacks that it runs; the alarm goes off while it is set. */
  predicate Enabled(q: Queue, e: Step) {
    match e
    case Add(id, _, _) => id !in q.created && (q.phase.Idle? || (q.phase.Calling? && q.phase.next > 0))
    case Fire(_) => q.phase.Idle? && q.alarm.Armed?
    case Call => q.phase.Calling? && q.phase.next <= |q.batch|
    case Reset(_, _) => q.phase.Resetting? && q.phase.next <= |q.batch|
  }

  function Apply(q: Queue, e: Step): Queue
    requires Enabled(q, e)
  {
    match e
    case Add(id, t, now) => AddStep(q, id, t, now)
    case Fire(now) => FireStep(q, now)
    case Call => CallStep(q)
    case Reset(now1, now2) => ResetStep(q, now1, now2)
  }

  // ---------------------------------------------------------------- invariant

  ghost predicate Sorted(s: seq<Entry>) {
    forall i, j :: 0 <= i < j < |s| ==> Less(s[i], s[j])
  }

  /** The entries of a set or batch name existing timers by their current expiration. */
  ghost predicate Names(s: seq<Entry>, timer: map<Id, Timer>) {
    forall e {:trigger e in s} :: e in s ==> e.id in timer && timer[e.id].expiration == e.when
  }

  ghost predicate Holds(s: seq<Entry>, id: Id) {
    exists e :: e in s && e.id == id
  }

  /** Every existing timer is in exactly one of the set and the rest of the batch. */
  ghost predicate Placed(q: Queue) {
    && Sorted(q.timers) && Sorted(q.Rest())
    && Names(q.timers, q.timer) && Names(q.Rest(), q.timer)
    && (forall id {:trigger Holds(q.timers, id)} :: !(Holds(q.timers, id) && Holds(q.Rest(), id)))
    && (forall id {:trigger id in q.timer} :: id in q.timer ==> Holds(q.timers, id) || Holds(q.Rest(), id))
    && q.timer.Keys <= q.created
  }

  /** A one-shot timer has run once when its turn in a batch has come, and never
      before; only one-shot timers are ever deleted. */
  ghost predicate RunsOk(q: Queue) {
    && q.runs.Keys == q.created
    && (forall e {:trigger e in q.timers} :: e in q.timers && OneShot(q, e.id) ==> q.runs[e.id] == 0)
    && (forall i {:trigger q.Rest()[i]} :: 0 <= i < |q.Rest()| && OneShot(q, q.Rest()[i].id) ==>
          q.runs[q.Rest()[i].id] == if q.Done() <= i then 0 else 1)
    && (forall id {:trigger id in q.created} :: id in q.created && id !in q.timer ==> q.runs[id] == 1)
  }

  predicate OneShot(q: Queue, id: Id) {
    id in q.timer && !q.timer[id].repeat && id in q.runs
  }

  /** The alarm goes off when the head is due, but not within 100 microseconds of being
      set. */
  predicate ArmedFor(a: Alarm, when: int) {
    a.Armed? && a.at >= when && a.at >= a.since + 100 && (a.at == when || a.at == a.since + 100)
  }

  ghost predicate AlarmOk(q: Queue) {
    && (!q.phase.Idle? ==> q.phase.next <= |q.batch|)
    && (q.alarm.Armed? ==> q.timers != [] && ArmedFor(q.alarm, q.timers[0].when))
  }

  ghost predicate Due(q: Queue) {
    forall e {:trigger e in q.Rest()} :: e in q.Rest() ==> e.when <= q.readAt
  }

  ghost predicate Invariant(q: Queue) {
    Placed(q) && RunsOk(q) && AlarmOk(q) && Due(q)
  }

  // ------------------------------------------------------------------- lemmas

  lemma {:induction false} InsertedIsSorted(s: seq<Entry>, e: Entry)
    requires Sorted(s) && e !in s
    ensures Sorted(Inserted(s, e))
    ensures forall x :: x in Inserted(s, e) <==> x == e || x in s
    ensures Inserted(s, e) != []
    ensures Inserted(s, e)[0] == if s == [] || Less(e, s[0]) then e else s[0]
  {
    if s == [] || Less(e, s[0]) {
    } else {
      var t := s[1..];
      assert s == [s[0]] + t;
      assert forall i :: 0 <= i < |t| ==> t[i] == s[i + 1];
      assert Sorted(t);
      InsertedIsSorted(t, e);
      var u := Inserted(t, e);
      forall j | 0 <= j < |u| ensures Less(s[0], u[j]) {
        assert u[j] in u;
        if u[j] != e {
          var i :| 0 <= i < |t| && t[i] == u[j];
          assert Less(s[0], s[i + 1]);
        } else {
          assert e != s[0] by { assert s[0] in s; }
        }
      }
    }
  }

  /** The due prefix is exactly the entries due at or before now. */
  lemma {:induction false} DueIsExact(s: seq<Entry>, now: int)
    requires Sorted(s)
    ensures var k := DueCount(s, now);
            && (forall i :: 0 <= i < k ==> s[i].when <= now)
            && (forall i :: k <= i < |s| ==> now < s[i].when)
  {
    if s != [] && s[0].when <= now {
      var t := s[1..];
      assert forall i :: 0 <= i < |t| ==> t[i] == s[i + 1];
      DueIsExact(t, now);
    } else if s != [] {
      forall i | 0 <= i < |s| ensures now < s[i].when {
        if i > 0 { assert Less(s[0], s[i]); }
      }
    }
  }

  lemma HoldsInserted(s: seq<Entry>, e: Entry, id: Id)
    requires Sorted(s) && e !in s
    ensures Holds(Inserted(s, e), id) <==> id == e.id || Holds(s, id)
  {
  }

  lemma AddKeeps(q: Queue, id: Id, t: Timer, now: int)
    requires Invariant(q) && Enabled(q, Add(id, t, now))
    ensures Invariant(AddStep(q, id, t, now))
  {
    var w, e := AddStep(q, id, t, now), Entry(t.expiration, id);
    assert e !in q.timers;
    InsertedIsSorted(q.timers, e);
    AddPlaced(q, id, t, now);
    AddRuns(q, w, id, e);
  }

  lemma AddPlaced(q: Queue, id: Id, t: Timer, now: int)
    requires Placed(q) && id !in q.created && !q.phase.Resetting?
    ensures Placed(AddStep(q, id, t, now))
  {
    var w, e := AddStep(q, id, t, now), Entry(t.expiration, id);
    assert e !in q.timers;
    InsertedIsSorted(q.timers, e);
    assert w.Rest() == q.Rest();
    forall x ensures Holds(w.timers, x) <==> x == id || Holds(q.timers, x) {
      HoldsInserted(q.timers, e, x);
    }
    assert !Holds(q.Rest(), id);
  }

  lemma AddRuns(q: Queue, w: Queue, id: Id, e: Entry)
    requires Placed(q) && RunsOk(q) && id !in q.created && e.id == id
    requires w.Rest() == q.Rest() && w.Done() == q.Done() && w.created == q.created + {id} && w.runs == q.runs[id := 0]
    requires w.timer.Keys == q.timer.Keys + {id} && forall x :: x in q.timer ==> w.timer[x] == q.timer[x]
    requires forall x :: x in w.timers ==> x == e || x in q.timers
    ensures RunsOk(w)
  {
    forall i | 0 <= i < |w.Rest()| && OneShot(w, w.Rest()[i].id)
      ensures w.runs[w.Rest()[i].id] == if w.Done() <= i then 0 else 1
    {
      assert q.Rest()[i] in q.Rest();
      assert OneShot(q, q.Rest()[i].id);
    }
    forall x | x in w.timers && OneShot(w, x.id) ensures w.runs[x.id] == 0 {
      if x != e { assert x in q.timers; }
    }
  }

  lemma FireKeeps(q: Queue, now: int)
    requires Invariant(q) && Enabled(q, Fire(now))
    ensures Invariant(FireStep(q, now))
    ensures var w := FireStep(q, now);
            && q.timers != [] && (w.batch != [] <==> q.timers[0].when <= now) && w.batch + w.timers == q.timers
            && (forall e :: e in w.batch ==> e.when <= now) && (forall e :: e in w.timers ==> now < e.when)
  {
    var w, k := FireStep(q, now), DueCount(q.timers, now);
    FirePlaced(q, w, k);
    FireRuns(q, w, k);
    FireTakesDue(q, now);
  }

  lemma FireTakesDue(q: Queue, now: int)
    requires Sorted(q.timers) && q.timers != []
    ensures var w := FireStep(q, now);
            && (w.batch != [] <==> q.timers[0].when <= now) && w.batch + w.timers == q.timers
            && (forall e :: e in w.batch ==> e.when <= now) && (forall e :: e in w.timers ==> now < e.when)
  {
    DueIsExact(q.timers, now);
    CutAtDue(q.timers, DueCount(q.timers, now), now);
  }

  lemma CutAtDue(s: seq<Entry>, k: nat, now: int)
    requires k <= |s| && s != []
    requires forall i :: 0 <= i < k ==> s[i].when <= now
    requires forall i :: k <= i < |s| ==> now < s[i].when
    ensures s[..k] + s[k..] == s && (s[..k] != [] <==> s[0].when <= now)
    ensures (forall e :: e in s[..k] ==> e.when <= now) && (forall e :: e in s[k..] ==> now < e.when)
  {
  }

  lemma FirePlaced(q: Queue, w: Queue, k: nat)
    requires Placed(q) && q.phase.Idle? && k <= |q.timers| && w.Rest() == q.timers[..k] && w.timers == q.timers[k..]
    requires w.timer == q.timer && w.created == q.created
    ensures Placed(w)
  {
    forall id ensures !(Holds(w.timers, id) && Holds(w.Rest(), id)) && (Holds(q.timers, id) ==> Holds(w.timers, id) || Holds(w.Rest(), id)) {
      HoldsSplit(q.timers, q.timer, k, id);
    }
    assert forall x :: x in w.timers || x in w.Rest() ==> x in q.timers;
  }

  lemma HoldsSplit(s: seq<Entry>, timer: map<Id, Timer>, k: nat, id: Id)
    requires Sorted(s) && Names(s, timer) && k <= |s|
    ensures Holds(s, id) ==> Holds(s[k..], id) || Holds(s[..k], id)
    ensures !(Holds(s[k..], id) && Holds(s[..k], id))
  {
    forall i, j | 0 <= j < k <= i < |s| ensures s[j].id != s[i].id {
      assert Less(s[j], s[i]) && s[j] in s && s[i] in s;
    }
    if Holds(s, id) {
      var i :| 0 <= i < |s| && s[i].id == id;
      assert if i < k then s[i] in s[..k] else s[i] in s[k..];
    }
  }

  lemma FireRuns(q: Queue, w: Queue, k: nat)
    requires RunsOk(q) && k <= |q.timers| && w.Rest() == q.timers[..k] && w.timers == q.timers[k..] && w.Done() == 0
    requires w.timer == q.timer && w.created == q.created && w.runs == q.runs
    ensures RunsOk(w)
  {
    forall i | 0 <= i < |w.Rest()| && OneShot(w, w.Rest()[i].id) ensures w.runs[w.Rest()[i].id] == 0 {
      assert w.Rest()[i] == q.timers[i] && q.timers[i] in q.timers;
      assert OneShot(q, q.timers[i].id);
    }
    forall x | x in w.timers && OneShot(w, x.id) ensures w.runs[x.id] == 0 {
      assert x in q.timers && OneShot(q, x.id);
    }
  }

  lemma CallKeeps(q: Queue)
    requires Invariant(q) && q.phase.Calling?
    ensures q.phase.next <= |q.batch| && Invariant(CallStep(q))
    ensures q.phase.next < |q.batch| ==> q.batch[q.phase.next].when <= q.readAt && q.batch[q.phase.next].id in q.runs
  {
    var w, k := CallStep(q), q.phase.next;
    assert w.Rest() == q.Rest() == q.batch;
    if k < |q.batch| {
      assert q.batch[k] in q.Rest();
      CallRuns(q, w, k);
    } else {
      forall i | 0 <= i < |w.Rest()| && OneShot(w, w.Rest()[i].id) ensures w.runs[w.Rest()[i].id] == 1 {
        assert OneShot(q, q.Rest()[i].id);
      }
    }
  }

  lemma CallRuns(q: Queue, w: Queue, k: nat)
    requires Placed(q) && RunsOk(q) && q.phase == Calling(k) && k < |q.batch| && w == CallStep(q)
    ensures RunsOk(w)
  {
    var id := q.batch[k].id;
    assert q.batch[k] in q.Rest();
    forall i | 0 <= i < |w.Rest()| && OneShot(w, w.Rest()[i].id)
      ensures w.runs[w.Rest()[i].id] == if w.Done() <= i then 0 else 1
    {
      assert OneShot(q, q.Rest()[i].id) && q.Rest()[i] in q.Rest();
      if i < k { assert Less(q.batch[i], q.batch[k]); }
      if k < i { assert Less(q.batch[k], q.batch[i]); }
    }
    forall e | e in w.timers && OneShot(w, e.id) ensures w.runs[e.id] == 0 {
      assert OneShot(q, e.id);
      assert Holds(q.timers, e.id) && Holds(q.Rest(), id);
    }
  }

  /** The rest of the batch after its first entry. */
  lemma RestTail(s: seq<Entry>, timer: map<Id, Timer>)
    requires s != [] && Sorted(s) && Names(s, timer)
    ensures Sorted(s[1..]) && Names(s[1..], timer)
    ensures forall x {:trigger x in s[1..]} :: x in s[1..] ==> x in s && x.id != s[0].id
    ensures forall id :: Holds(s, id) <==> id == s[0].id || Holds(s[1..], id)
  {
    var t := s[1..];
    assert s == [s[0]] + t && s[0] in s;
    forall x | x in t ensures x in s && x.id != s[0].id {
      var i :| 0 <= i < |t| && t[i] == x;
      assert Less(s[0], s[i + 1]);
    }
    forall id ensures Holds(s, id) <==> id == s[0].id || Holds(t, id) {
      if Holds(s, id) { var x :| x in s && x.id == id; assert x == s[0] || x in t; }
      if Holds(t, id) { var x :| x in t && x.id == id; assert x in s; }
    }
  }

  lemma ResetKeeps(q: Queue, now1: int, now2: int)
    requires Invariant(q) && Enabled(q, Reset(now1, now2))
    ensures Invariant(ResetStep(q, now1, now2))
  {
    var w, k := ResetStep(q, now1, now2), q.phase.next;
    if k < |q.batch| {
      ResetNextKeeps(q, w, now1, now2);
    } else {
      assert w.Rest() == q.Rest() == [];
    }
  }

  lemma ResetNextKeeps(q: Queue, w: Queue, now1: int, now2: int)
    requires Invariant(q) && Enabled(q, Reset(now1, now2)) && q.phase.next < |q.batch|
    requires w == ResetStep(q, now1, now2)
    ensures Invariant(w)
  {
    FirstIsNamed(q);
    var id := q.batch[q.phase.next].id;
    var e := Entry(now1 + q.timer[id].delta, id);
    ResetIs(q, w, e, now1, now2);
    ResetDue(q, w);
    if q.timer[id].repeat { RestartKeeps(q, w, e); } else { DeleteKeeps(q, w, id); }
    ResetArms(q, w, now1, now2);
  }

  /** The first waiting entry of the batch, of timer id, has had its turn. */
  ghost predicate Advances(q: Queue, w: Queue, id: Id) {
    && q.phase.Resetting? && w.phase.Resetting? && q.Rest() != [] && q.Rest()[0].id == id && w.Rest() == q.Rest()[1..]
    && id in q.timer && w.created == q.created && w.runs == q.runs && w.readAt == q.readAt
  }

  /** Its timer is inserted anew as e. */
  ghost predicate Restarts(q: Queue, w: Queue, e: Entry) {
    && Advances(q, w, e.id) && q.timer[e.id].repeat
    && w.timers == Inserted(q.timers, e) && w.timer == q.timer[e.id := q.timer[e.id].(expiration := e.when)]
  }

  /** Its timer is deleted. */
  ghost predicate Deletes(q: Queue, w: Queue, id: Id) {
    Advances(q, w, id) && !q.timer[id].repeat && w.timers == q.timers && w.timer == q.timer - {id}
  }

  lemma ResetIs(q: Queue, w: Queue, e: Entry, now1: int, now2: int)
    requires Enabled(q, Reset(now1, now2)) && q.phase.next < |q.batch| && w == ResetStep(q, now1, now2)
    requires e.id == q.batch[q.phase.next].id && e.id in q.timer && e.when == now1 + q.timer[e.id].delta
    ensures if q.timer[e.id].repeat then Restarts(q, w, e) else Deletes(q, w, e.id)
  {
    assert e == Entry(now1 + q.timer[e.id].delta, e.id);
  }

  lemma FirstIsNamed(q: Queue)
    requires q.phase.Resetting? && q.phase.next < |q.batch| && Names(q.Rest(), q.timer)
    ensures q.batch[q.phase.next].id in q.timer
  {
    assert q.Rest()[0] in q.Rest();
  }

  lemma ResetArms(q: Queue, w: Queue, now1: int, now2: int)
    requires AlarmOk(q) && Enabled(q, Reset(now1, now2)) && q.phase.next < |q.batch|
    requires w == ResetStep(q, now1, now2)
    ensures AlarmOk(w)
  {
  }

  lemma ResetDue(q: Queue, w: Queue)
    requires Due(q) && q.Rest() != [] && w.Rest() == q.Rest()[1..] && q.readAt == w.readAt
    ensures Due(w)
  {
    forall e | e in w.Rest() ensures e.when <= w.readAt {
      assert e in q.Rest();
    }
  }

  lemma RestartKeeps(q: Queue, w: Queue, e: Entry)
    requires Placed(q) && RunsOk(q) && Restarts(q, w, e)
    ensures e !in q.timers && Placed(w) && RunsOk(w)
  {
    assert q.Rest()[0] in q.Rest();
    assert Holds(q.Rest(), e.id);
    assert !Holds(q.timers, e.id);
    RestartPlaced(q, w, e);
    RestRuns(q, w);
    InsertedIsSorted(q.timers, e);
    forall x | x in w.timers && OneShot(w, x.id) ensures w.runs[x.id] == 0 {
      assert OneShot(q, x.id) && x in q.timers;
    }
  }

  lemma RestartPlaced(q: Queue, w: Queue, e: Entry)
    requires Placed(q) && Restarts(q, w, e) && e !in q.timers && !Holds(q.timers, e.id)
    ensures Placed(w)
  {
    RestTail(q.Rest(), q.timer);
    InsertedIsSorted(q.timers, e);
    forall id ensures Holds(w.timers, id) <==> id == e.id || Holds(q.timers, id) {
      HoldsInserted(q.timers, e, id);
    }
    forall x | x in w.timers ensures x.id in w.timer && w.timer[x.id].expiration == x.when {
      if x != e { assert Holds(q.timers, x.id); }
    }
    assert !Holds(w.Rest(), e.id);
  }

  lemma DeleteKeeps(q: Queue, w: Queue, id: Id)
    requires Placed(q) && RunsOk(q) && Deletes(q, w, id)
    ensures Placed(w) && RunsOk(w)
  {
    RestTail(q.Rest(), q.timer);
    assert Holds(q.Rest(), id);
    assert !Holds(q.timers, id);
    assert OneShot(q, q.Rest()[0].id);
    forall x | x in w.timers ensures x.id != id {
      assert Holds(q.timers, x.id);
    }
    RestRuns(q, w);
    forall x | x in w.timers && OneShot(w, x.id) ensures w.runs[x.id] == 0 {
      assert OneShot(q, x.id);
    }
  }

  lemma RestRuns(q: Queue, w: Queue)
    requires RunsOk(q) && q.phase.Resetting? && w.phase.Resetting? && q.Rest() != [] && w.Rest() == q.Rest()[1..]
    requires w.runs == q.runs
    requires forall x :: x in w.timer ==> x in q.timer && w.timer[x].repeat == q.timer[x].repeat
    ensures forall i {:trigger w.Rest()[i]} :: 0 <= i < |w.Rest()| && OneShot(w, w.Rest()[i].id) ==>
              w.runs[w.Rest()[i].id] == if w.Done() <= i then 0 else 1
  {
  }

  // ---------------------------------------------------------------------- runs

  lemma StepKeepsInvariant(q: Queue, e: Step)
    requires Invariant(q) && Enabled(q, e)
    ensures Invariant(Apply(q, e))
  {
    match e
    case Add(id, t, now) => AddKeeps(q, id, t, now);
    case Fire(now) => FireKeeps(q, now);
    case Call => CallKeeps(q);
    case Reset(now1, now2) => ResetKeeps(q, now1, now2);
  }

  /** Step k of a run. */
  ghost predicate StepAt(states: seq<Queue>, events: seq<Step>, k: nat)
    requires k < |events| && |states| == |events| + 1
  {
    Enabled(states[k], events[k]) && states[k + 1] == Apply(states[k], events[k])
  }

  ghost predicate Run(states: seq<Queue>, events: seq<Step>) {
    && |states| == |events| + 1
    && states[0] == FRESH
    && forall k {:trigger StepAt(states, events, k)} :: 0 <= k < |events| ==> StepAt(states, events, k)
  }

  lemma {:induction false} RunIsSound(states: seq<Queue>, events: seq<Step>, k: nat)
    requires Run(states, events) && k < |states|
    ensures Invariant(states[k])
  {
    if k > 0 {
      RunIsSound(states, events, k - 1);
      assert StepAt(states, events, k - 1);
      StepKeepsInvariant(states[k - 1], events[k - 1]);
    }
  }

  /** A set alarm goes off when the head is due or 100 microseconds after it was set,
      whichever is later. A timer that no longer exists was one-shot and has run exactly
      once; a one-shot timer in the set has not run. */
  lemma AlarmsAndRuns(states: seq<Queue>, events: seq<Step>, k: nat, id: Id)
    requires Run(states, events) && k < |states|
    ensures var q := states[k];
            && (q.alarm.Armed? ==>
                  && q.timers != [] && q.alarm.at >= q.alarm.since + 100 && q.alarm.at >= q.timers[0].when
                  && (q.alarm.at == q.timers[0].when || q.alarm.at == q.alarm.since + 100))
            && (id in q.created && id !in q.timer ==> id in q.runs && q.runs[id] == 1 && !Holds(q.timers, id))
            && (OneShot(q, id) && Holds(q.timers, id) ==> q.runs[id] == 0)
  {
    RunIsSound(states, events, k);
    var q := states[k];
    if Holds(q.timers, id) {
      var e :| e in q.timers && e.id == id;
    }
  }

  // ------------------------------------------------------------ what steps do

  /** It is the turn of timer id to be restarted or deleted. */
  predicate Turn(q: Queue, id: Id) {
    q.phase.Resetting? && q.phase.next < |q.batch| && q.batch[q.phase.next].id == id
  }

  /** A timer changes only when it is restarted, one interval after `now`, and goes only
      when its turn comes and it does not repeat; a new timer is as it was made. */
  lemma TimersMove(q: Queue, e: Step, id: Id)
    requires Invariant(q) && Enabled(q, e)
    ensures var w := Apply(q, e);
            && (id in w.timer <==> (id in q.timer && (e.Reset? && Turn(q, id) ==> q.timer[id].repeat)) || (e.Add? && e.id == id))
            && (e.Add? && e.id == id ==> w.timer[id] == e.timer)
            && (id in q.timer && id in w.timer ==>
                  w.timer[id] == if e.Reset? && Turn(q, id) then q.timer[id].(expiration := e.now1 + q.timer[id].delta) else q.timer[id])
  {
    if e.Reset? {
      ResetTimer(q, e.now1, e.now2, id);
    } else {
      assert e.Add? ==> e.id !in q.timer;
    }
  }

  lemma ResetTimer(q: Queue, now1: int, now2: int, id: Id)
    requires Enabled(q, Reset(now1, now2))
    ensures var w := ResetStep(q, now1, now2);
            && (id in w.timer <==> id in q.timer && (Turn(q, id) ==> q.timer[id].repeat))
            && (id in w.timer ==>
                  w.timer[id] == if Turn(q, id) then q.timer[id].(expiration := now1 + q.timer[id].delta) else q.timer[id])
  {
  }

  /** Step e, from q, made timer t with this id, or restarted it. */
  predicate Sets(q: Queue, e: Step, id: Id, t: Timer) {
    if e.Add? then e.id == id && t == e.timer
    else e.Reset? && Turn(q, id) && t.repeat && t.expiration == e.now1 + t.delta
  }

  lemma TimerStep(q: Queue, e: Step, id: Id)
    requires Invariant(q) && Enabled(q, e) && id in Apply(q, e).timer
    ensures Sets(q, e, id, Apply(q, e).timer[id])
            || (id in q.timer && Apply(q, e).timer[id] == q.timer[id] && !(e.Reset? && Turn(q, id)))
  {
    TimersMove(q, e, id);
  }

  lemma RunTimerStep(states: seq<Queue>, events: seq<Step>, k: nat, id: Id)
    requires Run(states, events) && k < |events| && id in states[k + 1].timer
    ensures Sets(states[k], events[k], id, states[k + 1].timer[id])
            || (id in states[k].timer && states[k + 1].timer[id] == states[k].timer[id] && !(events[k].Reset? && Turn(states[k], id)))
  {
    RunIsSound(states, events, k);
    assert StepAt(states, events, k);
    TimerStep(states[k], events[k], id);
  }

  /** In every run a timer is due as it was made, or one interval after the `now` of its
      last restart. */
  lemma {:induction false} ExpirationHasCause(states: seq<Queue>, events: seq<Step>, k: nat, id: Id) returns (j: nat)
    requires Run(states, events) && k < |states| && id in states[k].timer
    ensures j < k && Sets(states[j], events[j], id, states[k].timer[id])
    ensures forall m :: j < m < k ==> !(events[m].Reset? && Turn(states[m], id))
  {
    j := k - 1;
    RunTimerStep(states, events, j, id);
    if !Sets(states[j], events[j], id, states[k].timer[id]) {
      j := ExpirationHasCause(states, events, j, id);
    }
  }

  /** Callbacks of the batch that have been run. */
  function Called(q: Queue): nat {
    if q.phase.Calling? then q.phase.next else |q.batch|
  }

  /** Since `q0`, when the batch was taken, its first callbacks have been run once each,
      and no other timer's. */
  ghost predicate CalledSince(q0: Queue, q: Queue) {
    && !q.phase.Idle? && q.batch == q0.batch && q.readAt == q0.readAt && q0.runs.Keys <= q.runs.Keys && Called(q) <= |q.batch|
    && (forall i :: 0 <= i < |q.batch| && q.batch[i].id in q0.runs ==>
          q.runs[q.batch[i].id] == q0.runs[q.batch[i].id] + if i < Called(q) then 1 else 0)
    && (forall id {:trigger q.runs[id]} :: id in q0.runs && !Holds(q.batch, id) ==> q.runs[id] == q0.runs[id])
  }

  lemma CallingGoesOn(q0: Queue, q: Queue, e: Step)
    requires Invariant(q) && Enabled(q, e) && !e.Fire? && CalledSince(q0, q) && !Apply(q, e).phase.Idle?
    requires forall i, j :: 0 <= i < j < |q.batch| ==> q.batch[i].id != q.batch[j].id
    requires q0.runs.Keys <= q.created && forall i :: 0 <= i < |q.batch| ==> q.batch[i].id in q0.runs
    ensures CalledSince(q0, Apply(q, e))
    ensures Called(Apply(q, e)) == if e.Call? && q.phase.next < |q.batch| then Called(q) + 1 else Called(q)
  {
  }

  /** Entries of a batch being called name different existing timers. */
  lemma BatchIsDistinct(q: Queue)
    requires Invariant(q) && q.phase.Calling?
    ensures forall i, j :: 0 <= i < j < |q.batch| ==> q.batch[i].id != q.batch[j].id
    ensures forall i :: 0 <= i < |q.batch| ==> q.batch[i].id in q.runs
  {
    assert q.Rest() == q.batch;
    forall i | 0 <= i < |q.batch| ensures q.batch[i].id in q.runs && q.batch[i].id in q.timer && q.timer[q.batch[i].id].expiration == q.batch[i].when {
      assert q.batch[i] in q.Rest();
    }
    forall i, j | 0 <= i < j < |q.batch| ensures q.batch[i].id != q.batch[j].id {
      assert Less(q.batch[i], q.batch[j]);
    }
  }

  /** While `handleRead` is at work, step j fired the alarm: the batch is what was due by
      the `now` of that step, and since then its first callbacks have been run, once each
      and in order, and no other timer's. */
  ghost predicate FiredAt(states: seq<Queue>, events: seq<Step>, j: nat, k: nat)
    requires |states| == |events| + 1 && j < k < |states|
  {
    && events[j].Fire? && states[k].readAt == events[j].now
    && (forall e :: e in states[j].timers ==> (e in states[k].batch <==> e.when <= events[j].now))
    && states[j + 1].phase == Calling(0) && CalledSince(states[j + 1], states[k])
  }

  lemma {:induction false} BatchHasFire(states: seq<Queue>, events: seq<Step>, k: nat) returns (j: nat)
    requires Run(states, events) && k < |states| && !states[k].phase.Idle?
    ensures j < k && FiredAt(states, events, j, k)
    ensures forall m :: j < m < k ==> !events[m].Fire?
  {
    j := k - 1;
    RunIsSound(states, events, j);
    assert StepAt(states, events, j);
    if events[j].Fire? {
      FireStarts(states[j], events[j].now);
    } else {
      j := BatchHasFire(states, events, k - 1);
      RunIsSound(states, events, j + 1);
      BatchGoesOn(states[j + 1], states[k - 1], events[k - 1]);
    }
  }

  lemma BatchGoesOn(q0: Queue, q: Queue, e: Step)
    requires Invariant(q0) && q0.phase == Calling(0) && Invariant(q) && Enabled(q, e) && !e.Fire? && CalledSince(q0, q)
    requires !Apply(q, e).phase.Idle?
    ensures CalledSince(q0, Apply(q, e)) && Apply(q, e).batch == q.batch && Apply(q, e).readAt == q.readAt
  {
    BatchIsDistinct(q0);
    assert q0.runs.Keys <= q.created;
    CallingGoesOn(q0, q, e);
  }

  lemma FireStarts(q: Queue, now: int)
    requires Invariant(q) && Enabled(q, Fire(now))
    ensures var w := FireStep(q, now);
            && w.readAt == now && w.phase == Calling(0) && CalledSince(w, w)
            && (forall e :: e in q.timers ==> (e in w.batch <==> e.when <= now))
  {
    FireKeeps(q, now);
    var w := FireStep(q, now);
    assert forall e :: e in q.timers ==> e in w.batch || e in w.timers;
  }

  // --------------------------------------------------------------- the alarm

  /** The last time the alarm went off nothing was due by `now()`, and no timer added
      since precedes all others. */
  predicate Starved(states: seq<Queue>, events: seq<Step>, k: nat)
    requires k <= |events| && |states| == |events| + 1
  {
    k > 0 && StarvedNext(states[k - 1], events[k - 1], Starved(states, events, k - 1))
  }

  predicate StarvedNext(q: Queue, e: Step, starved: bool) {
    match e
    case Fire(now) => q.timers != [] && now < q.timers[0].when
    case Add(_, t, _) => starved && q.timers != [] && q.timers[0].when <= t.expiration
    case _ => starved
  }

  /** How the alarm stands in each phase. */
  ghost predicate AlarmStands(q: Queue, starved: bool) {
    match q.phase
    case Idle => q.timers != [] ==> (q.alarm.Armed? <==> !starved)
    case Calling(k) => (starved <==> q.batch == []) && (starved ==> q.alarm == Disarmed && q.timers != [])
    case Resetting(k) =>
      && (starved <==> q.batch == []) && (starved ==> q.alarm == Disarmed && q.timers != [])
      && (k > 0 && q.timers != [] ==> q.alarm.Armed?)
  }

  lemma AlarmStep(q: Queue, e: Step, starved: bool)
    requires Invariant(q) && Enabled(q, e) && AlarmStands(q, starved)
    ensures AlarmStands(Apply(q, e), StarvedNext(q, e, starved))
  {
  }

  /** In every run an idle queue with timers has its alarm set if and only if, the last
      time it went off, its head was due by `now()`, or a timer added since then is the
      earliest. */
  lemma {:induction false} IdleQueueIsArmedIff(states: seq<Queue>, events: seq<Step>, k: nat)
    requires Run(states, events) && k < |states|
    ensures AlarmStands(states[k], Starved(states, events, k))
    ensures states[k].phase.Idle? && states[k].timers != [] ==> (states[k].alarm.Armed? <==> !Starved(states, events, k))
  {
    if k > 0 {
      IdleQueueIsArmedIff(states, events, k - 1);
      RunIsSound(states, events, k - 1);
      assert StepAt(states, events, k - 1);
      AlarmStep(states[k - 1], events[k - 1], Starved(states, events, k - 1));
    }
  }

  /** An alarm that goes off early by `now()` leaves a queue with a timer and no alarm. */
  lemma StarvedQueueIsReachable() returns (states: seq<Queue>, events: seq<Step>)
    ensures Run(states, events)
    ensures var q := states[|states| - 1]; q.phase.Idle? && q.timers != [] && q.alarm == Disarmed
  {
    var t := Timer(1000, 0, false);
    var a := AddStep(FRESH, 1, t, 0);
    var b := FireStep(a, 999);
    var c := CallStep(b);
    states, events := [FRESH, a, b, c, ResetStep(c, 999, 999)], [Add(1, t, 0), Fire(999), Call, Reset(999, 999)];
  }

  /** When `now()` never lags behind the alarm, every idle queue with timers is armed. */
  lemma {:induction false} PunctualQueueIsArmed(states: seq<Queue>, events: seq<Step>, k: nat)
    requires Run(states, events) && k < |states|
    requires forall j :: 0 <= j < k && events[j].Fire? && states[j].alarm.Armed? ==> states[j].alarm.at <= events[j].now
    ensures !Starved(states, events, k)
    ensures states[k].phase.Idle? && states[k].timers != [] ==> ArmedFor(states[k].alarm, states[k].timers[0].when)
  {
    RunIsSound(states, events, k);
    IdleQueueIsArmedIff(states, events, k);
    if k > 0 {
      PunctualQueueIsArmed(states, events, k - 1);
      RunIsSound(states, events, k - 1);
      assert StepAt(states, events, k - 1);
    }
  }

  /** No callback runs before its timer is due by the `now` that `handleRead` read. */
  lemma NeverEarly(states: seq<Queue>, events: seq<Step>, k: nat) returns (j: nat)
    requires Run(states, events) && k < |events| && events[k] == Call
    requires states[k].phase.Calling? && states[k].phase.next < |states[k].batch|
    ensures var e := states[k].batch[states[k].phase.next];
            && j < k && events[j].Fire? && e.when <= events[j].now
            && e.id in states[k].timer && states[k].timer[e.id].expiration == e.when
            && e.id in states[k + 1].runs && e.id in states[k].runs
            && states[k + 1].runs[e.id] == states[k].runs[e.id] + 1
  {
    RunIsSound(states, events, k);
    assert StepAt(states, events, k);
    CallKeeps(states[k]);
    j := BatchHasFire(states, events, k);
    assert states[k].batch[states[k].phase.next] in states[k].Rest();
  }

  lemma InsertedHere(s: seq<Entry>, e: Entry, i: nat)
    requires i <= |s| && (i < |s| ==> Less(e, s[i]))
    ensures s[..i] + Inserted(s[i..], e) == s[..i] + [e] + s[i..]
  {
    assert Inserted(s[i..], e) == [e] + s[i..];
  }

  lemma InsertedLater(s: seq<Entry>, e: Entry, i: nat)
    requires i < |s| && !Less(e, s[i])
    ensures s[..i] + Inserted(s[i..], e) == s[..i + 1] + Inserted(s[i + 1..], e)
  {
    assert s[i..][1..] == s[i + 1..] && s[..i] + [s[i]] == s[..i + 1];
    assert s[..i] + ([s[i]] + Inserted(s[i + 1..], e)) == (s[..i] + [s[i]]) + Inserted(s[i + 1..], e);
  }

  // ---------------------------------------------------------------- the class

  class TimerQueue {
    var timers: seq<Entry>
    var timer: map<Id, Timer>
    var alarm: Alarm
    var phase: Phase
    var batch: seq<Entry>
    var readAt: int
    ghost var created: set<Id>
    ghost var runs: map<Id, nat>

    ghost function Value(): Queue
      reads this
    {
      Queue(timers, timer, alarm, phase, batch, readAt, created, runs)
    }

    constructor ()
      ensures Value() == FRESH
    {
      timers, timer, alarm, phase, batch, readAt := [], map[], Disarmed, Idle, [], 0;
      created, runs := {}, map[];
    }

    /** `insert`: put the entry in its place; true when it is due before all others. */
    method Insert(e: Entry) returns (earliestChanged: bool)
      modifies this`timers
      ensures timers == Inserted(old(timers), e)
      ensures earliestChanged <==> old(timers) == [] || e.when < old(timers)[0].when
    {
      earliestChanged := timers == [] || e.when < timers[0].when;
      var i := 0;
      while i < |timers| && !Less(e, timers[i])
        invariant 0 <= i <= |timers| && timers == old(timers)
        invariant Inserted(timers, e) == timers[..i] + Inserted(timers[i..], e)
      {
        InsertedLater(timers, e, i);
        i := i + 1;
      }
      InsertedHere(timers, e, i);
      timers := timers[..i] + [e] + timers[i..];
    }

    method ResetTimerfd(expiration: int, now: int)
      modifies this`alarm
      ensures alarm == AlarmFor(expiration, now)
      ensures ArmedFor(alarm, expiration) && alarm.since == now
    {
      var difference := expiration - now;
      if difference < MIN_DELAY {
        difference := MIN_DELAY;
      }
      alarm := Armed(now + difference, now);
    }

    method AddTimerInLoop(id: Id, t: Timer, now: int)
      requires Enabled(Value(), Add(id, t, now))
      modifies this
      ensures Value() == Apply(old(Value()), Add(id, t, now))
    {
      timer := timer[id := t];
      created, runs := created + {id}, runs[id := 0];
      var earliestChanged := Insert(Entry(t.expiration, id));
      if earliestChanged {
        ResetTimerfd(t.expiration, now);
      }
    }

    /** `getExpired`: move the due prefix of the set to the batch. */
    method GetExpired(now: int)
      modifies this`timers, this`batch
      ensures batch == old(timers)[..DueCount(old(timers), now)] && timers == old(timers)[DueCount(old(timers), now)..]
    {
      var k := 0;
      while k < |timers| && timers[k].when <= now
        invariant 0 <= k <= |timers|
        invariant DueCount(timers, now) == k + DueCount(timers[k..], now)
      {
        assert timers[k..][1..] == timers[k + 1..];
        k := k + 1;
      }
      batch, timers := timers[..k], timers[k..];
    }

    /** The start of `handleRead`. */
    method BeginRead(now: int)
      requires Enabled(Value(), Fire(now))
      modifies this
      ensures Value() == Apply(old(Value()), Fire(now))
    {
      GetExpired(now);
      alarm, phase, readAt := Disarmed, Calling(0), now;
    }

    /** One round of the callback loop, or its end. */
    method RunNext()
      requires Enabled(Value(), Call)
      modifies this
      ensures Value() == Apply(old(Value()), Call)
    {
      if phase.next == |batch| {
        phase := Resetting(0);
      } else {
        var id := batch[phase.next].id;
        runs := runs[id := (if id in runs then runs[id] else 0) + 1];
        phase := Calling(phase.next + 1);
      }
    }

    /** One round of the reset loop, or its end. */
    method ResetNext(now1: int, now2: int)
      requires Enabled(Value(), Reset(now1, now2))
      modifies this
      ensures Value() == Apply(old(Value()), Reset(now1, now2))
    {
      if phase.next == |batch| {
        phase := Idle;
        return;
      }
      var id := batch[phase.next].id;
      phase := Resetting(phase.next + 1);
      if id in timer && timer[id].repeat {
        timer := timer[id := timer[id].(expiration := now1 + timer[id].delta)];
        var _ := Insert(Entry(timer[id].expiration, id));
      } else {
        timer := timer - {id};
      }
      if timers != [] {
        ResetTimerfd(timers[0].when, now2);
      }
    }
  }
}
