/**
 Channels and the epoll poller (include/net/Channel.h, src/net/Channel.cc,
 src/net/EPollPoller.cc) against a model of the kernel's interest set.
 */
module Pollers {

  type Fd = int

  /** The two independent parts of `events_`: EPOLLIN|EPOLLPRI and EPOLLOUT. */
  datatype Mask = Mask(reading: bool, writing: bool)

  const NONE := Mask(false, false)

  datatype Index = New | Added | Deleted

  datatype Operation = Add | Modify | Delete

  class Channel {
    const fd: Fd
    var events: Mask
    var index: Index

    constructor (fd: Fd)
      ensures this.fd == fd && events == NONE && index == New
    {
      this.fd, events, index := fd, NONE, New;
    }

    predicate IsNoneEvent()
      reads this
    {
      events == NONE
    }

    /** `events_` is replaced and the poller told. */
    method SetEvents(poller: EPollPoller, mask: Mask)
      requires poller.Valid() && this in poller.known
      modifies this, poller
      ensures poller.Valid() && poller.known == old(poller.known) && poller.failures == old(poller.failures)
      ensures events == mask && index == (if old(index).Added? && mask == NONE then Deleted else Added)
      ensures poller.kernel == if index.Added? then old(poller.kernel)[fd := mask] else old(poller.kernel) - {fd}
    {
      events := mask;
      poller.UpdateChannel(this);
    }

    method EnableReading(poller: EPollPoller)
      requires poller.Valid() && this in poller.known
      modifies this, poller
      ensures poller.Valid() && poller.known == old(poller.known) && poller.failures == old(poller.failures)
      ensures events == old(events).(reading := true) && index == Added
      ensures poller.kernel == old(poller.kernel)[fd := events]
    {
      SetEvents(poller, events.(reading := true));
    }

    method EnableWriting(poller: EPollPoller)
      requires poller.Valid() && this in poller.known
      modifies this, poller
      ensures poller.Valid() && poller.known == old(poller.known) && poller.failures == old(poller.failures)
      ensures events == old(events).(writing := true) && index == Added
      ensures poller.kernel == old(poller.kernel)[fd := events]
    {
      SetEvents(poller, events.(writing := true));
    }

    method DisableWriting(poller: EPollPoller)
      requires poller.Valid() && this in poller.known
      modifies this, poller
      ensures poller.Valid() && poller.known == old(poller.known) && poller.failures == old(poller.failures)
      ensures events == old(events).(writing := false)
      ensures index == if old(index).Added? && events == NONE then Deleted else Added
      ensures poller.kernel == if index.Added? then old(poller.kernel)[fd := events] else old(poller.kernel) - {fd}
    {
      SetEvents(poller, events.(writing := false));
    }

    method DisableAll(poller: EPollPoller)
      requires poller.Valid() && this in poller.known
      modifies this, poller
      ensures poller.Valid() && poller.known == old(poller.known) && poller.failures == old(poller.failures)
      ensures events == NONE && index == if old(index).Added? then Deleted else Added
    {
      SetEvents(poller, NONE);
    }
  }

  class EPollPoller {
    var channels: map<Fd, Channel>
    var kernel: map<Fd, Mask>         // what the kernel watches, and for what
    var failures: nat                 // epoll_ctl calls that returned an error
    ghost var known: set<Channel>     // the channels of this loop

    /** The poller's books and the kernel agree with the channel. */
    ghost predicate Agrees(c: Channel)
      reads this, c
    {
      && (c.index.Added? <==> c.fd in kernel)
      && (c.index.Added? ==> kernel[c.fd] == c.events)
      && (c.index.New? <==> c.fd !in channels)
      && (!c.index.New? ==> channels[c.fd] == c)
    }

    /** Distinct descriptors, and agreement on every channel. */
    ghost predicate Valid()
      reads this, known
    {
      && DistinctFds()
      && (forall c :: c in known ==> Agrees(c))
      && (forall fd :: fd in channels ==> channels[fd] in known && channels[fd].fd == fd)
      && (forall fd :: fd in kernel ==> fd in channels)
    }

    ghost predicate DistinctFds()
      reads this
    {
      forall c, d :: c in known && d in known && c.fd == d.fd ==> c == d
    }

    constructor ()
      ensures Valid() && known == {} && failures == 0 && kernel == map[] && channels == map[]
    {
      channels, kernel, failures, known := map[], map[], 0, {};
    }

    /** A new channel of this loop; its descriptor is not in use by another. */
    ghost method Adopt(c: Channel)
      requires Valid() && c.index == New && c !in known
      requires forall d :: d in known ==> d.fd != c.fd
      modifies this`known
      ensures Valid() && known == old(known) + {c}
    {
      known := known + {c};
    }

    /** The system call: adding needs an absent descriptor, the others a present one. */
    method EpollCtl(op: Operation, fd: Fd, mask: Mask)
      modifies this`kernel, this`failures
      ensures (fd in old(kernel)) == !op.Add? ==>
                failures == old(failures) && kernel == if op.Delete? then old(kernel) - {fd} else old(kernel)[fd := mask]
      ensures (fd in old(kernel)) != !op.Add? ==> failures == old(failures) + 1 && kernel == old(kernel)
    {
      if (fd in kernel) != !op.Add? {
        failures := failures + 1;
      } else if op.Delete? {
        kernel := kernel - {fd};
      } else {
        kernel := kernel[fd := mask];
      }
    }

    /** Called after `events_` of one channel changed: everything else agrees. */
    method UpdateChannel(c: Channel)
      requires c in known && DistinctFds()
      requires forall d :: d in known && d != c ==> Agrees(d)
      requires forall fd :: fd in channels ==> channels[fd] in known && channels[fd].fd == fd
      requires forall fd :: fd in kernel ==> fd in channels
      requires (c.index.Added? <==> c.fd in kernel) && (c.index.New? <==> c.fd !in channels) && (!c.index.New? ==> channels[c.fd] == c)
      modifies c`index, this`channels, this`kernel, this`failures
      ensures Valid() && failures == old(failures)
      ensures c.index == if old(c.index).Added? && c.events == NONE then Deleted else Added
      ensures kernel == if c.index.Added? then old(kernel)[c.fd := c.events] else old(kernel) - {c.fd}
    {
      if c.index.New? || c.index.Deleted? {
        if c.index.New? {
          channels := channels[c.fd := c];
        }
        c.index := Added;
        EpollCtl(Add, c.fd, c.events);
      } else if c.IsNoneEvent() {
        EpollCtl(Delete, c.fd, c.events);
        c.index := Deleted;
      } else {
        EpollCtl(Modify, c.fd, c.events);
      }
      forall d | d in known ensures Agrees(d) {
        if d != c { assert d.fd != c.fd; }
      }
    }

    method RemoveChannel(c: Channel)
      requires Valid() && c in known
      modifies c`index, this`channels, this`kernel, this`failures
      ensures Valid() && failures == old(failures)
      ensures c.index == New && c.fd !in kernel && c.fd !in channels
      ensures kernel == old(kernel) - {c.fd}
    {
      channels := channels - {c.fd};
      if c.index.Added? {
        EpollCtl(Delete, c.fd, c.events);
      }
      c.index := New;
      forall d | d in known ensures Agrees(d) {
        if d != c { assert d.fd != c.fd; }
      }
    }
  }

  // ---------------------------------------------------------------------- runs

  datatype Event = Interest(who: nat, mask: Mask) | Remove(who: nat)

  /** The mask that channel i was given last; removal does not change it. */
  function MaskAfter(schedule: seq<Event>, i: nat): Mask {
    if schedule == [] then NONE
    else
      var e := schedule[|schedule| - 1];
      if e.Interest? && e.who == i then e.mask else MaskAfter(schedule[..|schedule| - 1], i)
  }

  /** Whether channel i is registered: a mask change registers it, except that clearing
      the mask of a registered channel only keeps it in the books; removal forgets it. */
  function IndexAfter(schedule: seq<Event>, i: nat): Index {
    if schedule == [] then New
    else
      var e, before := schedule[|schedule| - 1], IndexAfter(schedule[..|schedule| - 1], i);
      if e.who != i then before
      else if e.Remove? then New
      else if before.Added? && e.mask == NONE then Deleted
      else Added
  }

  /** Every channel is as the schedule left it. */
  ghost predicate Follows(channels: seq<Channel>, schedule: seq<Event>)
    reads channels
  {
    forall i :: 0 <= i < |channels| ==>
      channels[i].events == MaskAfter(schedule, i) && channels[i].index == IndexAfter(schedule, i)
  }

  /** Over every run of interest changes and removals on channels with distinct
      descriptors: no epoll_ctl ever fails, and the kernel watches exactly the
      descriptors of the channels that the run leaves registered, each with the mask it
      was given last; the books hold exactly the channels that are not forgotten. */
  method RunSchedule(fds: seq<Fd>, schedule: seq<Event>) returns (poller: EPollPoller, channels: seq<Channel>)
    requires forall i, j :: 0 <= i < j < |fds| ==> fds[i] != fds[j]
    ensures |channels| == |fds| && poller.failures == 0
    ensures forall i :: 0 <= i < |channels| ==> channels[i].fd == fds[i]
    ensures Follows(channels, schedule)
    ensures forall i :: 0 <= i < |fds| ==>
              && (fds[i] in poller.kernel <==> IndexAfter(schedule, i).Added?)
              && (fds[i] in poller.kernel ==> poller.kernel[fds[i]] == MaskAfter(schedule, i))
              && (fds[i] in poller.channels <==> !IndexAfter(schedule, i).New?)
    ensures forall fd :: fd in poller.kernel || fd in poller.channels ==> fd in fds
  {
    poller, channels := OpenAll(fds);
    for k := 0 to |schedule|
      invariant fresh(poller) && poller.Valid() && poller.failures == 0
      invariant forall c :: c in poller.known <==> c in channels
      invariant forall i :: 0 <= i < |channels| ==> fresh(channels[i])
      invariant Follows(channels, schedule[..k])
    {
      assert schedule[..k + 1][..k] == schedule[..k];
      Perform(poller, channels, schedule[k], schedule[..k + 1]);
    }
    assert schedule[..|schedule|] == schedule;
    forall i | 0 <= i < |channels| ensures poller.Agrees(channels[i]) {
      assert channels[i] in poller.known;
    }
  }

  /** One new channel per descriptor. */
  method OpenAll(fds: seq<Fd>) returns (poller: EPollPoller, channels: seq<Channel>)
    requires forall i, j :: 0 <= i < j < |fds| ==> fds[i] != fds[j]
    ensures fresh(poller) && poller.Valid() && poller.failures == 0 && |channels| == |fds|
    ensures forall c :: c in poller.known <==> c in channels
    ensures forall i :: 0 <= i < |fds| ==> fresh(channels[i]) && channels[i].fd == fds[i]
    ensures forall i :: 0 <= i < |fds| ==> channels[i].events == NONE && channels[i].index == New
  {
    poller := new EPollPoller();
    channels := [];
    while |channels| < |fds|
      invariant |channels| <= |fds| && fresh(poller) && poller.Valid() && poller.failures == 0
      invariant forall c :: c in poller.known <==> c in channels
      invariant forall i :: 0 <= i < |channels| ==> fresh(channels[i]) && channels[i].fd == fds[i]
      invariant forall i :: 0 <= i < |channels| ==> channels[i].events == NONE && channels[i].index == New
      decreases |fds| - |channels|
    {
      var c := new Channel(fds[|channels|]);
      poller.Adopt(c);
      channels := channels + [c];
    }
  }

  /** The last event of a schedule, on the channel it names if there is such a one. */
  method Perform(poller: EPollPoller, channels: seq<Channel>, e: Event, ghost schedule: seq<Event>)
    requires poller.Valid() && (forall c :: c in poller.known <==> c in channels)
    requires forall i, j :: 0 <= i < j < |channels| ==> channels[i] != channels[j]
    requires schedule != [] && e == schedule[|schedule| - 1] && Follows(channels, schedule[..|schedule| - 1])
    modifies poller, channels
    ensures poller.Valid() && poller.known == old(poller.known) && poller.failures == old(poller.failures)
    ensures Follows(channels, schedule)
  {
    if e.who < |channels| {
      if e.Interest? {
        channels[e.who].SetEvents(poller, e.mask);
      } else {
        poller.RemoveChannel(channels[e.who]);
      }
    }
  }
}
