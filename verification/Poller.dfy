/** Channels and the epoll registration they drive.  The kernel's interest list is a ghost field:
    `epoll_ctl` is the transition the system performs on it. */
module Poller {
  import opened Options

  const NONE_EVENT: bv8 := 0
  const READ_EVENT: bv8 := 3   // EPOLLIN | EPOLLPRI
  const WRITE_EVENT: bv8 := 4  // EPOLLOUT

  /** `index_` of a channel: -1, 1 and 2 in the source. */
  datatype Index = New | Added | Deleted

  datatype Operation = CtlAdd | CtlMod | CtlDel

  /** The kernel's answer: ADD of a registered descriptor, and MOD or DEL of an unregistered one,
      is refused. */
  ghost function EpollCtl(kernel: map<int, bv8>, op: Operation, fd: int, mask: bv8): Option<map<int, bv8>> {
    match op
    case CtlAdd => if fd in kernel then None else Some(kernel[fd := mask])
    case CtlMod => if fd in kernel then Some(kernel[fd := mask]) else None
    case CtlDel => if fd in kernel then Some(kernel - {fd}) else None
  }

  class Channel {
    const fd: int
    const poller: EPollPoller
    var events: bv8
    var index: Index

    /** A new channel of a loop; its descriptor is not that of another channel. */
    constructor (poller: EPollPoller, fd: int)
      requires poller.Valid() && forall c :: c in poller.all ==> c.fd != fd
      modifies poller`all
      ensures this.poller == poller && this.fd == fd && events == NONE_EVENT && index == New
      ensures poller.Valid() && poller.all == old(poller.all) + {this}
    {
      this.poller, this.fd := poller, fd;
      events, index := NONE_EVENT, New;
      new;
      poller.all := poller.all + {this};
    }

    predicate IsReading()
      reads this
    {
      events & READ_EVENT != 0
    }

    predicate IsWriting()
      reads this
    {
      events & WRITE_EVENT != 0
    }

    predicate IsNoneEvent()
      reads this
    {
      events == NONE_EVENT
    }

    ghost predicate Attached()
      reads poller, poller.all, this
    {
      this in poller.all && poller.Valid()
    }

    method EnableReading()
      requires Attached()
      modifies this, poller`channels, poller`kernel, poller`refused
      ensures Attached() && events == old(events) | READ_EVENT
      ensures poller.kernel == Interest(old(poller.kernel), old(index), fd, events)
      ensures index == Added
    {
      ReadBits(events);
      events := events | READ_EVENT;
      Update();
    }

    method DisableReading()
      requires Attached()
      modifies this, poller`channels, poller`kernel, poller`refused
      ensures Attached() && events == old(events) & !READ_EVENT
      ensures poller.kernel == Interest(old(poller.kernel), old(index), fd, events)
      ensures index == NextIndex(old(index), events)
    {
      events := events & !READ_EVENT;
      Update();
    }

    method EnableWriting()
      requires Attached()
      modifies this, poller`channels, poller`kernel, poller`refused
      ensures Attached() && IsWriting() && (IsReading() <==> old(IsReading()))
      ensures events == old(events) | WRITE_EVENT
      ensures poller.kernel == Interest(old(poller.kernel), old(index), fd, events)
      ensures index == Added
    {
      WriteBits(events);
      events := events | WRITE_EVENT;
      Update();
    }

    method DisableWriting()
      requires Attached()
      modifies this, poller`channels, poller`kernel, poller`refused
      ensures Attached() && !IsWriting() && (IsReading() <==> old(IsReading()))
      ensures events == old(events) & !WRITE_EVENT
      ensures poller.kernel == Interest(old(poller.kernel), old(index), fd, events)
      ensures index == NextIndex(old(index), events)
    {
      WriteBits(events);
      events := events & !WRITE_EVENT;
      Update();
    }

    method DisableAll()
      requires Attached()
      modifies this, poller`channels, poller`kernel, poller`refused
      ensures Attached() && events == NONE_EVENT && !IsWriting() && !IsReading()
      ensures poller.kernel == Interest(old(poller.kernel), old(index), fd, events)
      ensures index == NextIndex(old(index), events)
    {
      events := NONE_EVENT;
      Update();
    }

    method Update()
      requires this in poller.all && poller.ValidBut(this)
      modifies `index, poller`channels, poller`kernel, poller`refused
      ensures Attached()
      ensures poller.kernel == Interest(old(poller.kernel), old(index), fd, events)
      ensures index == NextIndex(old(index), events)
    {
      poller.UpdateChannel(this);
    }

    method Remove()
      requires Attached()
      modifies `index, poller`channels, poller`kernel, poller`refused
      ensures Attached() && index == New
      ensures poller.kernel == old(poller.kernel) - {fd} && poller.channels == old(poller.channels) - {fd}
    {
      poller.RemoveChannel(this);
    }
  }

  lemma ReadBits(e: bv8)
    ensures e | READ_EVENT != NONE_EVENT
  {
  }

  lemma WriteBits(e: bv8)
    ensures e | WRITE_EVENT != NONE_EVENT
    ensures (e | WRITE_EVENT) & WRITE_EVENT != 0 && (e | WRITE_EVENT) & READ_EVENT == e & READ_EVENT
    ensures (e & !WRITE_EVENT) & WRITE_EVENT == 0 && (e & !WRITE_EVENT) & READ_EVENT == e & READ_EVENT
  {
  }

  /** The interest list after a channel has changed its mask to `mask`: an empty mask takes a
      registered descriptor out, and puts an unregistered one in. */
  ghost function Interest(kernel: map<int, bv8>, index: Index, fd: int, mask: bv8): map<int, bv8> {
    if index == Added && mask == NONE_EVENT then kernel - {fd} else kernel[fd := mask]
  }

  ghost function NextIndex(index: Index, mask: bv8): Index {
    if index == Added && mask == NONE_EVENT then Deleted else Added
  }

  class EPollPoller {
    var channels: map<int, Channel>
    ghost var all: set<Channel>         // the channels alive in this loop
    ghost var kernel: map<int, bv8>
    ghost var refused: nat              // epoll_ctl calls that failed

    /** The descriptors of the live channels are distinct, and `channels` holds exactly those that
        are not new. */
    ghost predicate Registry()
      reads this, all
    {
      && (forall c :: c in all ==> c.poller == this)
      && (forall c, d :: c in all && d in all && c != d ==> c.fd != d.fd)
      && (forall c :: c in all ==> (c.index != New <==> c.fd in channels && channels[c.fd] == c))
      && (forall fd :: fd in channels ==> channels[fd] in all && channels[fd].fd == fd)
    }

    /** The kernel watches exactly the channels that are added, each under its own mask. */
    ghost predicate Watched(c: Channel)
      reads this, c
    {
      (c.index == Added <==> c.fd in kernel) && (c.index == Added ==> kernel[c.fd] == c.events)
    }

    ghost predicate ValidBut(changed: Channel?)
      reads this, all, changed
    {
      && Registry()
      && refused == 0
      && (forall c :: c in all && c != changed ==> Watched(c))
      && (forall fd :: fd in kernel ==> fd in channels)
      && (changed != null ==> (changed.index == Added <==> changed.fd in kernel))
    }

    ghost predicate Valid()
      reads this, all
    {
      ValidBut(null)
    }

    constructor ()
      ensures Valid() && all == {} && channels == map[] && kernel == map[]
    {
      channels, all, kernel, refused := map[], {}, map[], 0;
    }

    /** `update`: the call into the kernel, whose failure is only logged. */
    method Update(op: Operation, channel: Channel)
      modifies `kernel, `refused
      ensures var answer := EpollCtl(old(kernel), op, channel.fd, channel.events);
              && kernel == (if answer.Some? then answer.value else old(kernel))
              && refused == old(refused) + if answer.Some? then 0 else 1
    {
      ghost var answer := EpollCtl(kernel, op, channel.fd, channel.events);
      if answer.Some? {
        kernel := answer.value;
      } else {
        refused := refused + 1;
      }
    }

    method UpdateChannel(channel: Channel)
      requires channel in all && ValidBut(channel)
      modifies `channels, `kernel, `refused, channel`index
      ensures Valid()
      ensures kernel == Interest(old(kernel), old(channel.index), channel.fd, channel.events)
      ensures channel.index == NextIndex(old(channel.index), channel.events)
      ensures if old(channel.index) == Added && channel.events == NONE_EVENT
              then channel.index == Deleted && kernel == old(kernel) - {channel.fd} && channels == old(channels)
              else channel.index == Added && kernel == old(kernel)[channel.fd := channel.events]
    {
      var index := channel.index;
      if index == New || index == Deleted {
        if index == New {
          channels := channels[channel.fd := channel];
        }
        channel.index := Added;
        Update(CtlAdd, channel);
      } else if channel.IsNoneEvent() {
        Update(CtlDel, channel);
        channel.index := Deleted;
      } else {
        Update(CtlMod, channel);
      }
    }

    method RemoveChannel(channel: Channel)
      requires channel in all && Valid()
      modifies `channels, `kernel, `refused, channel`index
      ensures Valid() && channel.index == New
      ensures kernel == old(kernel) - {channel.fd} && channels == old(channels) - {channel.fd}
    {
      channels := channels - {channel.fd};
      if channel.index == Added {
        Update(CtlDel, channel);
      }
      channel.index := New;
    }

    /** A removed channel is destroyed; its descriptor may be used again. */
    ghost method Forget(channel: Channel)
      requires channel in all && Valid() && channel.index == New
      modifies `all
      ensures Valid() && all == old(all) - {channel}
    {
      all := all - {channel};
    }
  }

  /** The interest list, in full. */
  lemma KernelIsExactlyTheAdded(p: EPollPoller)
    requires p.Valid()
    ensures forall fd :: fd in p.kernel <==> exists c :: c in p.all && c.fd == fd && c.index == Added
    ensures forall c :: c in p.all && c.index == Added ==> p.kernel[c.fd] == c.events
    ensures forall c :: c in p.all ==> (c.fd in p.channels <==> c.index != New)
  {
    forall fd | fd in p.kernel
      ensures fd in p.channels && p.channels[fd] in p.all && p.Watched(p.channels[fd])
    {
    }
    forall c | c in p.all
      ensures p.Watched(c)
    {
    }
  }
}
