/** The connection object: its output buffer, its channel and its state, proved to make the steps
    of OutputPath. */
module TcpConnection {
  import opened ByteBuffer
  import opened OutputPath
  import opened Poller

  class TcpConnection {
    const settings: Settings
    const channel: Channel
    const outputBuffer: Buffer
    var phase: Phase
    var queued: seq<Callback>  // queueInLoop of the callbacks
    var told: seq<Notice>      // callbacks called
    var wire: string           // bytes the socket has taken
    var shutdowns: nat         // shutdownWrite of the socket
    var waiting: nat           // shutdownInLoop functors in the loop
    var outbox: seq<string>    // sendInLoop functors in the loop
    ghost var total: string
    ghost var dropped: nat
    ghost var removed: bool    // its channel has left the poller

    ghost function Value(): State
      requires outputBuffer.Valid()
      reads this, channel, outputBuffer, outputBuffer.storage
    {
      State(phase, channel.IsWriting(), outputBuffer.Readable(), wire, shutdowns, queued, told, waiting, outbox,
            settings, total, dropped)
    }

    /** While it lasts the channel is registered, for reading at least. */
    ghost predicate Valid()
      reads this, channel, channel.poller, channel.poller.all, outputBuffer, outputBuffer.storage
    {
      && outputBuffer.Valid() && channel.Attached() && Inv(Value())
      && (phase == Connecting ==> !removed)
      && (!removed && (phase == Connected || phase == Disconnecting) ==> Watching())
    }

    ghost predicate Watching()
      reads channel
    {
      channel.index == Added && channel.IsReading()
    }

    constructor (settings: Settings, poller: EPollPoller, fd: int, bufferSize: nat)
      requires poller.Valid() && forall c :: c in poller.all ==> c.fd != fd
      modifies poller`all
      ensures Valid() && Value() == Init(settings) && channel.poller == poller && channel.fd == fd
      ensures fresh(channel) && fresh(outputBuffer) && fresh(outputBuffer.storage)
    {
      this.settings := settings;
      channel := new Channel(poller, fd);
      outputBuffer := new Buffer(bufferSize);
      phase, queued, told, wire, shutdowns, waiting, outbox := Connecting, [], [], "", 0, 0, [];
      total, dropped, removed := "", 0, false;
    }

    method ConnectEstablished()
      requires Valid() && Enabled(Value(), Establish)
      modifies this, channel, channel.poller
      ensures Valid() && Value() == Step(old(Value()), Establish)
    {
      phase := Connected;
      channel.EnableReading();
      told := told + [ConnectionIs(phase)];
    }

    /** `send` in the loop thread. */
    method Send(data: string, result: WriteResult)
      requires Valid() && Enabled(Value(), OutputPath.Send(data, result))
      modifies this, channel, channel.poller, outputBuffer, outputBuffer.storage
      ensures Valid() && Value() == Step(old(Value()), OutputPath.Send(data, result))
    {
      if phase == Connected {
        SendInLoop(data, result);
      }
    }

    /** `send` in another thread: the functor is queued. */
    method SendElsewhere(data: string)
      requires Valid()
      modifies `outbox
      ensures Valid() && Value() == Step(old(Value()), OutputPath.SendElsewhere(data))
    {
      if phase == Connected {
        outbox := outbox + [data];
      }
    }

    method RunSend(result: WriteResult)
      requires Valid() && Enabled(Value(), OutputPath.RunSend(result))
      modifies this, channel, channel.poller, outputBuffer, outputBuffer.storage
      ensures Valid() && Value() == Step(old(Value()), OutputPath.RunSend(result))
    {
      var data := outbox[0];
      outbox := outbox[1..];
      SendInLoop(data, result);
    }

    method SendInLoop(data: string, result: WriteResult)
      requires Valid() && phase != Connecting && (result.Wrote? ==> result.n <= |data|)
      modifies this, channel, channel.poller, outputBuffer, outputBuffer.storage
      ensures Valid() && Value() == OutputPath.SendInLoop(old(Value()), data, result)
      ensures channel.IsReading() == old(channel.IsReading())
      ensures var direct := old(!channel.IsWriting() && outputBuffer.Readable() == "");
              wire == old(wire) + data[..if direct && result.Wrote? then result.n else 0]
    {
      hide Inv, Enqueue, HandOver, Channel.Attached, Watching;
      SendKeepsInv(Value(), data, result);
      var nwrote, faultError := WriteDirectly(data, result);
      assert data[nwrote..] == "" <==> |data| == nwrote;
      var remaining := |data| - nwrote;
      if !faultError && remaining > 0 {
        KeepForLater(data[nwrote..]);
      }
    }

    /** The direct write, if nothing is waiting. */
    method WriteDirectly(data: string, result: WriteResult) returns (nwrote: nat, faultError: bool)
      requires outputBuffer.Valid() && (result.Wrote? ==> result.n <= |data|)
      modifies `wire, `queued, `dropped, `total
      ensures nwrote == Taken(old(Value()), result) && nwrote <= |data| && faultError == FaultNow(old(Value()), result)
      ensures Value() == HandOver(old(Value()), data, result)
      ensures var direct := old(!channel.IsWriting() && outputBuffer.Readable() == "");
              wire == old(wire) + data[..if direct && result.Wrote? then result.n else 0]
    {
      nwrote := 0;
      faultError := false;
      if !channel.IsWriting() && outputBuffer.ReadableBytes() == 0 {
        if result.Wrote? {
          nwrote := result.n;
          wire := wire + data[..nwrote];
          if |data| - nwrote == 0 && settings.onWriteComplete {
            queued := queued + [WriteComplete];
          }
        } else if result != WouldBlock {
          if result == Fault {
            faultError := true;
            dropped := dropped + |data|;
          }
        }
      }
      total := total + data;
    }

    /** The rest of a send goes to the output buffer, and the channel waits for room. */
    method KeepForLater(rest: string)
      requires outputBuffer.Valid() && channel.Attached()
      modifies `queued, channel, channel.poller, outputBuffer, outputBuffer.storage
      ensures outputBuffer.Valid() && channel.Attached() && (old(Watching()) ==> Watching())
      ensures Value() == Enqueue(old(Value()), rest)
      ensures channel.IsReading() == old(channel.IsReading())
    {
      hide Channel.Attached;
      var oldLen := outputBuffer.ReadableBytes();
      if oldLen + |rest| >= settings.highWaterMark && oldLen < settings.highWaterMark && settings.onHighWater {
        queued := queued + [HighWater(oldLen + |rest|)];
      }
      outputBuffer.Append(rest);
      if !channel.IsWriting() {
        channel.EnableWriting();
      }
    }

    method Shutdown()
      requires Valid()
      modifies `phase, `shutdowns
      ensures Valid() && Value() == Step(old(Value()), OutputPath.Shutdown)
    {
      if phase == Connected {
        phase := Disconnecting;
        ShutdownInLoop();
      }
    }

    /** `shutdown` in another thread: the functor is queued. */
    method ShutdownElsewhere()
      requires Valid()
      modifies `phase, `waiting
      ensures Valid() && Value() == Step(old(Value()), OutputPath.ShutdownElsewhere)
    {
      if phase == Connected {
        phase := Disconnecting;
        waiting := waiting + 1;
      }
    }

    method RunShutdown()
      requires Valid() && waiting > 0
      modifies `waiting, `shutdowns
      ensures Valid() && Value() == Step(old(Value()), OutputPath.RunShutdown)
    {
      waiting := waiting - 1;
      ShutdownInLoop();
    }

    method ShutdownInLoop()
      requires outputBuffer.Valid()
      modifies `shutdowns
      ensures Value() == OutputPath.ShutdownInLoop(old(Value()))
    {
      if !channel.IsWriting() {
        shutdowns := shutdowns + 1;
      }
    }

    /** The poller reports room in the socket. */
    method HandleWrite(result: WriteResult)
      requires Valid() && Enabled(Value(), OutputPath.HandleWrite(result))
      modifies this, channel, channel.poller, outputBuffer
      ensures Valid() && Value() == Step(old(Value()), OutputPath.HandleWrite(result))
      ensures channel.IsReading() == old(channel.IsReading())
      ensures wire == old(wire) + old(outputBuffer.Readable())[..if old(channel.IsWriting()) && result.Wrote? then result.n else 0]
    {
      hide Inv, Drained, Channel.Attached, Watching;
      WritableKeepsInv(Value(), result);
      if channel.IsWriting() {
        if result.Wrote? && result.n > 0 {
          var bytes := outputBuffer.Peek(result.n);
          wire := wire + bytes;
          outputBuffer.Retrieve(result.n);
          if outputBuffer.ReadableBytes() == 0 {
            StopWriting();
          }
        }
      }
    }

    /** The last waiting byte has left. */
    method StopWriting()
      requires outputBuffer.Valid() && channel.Attached()
      modifies `queued, `shutdowns, channel, channel.poller
      ensures outputBuffer.Valid() && channel.Attached() && (old(Watching()) ==> Watching())
      ensures Value() == Drained(old(Value()))
      ensures channel.IsReading() == old(channel.IsReading())
    {
      hide Channel.Attached;
      channel.DisableWriting();
      ReadingKeepsMask(channel.events);
      if settings.onWriteComplete {
        queued := queued + [WriteComplete];
      }
      if phase == Disconnecting {
        ShutdownInLoop();
      }
    }

    method HandleClose()
      requires Valid() && Enabled(Value(), OutputPath.HandleClose)
      modifies this, channel, channel.poller
      ensures Valid() && Value() == Step(old(Value()), OutputPath.HandleClose)
      ensures channel.events == NONE_EVENT && (old(channel.index) == Added ==> channel.fd !in channel.poller.kernel)
    {
      hide Inv, Channel.Attached, TcpConnection.Watching;
      StepKeepsInv(Value(), OutputPath.HandleClose);
      phase := Disconnected;
      channel.DisableAll();
      told := told + [ConnectionIs(phase), Closed];
    }

    method ConnectDestroyed()
      requires Valid() && phase != Connecting
      modifies this, channel, channel.poller
      ensures Valid() && removed && channel.index == New && channel.fd !in channel.poller.kernel
      ensures Value() == Step(old(Value()), OutputPath.Destroy)
      ensures old(phase) == Connected ==> channel.events == NONE_EVENT
    {
      hide Inv, Channel.Attached, TcpConnection.Watching;
      StepKeepsInv(Value(), OutputPath.Destroy);
      if phase == Connected {
        GoDown();
      }
      LeavePoller();
    }

    method GoDown()
      requires Valid() && phase == Connected
      modifies `phase, `told, channel, channel.poller
      ensures Valid() && Value() == Step(old(Value()), OutputPath.Destroy)
      ensures channel.events == NONE_EVENT
    {
      hide Inv, Channel.Attached, TcpConnection.Watching;
      StepKeepsInv(Value(), OutputPath.Destroy);
      phase := Disconnected;
      channel.DisableAll();
      told := told + [ConnectionIs(phase)];
    }

    method LeavePoller()
      requires outputBuffer.Valid() && channel.Attached()
      modifies `removed, channel, channel.poller
      ensures outputBuffer.Valid() && channel.Attached() && Value() == old(Value())
      ensures channel.events == old(channel.events)
      ensures removed && channel.index == New && channel.fd !in channel.poller.kernel
    {
      hide Channel.Attached;
      channel.Remove();
      removed := true;
    }
  }

  lemma ReadingKeepsMask(events: bv8)
    ensures events & READ_EVENT != 0 ==> events != NONE_EVENT
  {
  }

  /** The kernel reports room in the socket exactly while bytes are waiting for it. */
  lemma KernelWatchesForRoom(c: TcpConnection)
    requires c.Valid() && !c.removed && (c.phase == Connected || c.phase == Disconnecting)
    ensures var p := c.channel.poller;
      && c.channel.fd in p.kernel
      && (p.kernel[c.channel.fd] & WRITE_EVENT != 0 <==> c.outputBuffer.Readable() != "")
  {
    assert c.channel.poller.Watched(c.channel);
  }
}
