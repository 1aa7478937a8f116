/**
 * The connection state machine and transfer dispatch of www/js/ble-ftp.js: `my_conn_state`,
 * `deviceHandle`, `previousDeviceHandle`, `knownDevices`, `ftp_xid`, `ftp_chunk_size` and the two
 * queues. Pure transition functions first; the `BleFtp` class below is proved against them.
 */
module Session {
  import opened Options
  import opened Bytes
  import opened Framing
  import opened ChunkSize
  import opened CallChain
  import opened Transfer

  datatype ConnState = Disconnected | Connecting | Connected | Disconnecting

  datatype Device = Device(address: string, name: Option<string>)

  /** The argument of `ble.connect`: nothing, an address string, or a device object. */
  datatype Target = NoTarget | ByAddress(address: string) | ByDevice(device: Device)

  datatype Status = StatusConnected | StatusDisconnected | StatusOther

  /** What the plugin passes to `connectCallback`: nothing, or a status with the device it is about. */
  datatype Report = NoReport | StatusReport(status: Status, device: Device)

  /**
   * The single BLE operations queued on `call_chain`: `ble.readBytes` (1012), `ble.writeBytes`
   * (1040), the connection setup (1080), `ble.subscribe` (1145), an FTP request write (1236) and
   * one read of an FTP reply (1285). The chain itself never looks inside them.
   */
  datatype BleOp = ReadBytesOp | WriteBytesOp | SetupOp | SubscribeOp | FtpRequestOp | FtpReplyReadOp

  /** The radio primitives the state machine calls directly, outside `call_chain`. */
  datatype RadioCall = RadioDisconnect(address: string) | RadioClose(address: string)

  /** What the session does in answer to an event, besides changing its state. */
  datatype Reaction = Ignored | SetupStarted | Ready | SetupStalled | Reconnecting(device: Device) | ReportedDisconnect

  /** The connection variables together. */
  datatype Link = Link(state: ConnState, handle: Option<Device>, previous: Option<Device>)

  /** Every device stored under its own address, as `onDeviceFound` stores them. */
  predicate KnownByAddress(known: map<string, Device>) {
    forall a :: a in known ==> known[a].address == a
  }

  /**
   * `ble.connect`'s choice of device: with no target (or the empty string, which is falsy) the
   * current handle if there is one; an address is looked up among the known devices and falls
   * back to a bare device with that address; a device object is used as given.
   */
  function ResolveTarget(target: Target, handle: Option<Device>, known: map<string, Device>): (r: Option<Device>)
    ensures r.None? <==> target.NoTarget? && handle.None?
    ensures (target.NoTarget? || target == ByAddress("")) && handle.Some? ==> r == handle
    ensures target.ByDevice? ==> r == Some(target.device)
    ensures target.ByAddress? && (target.address != "" || handle.None?) ==>
      r.Some? && (target.address in known ==> r.value == known[target.address])
    ensures target.ByAddress? && (target.address != "" || handle.None?) && KnownByAddress(known) ==>
      r.Some? && r.value.address == target.address
  {
    if (target.NoTarget? || target == ByAddress("")) && handle.Some? then handle
    else match target
      case ByAddress(a) => Some(if a in known then known[a] else Device(a, None))
      case ByDevice(d) => Some(d)
      case NoTarget => None
  }

  /** `ble.connect` up to the radio call: CONNECTING once a device is resolved, else nothing changes. */
  function ConnectLink(l: Link, target: Target, known: map<string, Device>): (r: (Link, Option<Device>))
    ensures r.1 == ResolveTarget(target, l.handle, known)
    ensures r.1.None? ==> r.0 == l
    ensures r.1.Some? ==> r.0 == l.(state := Connecting)
  {
    match ResolveTarget(target, l.handle, known)
    case None => (l, None)
    case Some(d) => (l.(state := Connecting), Some(d))
  }

  /**
   * `ble.disconnect`: DISCONNECTING, no handle, and a radio disconnect and close for the handle
   * there was; with no handle no radio primitive is called.
   */
  function DisconnectLink(l: Link): (r: (Link, seq<RadioCall>))
    ensures r.0 == Link(Disconnecting, None, l.previous)
    ensures l.handle.None? <==> r.1 == []
    ensures l.handle.Some? ==> r.1 == [RadioDisconnect(l.handle.value.address), RadioClose(l.handle.value.address)]
  {
    var calls := match l.handle
      case None => []
      case Some(d) => [RadioDisconnect(d.address), RadioClose(d.address)];
    (Link(Disconnecting, None, l.previous), calls)
  }

  /** Disconnecting twice is disconnecting once, and the second time calls no radio primitive. */
  lemma DisconnectIdempotent(l: Link)
    ensures DisconnectLink(DisconnectLink(l).0) == (DisconnectLink(l).0, [])
  {
  }

  /**
   * `my_disconnectCallback`: a connected link is closed and reconnected once, through
   * `ble.connect(previous, true)`; in any other state the link is reported disconnected.
   */
  function LostLink(l: Link, known: map<string, Device>): (r: (Link, Reaction, seq<RadioCall>))
    ensures l.state == Connected && l.handle.Some? ==>
      r.0 == Link(Connecting, None, l.handle) && r.1 == Reconnecting(l.handle.value)
      && r.2 == DisconnectLink(l).1
    ensures !(l.state == Connected && l.handle.Some?) ==> r == (l.(state := Disconnected), ReportedDisconnect, [])
  {
    if l.state == Connected && l.handle.Some? then
      var prev := l.handle.value;
      var (down, calls) := DisconnectLink(l.(previous := l.handle));
      var (up, _) := ConnectLink(down, ByDevice(prev), known);
      (up, Reconnecting(prev), calls)
    else
      (l.(state := Disconnected), ReportedDisconnect, [])
  }

  /**
   * `connectCallback`: a connected report stores the device and starts the setup chain; a
   * disconnected report about the current handle's address is a lost link; anything else is
   * ignored.
   */
  function ReportLink(l: Link, report: Report, known: map<string, Device>): (r: (Link, Reaction, seq<RadioCall>))
    ensures report.NoReport? ==> r == (l, Ignored, [])
    ensures report.StatusReport? && report.status == StatusConnected ==>
      r == (l.(state := Connected, handle := Some(report.device)), SetupStarted, [])
    ensures report.StatusReport? && report.status == StatusDisconnected ==>
      r == if l.handle.Some? && l.handle.value.address == report.device.address then LostLink(l, known) else (l, Ignored, [])
  {
    match report
    case NoReport => (l, Ignored, [])
    case StatusReport(status, d) =>
      match status
      case StatusConnected => (l.(state := Connected, handle := Some(d)), SetupStarted, [])
      case StatusDisconnected =>
        if l.handle.Some? && l.handle.value.address == d.address then LostLink(l, known) else (l, Ignored, [])
      case StatusOther => (l, Ignored, [])
  }

  /** The events that move the link. */
  datatype LinkEvent =
    | UserConnect(target: Target)
    | PluginReport(report: Report)
    | FoundAlreadyConnected(device: Device)
    | ConnectError
    | SetupFailed
    | UserDisconnect
    | PauseApp
    | ResumeApp

  function LinkStep(l: Link, known: map<string, Device>, ev: LinkEvent): (Link, Reaction, seq<RadioCall>)
  {
    match ev
    case UserConnect(t) => (ConnectLink(l, t, known).0, Ignored, [])
    case PluginReport(rep) => ReportLink(l, rep, known)
    case FoundAlreadyConnected(d) => var (down, calls) := DisconnectLink(l.(handle := Some(d))); (down, Ignored, calls)
    case ConnectError => LostLink(l, known)
    case SetupFailed => LostLink(l, known)
    case UserDisconnect => var (down, calls) := DisconnectLink(l); (down, Ignored, calls)
    case PauseApp => var (down, calls) := DisconnectLink(l.(previous := l.handle)); (down, Ignored, calls)
    case ResumeApp =>
      if l.previous.Some? then (ConnectLink(l, ByDevice(l.previous.value), known).0, Ignored, []) else (l, Ignored, [])
  }

  function IsConnect(ev: LinkEvent): nat {
    if ev.PluginReport? && ev.report.StatusReport? && ev.report.status == StatusConnected then 1 else 0
  }

  function Up(l: Link): nat { if l.state == Connected then 1 else 0 }

  /** The link after a sequence of events, with the number of reconnects it started. */
  function RunLink(l: Link, known: map<string, Device>, events: seq<LinkEvent>): (Link, nat)
    decreases |events|
  {
    if events == [] then (l, 0)
    else
      var (next, reaction, _) := LinkStep(l, known, events[0]);
      var (last, n) := RunLink(next, known, events[1..]);
      (last, n + if reaction.Reconnecting? then 1 else 0)
  }

  function Connects(events: seq<LinkEvent>): nat
  {
    if events == [] then 0 else IsConnect(events[0]) + Connects(events[1..])
  }

  /** One step spends the connection it reconnects, and only a connected report makes a new one. */
  lemma StepAccounting(l: Link, known: map<string, Device>, ev: LinkEvent)
    ensures var (next, reaction, _) := LinkStep(l, known, ev);
      (if reaction.Reconnecting? then 1 else 0) + Up(next) <= Up(l) + IsConnect(ev)
  {
  }

  /**
   * The auto-reconnect rule is one-shot: every reconnect uses up an established connection, so
   * the reconnects in any run are at most the connected reports plus the one connection there
   * may have been at the start. A failing reconnect ends in DISCONNECTED, not in a retry loop.
   */
  lemma {:induction false} ReconnectBudget(l: Link, known: map<string, Device>, events: seq<LinkEvent>)
    ensures RunLink(l, known, events).1 + Up(RunLink(l, known, events).0) <= Connects(events) + Up(l)
    decreases |events|
  {
    if events != [] {
      StepAccounting(l, known, events[0]);
      var (next, _, _) := LinkStep(l, known, events[0]);
      ReconnectBudget(next, known, events[1..]);
    }
  }

  /** Each step keeps a connected link holding a handle. */
  lemma StepKeepsHandle(l: Link, known: map<string, Device>, ev: LinkEvent)
    requires l.state == Connected ==> l.handle.Some?
    ensures LinkStep(l, known, ev).0.state == Connected ==> LinkStep(l, known, ev).0.handle.Some?
  {
  }

  /** A lost link while connecting or disconnecting is reported, never retried. */
  lemma LostWhileNotConnected(l: Link, known: map<string, Device>)
    requires l.state != Connected
    ensures LostLink(l, known) == (l.(state := Disconnected), ReportedDisconnect, [])
  {
  }

  /** The unit the transfer queue holds: one `ble.readFTP` or `ble.writeFTP` call. */
  datatype Job = ReadJob(name: seq<Byte>) | WriteJob(name: seq<Byte>, src: Source)

  /**
   * The missing `return` seen from the transfer queue: the first transfer's double report runs
   * the queue's continuation twice, so the third transfer starts while the second, which never
   * finished, is still running.
   */
  lemma DoubleDoneStartsOverlappingTransfers(a: Job, b: Job, c: Job)
    ensures var events := [Push(Callable(a)), Push(Callable(b)), Push(Callable(c)), Continue, Continue];
      Run(Idle(), events).1 == [a, b, c] && Run(Idle(), events).0.busy
  {
    var s1 := ChainState([], true);
    var s2 := ChainState([Callable(b)], true);
    var s3 := ChainState([Callable(b), Callable(c)], true);
    var s4 := ChainState([Callable(c)], true);
    var e1 := [Push(Callable(a))];
    var e2 := e1 + [Push(Callable(b))];
    var e3 := e2 + [Push(Callable(c))];
    var e4 := e3 + [Continue];
    var none: seq<Event<Job>> := [];
    assert Run(Idle(), none) == (Idle(), []);
    RunSnoc(Idle(), none, Push(Callable(a)));
    assert none + [Push(Callable(a))] == e1;
    assert Step(Idle(), Push(Callable(a))) == (s1, Some(a));
    assert [] + [a] == [a];
    assert Run(Idle(), e1) == (s1, [a]);
    RunSnoc(Idle(), e1, Push(Callable(b)));
    assert s1.pending + [Callable(b)] == s2.pending;
    assert Step(s1, Push(Callable(b))) == (s2, None);
    assert [a] + [] == [a];
    assert Run(Idle(), e2) == (s2, [a]);
    RunSnoc(Idle(), e2, Push(Callable(c)));
    assert s2.pending + [Callable(c)] == s3.pending;
    assert Step(s2, Push(Callable(c))) == (s3, None);
    assert Run(Idle(), e3) == (s3, [a]);
    RunSnoc(Idle(), e3, Continue);
    assert s3.pending[1..] == s4.pending;
    assert Step(s3, Continue) == (s4, Some(b));
    assert [a] + [b] == [a, b];
    assert Run(Idle(), e4) == (s4, [a, b]);
    RunSnoc(Idle(), e4, Continue);
    assert e4 + [Continue] == [Push(Callable(a)), Push(Callable(b)), Push(Callable(c)), Continue, Continue];
  }

  class BleFtp {
    var state: ConnState
    var handle: Option<Device>
    var previous: Option<Device>
    var known: map<string, Device>
    /** `ftp_xid`, the transfer counter; the first transfer uses 1. */
    var xid: int
    var chunkSize: int
    /** `call_chain`: single BLE operations. */
    const ops: Chain<BleOp>
    /** `ftp_call_chain`: whole transfers. */
    const jobs: Chain<Job>

    function Conn(): Link
      reads this
    {
      Link(state, handle, previous)
    }

    ghost predicate Valid()
      reads this, ops, jobs
    {
      && ops.Valid() && jobs.Valid()
      && InRange(chunkSize)
      && (state == Connected ==> handle.Some?)
      && KnownByAddress(known)
      && xid >= 0
    }

    constructor ()
      ensures Valid() && fresh(ops) && fresh(jobs)
      ensures Conn() == Link(Disconnected, None, None) && known == map[]
      ensures xid == 0 && chunkSize == ChunkMin
      ensures ops.State() == Idle() && jobs.State() == Idle()
    {
      state := Disconnected;
      handle := None;
      previous := None;
      known := map[];
      xid := 0;
      chunkSize := ChunkMin;
      ops := new Chain();
      jobs := new Chain();
    }

    /** `onDeviceFound`: insert or replace the device under its address. */
    method Found(d: Device)
      requires Valid()
      modifies this
      ensures Valid() && known == old(known)[d.address := d]
      ensures Conn() == old(Conn()) && xid == old(xid) && chunkSize == old(chunkSize)
    {
      known := known[d.address := d];
    }

    /** `ble.clearFoundDevices`. */
    method ClearFound()
      requires Valid()
      modifies this
      ensures Valid() && known == map[]
      ensures Conn() == old(Conn()) && xid == old(xid) && chunkSize == old(chunkSize)
    {
      known := map[];
    }

    /** `ble.connect` up to the radio call. */
    method Connect(target: Target) returns (device: Option<Device>)
      requires Valid()
      modifies this
      ensures Valid()
      ensures (Conn(), device) == ConnectLink(old(Conn()), target, known)
      ensures known == old(known) && xid == old(xid) && chunkSize == old(chunkSize)
    {
      if (target.NoTarget? || target == ByAddress("")) && handle.Some? {
        device := handle;
      } else if target.ByAddress? {
        device := if target.address in known then Some(known[target.address]) else Some(Device(target.address, None));
      } else if target.ByDevice? {
        device := Some(target.device);
      } else {
        device := None;
      }
      if device.None? {
        return;
      }
      state := Connecting;
    }

    /**
     * `ble.disconnect`: both queues emptied and idle, DISCONNECTING, the radio disconnect and
     * close for the handle there was, then no handle. Always resolves true.
     */
    method Disconnect() returns (ok: bool, calls: seq<RadioCall>)
      requires Valid()
      modifies this, ops, jobs
      ensures Valid() && ok
      ensures (Conn(), calls) == DisconnectLink(old(Conn()))
      ensures ops.State() == Idle() && jobs.State() == Idle()
      ensures known == old(known) && xid == old(xid) && chunkSize == old(chunkSize)
    {
      ops.Clear();
      jobs.Clear();
      state := Disconnecting;
      calls := [];
      if handle.Some? {
        calls := calls + [RadioDisconnect(handle.value.address)];
      }
      if handle.Some? {
        calls := calls + [RadioClose(handle.value.address)];
      }
      assert old(handle).Some? ==> calls == [RadioDisconnect(old(handle).value.address), RadioClose(old(handle).value.address)];
      handle := None;
      ok := true;
    }

    /** The "already connected" branch of `ble.connect`: adopt the device, then disconnect it. */
    method AlreadyConnected(d: Device) returns (calls: seq<RadioCall>)
      requires Valid()
      modifies this, ops, jobs
      ensures Valid()
      ensures (Conn(), Ignored, calls) == LinkStep(old(Conn()), known, FoundAlreadyConnected(d))
      ensures ops.State() == Idle() && jobs.State() == Idle()
      ensures known == old(known) && xid == old(xid) && chunkSize == old(chunkSize)
    {
      handle := Some(d);
      var _, c := Disconnect();
      calls := c;
    }

    /** `my_disconnectCallback`. */
    method LinkLost() returns (reaction: Reaction, calls: seq<RadioCall>)
      requires Valid()
      modifies this, ops, jobs
      ensures Valid()
      ensures (Conn(), reaction, calls) == LostLink(old(Conn()), known)
      ensures reaction.Reconnecting? ==> ops.State() == Idle() && jobs.State() == Idle()
      ensures !reaction.Reconnecting? ==> ops.State() == old(ops.State()) && jobs.State() == old(jobs.State())
      ensures known == old(known) && xid == old(xid) && chunkSize == old(chunkSize)
    {
      if state == Connected && handle.Some? {
        var prev := handle.value;
        previous := handle;
        var _, c := Disconnect();
        calls := c;
        var _ := Connect(ByDevice(prev));
        reaction := Reconnecting(prev);
      } else {
        state := Disconnected;
        reaction := ReportedDisconnect;
        calls := [];
      }
    }

    /** `connectCallback`. */
    method OnReport(report: Report) returns (reaction: Reaction, calls: seq<RadioCall>)
      requires Valid()
      modifies this, ops, jobs
      ensures Valid()
      ensures (Conn(), reaction, calls) == ReportLink(old(Conn()), report, known)
      ensures reaction.Reconnecting? ==> ops.State() == Idle() && jobs.State() == Idle()
      ensures !reaction.Reconnecting? ==> ops.State() == old(ops.State()) && jobs.State() == old(jobs.State())
      ensures known == old(known) && xid == old(xid) && chunkSize == old(chunkSize)
    {
      reaction, calls := Ignored, [];
      if report.StatusReport? {
        if report.status == StatusConnected {
          state := Connected;
          handle := Some(report.device);
          reaction := SetupStarted;
        } else if report.status == StatusDisconnected {
          if handle.Some? && handle.value.address == report.device.address {
            reaction, calls := LinkLost();
          }
        }
      }
    }

    /**
     * The setup chain after a connected report: `requestMtu` sets the chunk size, then service
     * discovery and a test read either succeed (`onConnect`) or count as a lost link. On a
     * platform where `requestMtu` never resolves the chain stops there.
     */
    method FinishSetup(platform: Platform, reply: MtuReply, setupOk: bool) returns (reaction: Reaction, calls: seq<RadioCall>)
      requires Valid()
      modifies this, ops, jobs
      ensures Valid()
      ensures chunkSize == MtuOutcome(platform, old(chunkSize), reply).0
      ensures MtuOutcome(platform, old(chunkSize), reply).1.None? ==> reaction == SetupStalled && Conn() == old(Conn())
      ensures MtuOutcome(platform, old(chunkSize), reply).1.Some? && setupOk ==> reaction == Ready && Conn() == old(Conn())
      ensures MtuOutcome(platform, old(chunkSize), reply).1.Some? && !setupOk ==>
        (Conn(), reaction, calls) == LostLink(old(Conn()), known)
      ensures reaction.Reconnecting? ==> ops.State() == Idle() && jobs.State() == Idle()
      ensures !reaction.Reconnecting? ==> ops.State() == old(ops.State()) && jobs.State() == old(jobs.State())
      ensures known == old(known) && xid == old(xid)
    {
      var outcome := MtuOutcome(platform, chunkSize, reply);
      OutcomeKeepsRange(platform, chunkSize, reply);
      chunkSize := outcome.0;
      calls := [];
      if outcome.1.None? {
        reaction := SetupStalled;
      } else if setupOk {
        reaction := Ready;
      } else {
        reaction, calls := LinkLost();
      }
    }

    /** `ble.pause`: remember the handle, then disconnect. */
    method Pause() returns (calls: seq<RadioCall>)
      requires Valid()
      modifies this, ops, jobs
      ensures Valid()
      ensures (Conn(), Ignored, calls) == LinkStep(old(Conn()), known, PauseApp)
      ensures ops.State() == Idle() && jobs.State() == Idle()
      ensures known == old(known) && xid == old(xid) && chunkSize == old(chunkSize)
    {
      previous := handle;
      var _, c := Disconnect();
      calls := c;
    }

    /** `ble.resume`: connect to the remembered handle, if any. */
    method Resume() returns (device: Option<Device>)
      requires Valid()
      modifies this
      ensures Valid()
      ensures (Conn(), Ignored, []) == LinkStep(old(Conn()), known, ResumeApp)
      ensures device == if old(previous).Some? then Some(old(previous).value) else None
      ensures ops.State() == old(ops.State()) && jobs.State() == old(jobs.State())
      ensures known == old(known) && xid == old(xid) && chunkSize == old(chunkSize)
    {
      device := None;
      if previous.Some? {
        device := Connect(ByDevice(previous.value));
      }
    }

    /** `ble.readFTP`: queue the read; returns the job started now, if the queue was idle. */
    method ReadFtp(name: seq<Byte>) returns (started: Option<Job>)
      requires Valid()
      modifies jobs
      ensures Valid()
      ensures (jobs.State(), started) == AddStep(old(jobs.State()), Callable(ReadJob(name)))
    {
      started := jobs.Add(Callable(ReadJob(name)));
    }

    /** `ble.writeFTP`: queue the write; returns the job started now, if the queue was idle. */
    method WriteFtp(name: seq<Byte>, src: Source) returns (started: Option<Job>)
      requires Valid()
      modifies jobs
      ensures Valid()
      ensures (jobs.State(), started) == AddStep(old(jobs.State()), Callable(WriteJob(name, src)))
    {
      started := jobs.Add(Callable(WriteJob(name, src)));
    }

    /**
     * The running read job: take the next xid, send the request, run the read loop over the
     * replies; once the outcome is reported the transfer queue moves on.
     */
    method RunRead(name: seq<Byte>, requestWritten: bool, replies: seq<ReadReply>, decode: seq<Byte> -> string)
      returns (outcome: ReadOutcome, next: Option<Job>)
      requires Valid() && jobs.running == Some(ReadJob(name))
      modifies this, jobs
      ensures Valid()
      ensures xid == old(xid) + 1
      ensures outcome == ReadTransfer(xid, name, requestWritten, replies, decode)
      ensures outcome.Reported() ==> (jobs.State(), next) == ExecStep(old(jobs.State()))
      ensures !outcome.Reported() ==> jobs.State() == old(jobs.State()) && next.None?
      ensures Conn() == old(Conn()) && known == old(known) && chunkSize == old(chunkSize)
    {
      xid := xid + 1;
      var request := BuildRequest(OpReadReq, xid, name);
      next := None;
      if request.None? {
        return ReadHung, next;
      }
      if !requestWritten {
        outcome := ReadDoneUndefined;
      } else {
        var readCount;
        outcome, readCount := ReadLoop(XidByte(xid), replies, decode);
      }
      if outcome.Reported() {
        next := jobs.Next();
      }
    }

    /**
     * The running write job: check the source; when it goes ahead take the next xid, send the
     * request and the chunks; once a verdict is reported the transfer queue moves on.
     */
    method RunWrite(name: seq<Byte>, src: Source, fileApis: bool, encode: string -> seq<Byte>, results: seq<bool>)
      returns (dones: seq<bool>, next: Option<Job>)
      requires Valid() && jobs.running == Some(WriteJob(name, src))
      modifies this, jobs
      ensures Valid()
      ensures CheckSource(src, fileApis, encode).data.Some? <==> xid == old(xid) + 1
      ensures CheckSource(src, fileApis, encode).data.None? <==> xid == old(xid)
      ensures dones == Transfer.WriteFtp(xid, name, src, fileApis, encode, old(chunkSize), results)
      ensures |dones| == 1 ==> (jobs.State(), next) == ExecStep(old(jobs.State()))
      ensures dones == [] ==> jobs.State() == old(jobs.State()) && next.None?
      ensures Conn() == old(Conn()) && known == old(known) && chunkSize == old(chunkSize)
    {
      var check := CheckSource(src, fileApis, encode);
      next := None;
      dones := [];
      if check.data.None? {
        dones := check.dones;
      } else {
        xid := xid + 1;
        var request := BuildRequest(OpWriteReq, xid, name);
        if request.Some? && results != [] {
          if !results[0] {
            dones := [false];
          } else {
            var outcome, _ := WriteChunks(xid, check.data.value, chunkSize, results[1..]);
            if outcome.WriteDone? {
              dones := [outcome.ok];
            }
          }
        }
      }
      if |dones| == 1 {
        next := jobs.Next();
      }
    }
  }
}
