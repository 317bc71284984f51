/** `UdpServer.datagram_received` of snom_messaging.py and the drivers it hands frames to: the
    splitting of a datagram into documents, the chain of drivers each document is offered to, and
    the registration of the drivers as `main` sets them up. */
module Dispatch {
  import opened Frames
  import opened Messages
  import opened Udp
  import opened MessageStore
  import opened Roaming
  import opened Consumer

  /** A registered driver: the message store, the roaming monitor, or the consumer (which has no
      state). */
  datatype Driver = StoreDriver(ms: MessageSystem<Driver>) | RoamingDriver(rm: RoamingMonitor) | SquelchDriver

  /** The object behind a driver, if it has one. */
  function ObjectOf(d: Driver): set<object>
  {
    match d
    case StoreDriver(ms) => {ms}
    case RoamingDriver(rm) => {rm}
    case SquelchDriver => {}
  }

  function Objects(ds: seq<Driver>): set<object>
  {
    if ds == [] then {} else ObjectOf(ds[0]) + Objects(ds[1..])
  }

  lemma {:induction false} ObjectsHas(ds: seq<Driver>, j: nat)
    requires j < |ds|
    ensures ObjectOf(ds[j]) <= Objects(ds)
  {
    if j > 0 {
      ObjectsHas(ds[1..], j - 1);
    }
  }

  /** The drivers as `main` wires them: no object registered twice, and every message store sending
      through the server it is registered with. */
  predicate Wired(server: UdpServer<Driver>)
    reads server
  {
    WiredAs(server, server.drivers)
  }

  /** `ds` are drivers wired to `server`; this depends on no mutable state. */
  predicate WiredAs(server: UdpServer<Driver>, ds: seq<Driver>)
  {
    && (forall j, k | 0 <= j < k < |ds| :: ObjectOf(ds[j]) !! ObjectOf(ds[k]))
    && (forall k | 0 <= k < |ds| && ds[k].StoreDriver? :: ds[k].ms.udp == server)
  }

  // ---------------------------------------------------------------------------------------------
  // The drivers as values

  /** The state of one driver: a message queue, a location table, or none. */
  datatype DriverState = Queue(queue: seq<Message>) | Table(locations: Locations) | Stateless

  function StateOf(d: Driver): DriverState
    reads ObjectOf(d)
  {
    match d
    case StoreDriver(ms) => Queue(ms.queue)
    case RoamingDriver(rm) => Table(rm.locations)
    case SquelchDriver => Stateless
  }

  function StatesOf(ds: seq<Driver>): (ss: seq<DriverState>)
    reads Objects(ds)
    ensures |ss| == |ds| && forall k | 0 <= k < |ds| :: ss[k] == StateOf(ds[k])
  {
    if ds == [] then []
    else
      [StateOf(ds[0])] + StatesOf(ds[1..])
  }

  /** One frame as the drivers see it: the document, its origin, the time, and the internal id a
      new message would draw. */
  datatype Input = Input(frame: Frame, addr: Addr, now: real, id: InternalId)

  /** One `driver.process(xml_message, addr)` call: the driver's new state, what the call gives, and
      the acknowledgments it sends. */
  datatype Outcome = Outcome(state: DriverState, result: DriverResult, acks: seq<string>)

  function Step(s: DriverState, inp: Input): Outcome
  {
    match s
    case Queue(q) =>
      var o := StoreProcess(q, inp.frame, inp.now, inp.id);
      Outcome(Queue(o.queue), o.result, if o.ack.Some? then [o.ack.value] else [])
    case Table(locs) =>
      var o := RoamingProcess(locs, inp.frame, inp.addr, inp.now);
      Outcome(Table(o.locations), o.result, [])
    case Stateless => Outcome(Stateless, Squelch(inp.frame), [])
  }

  /** Whether a driver claims a frame depends on the kind of driver and on the frame, never on the
      driver's state. */
  lemma StepResultIgnoresState(s: DriverState, t: DriverState, inp: Input)
    requires s.Queue? == t.Queue? && s.Table? == t.Table?
    ensures Step(s, inp).result == Step(t, inp).result
    ensures Step(s, inp).state.Queue? == s.Queue? && Step(s, inp).state.Table? == s.Table?
  {
  }

  // ---------------------------------------------------------------------------------------------
  // The chain of drivers for one frame

  /** Which drivers return True for the frame, in registration order. */
  function ClaimFlags(ss: seq<DriverState>, inp: Input): (flags: seq<bool>)
    ensures |flags| == |ss|
  {
    seq(|ss|, k requires 0 <= k < |ss| => Step(ss[k], inp).result == Returned(true))
  }

  /** Whether the driver at position `k` returns True for the frame. */
  function Claims(ss: seq<DriverState>, inp: Input, k: nat): bool
    requires k < |ss|
  {
    ClaimFlags(ss, inp)[k]
  }

  /** The number of drivers called from position `k` on: all of them up to and including the first
      that returns True. */
  function CalledFrom(flags: seq<bool>, k: nat): (n: nat)
    requires k <= |flags|
    ensures k <= n <= |flags|
    decreases |flags| - k
  {
    if k == |flags| then |flags|
    else if flags[k] then k + 1
    else CalledFrom(flags, k + 1)
  }

  /** How many drivers `process` is called on for one frame. */
  function ChainLength(ss: seq<DriverState>, inp: Input): (n: nat)
    ensures n <= |ss|
  {
    CalledFrom(ClaimFlags(ss, inp), 0)
  }

  /** Whether some driver claimed the frame; when none did, the "No driver is interested" warning
      is logged. */
  function Claimed(ss: seq<DriverState>, inp: Input): bool
  {
    exists k | 0 <= k < |ss| :: Claims(ss, inp, k)
  }

  lemma {:induction false} CalledFromSpec(flags: seq<bool>, k: nat)
    requires k <= |flags|
    ensures var n := CalledFrom(flags, k);
      && k <= n <= |flags|
      && (forall j | k <= j < n - 1 :: !flags[j])
      && (n < |flags| ==> k < n && flags[n - 1])
      && ((exists j | k <= j < |flags| :: flags[j]) <==> k < n && flags[n - 1])
    decreases |flags| - k
  {
    if k < |flags| && !flags[k] {
      CalledFromSpec(flags, k + 1);
    }
  }

  /** The drivers are offered a frame in registration order; the first that returns True ends the
      chain and the later ones are not called; a driver that returns False or raises passes the
      frame on; and the frame counts as claimed exactly when some driver returns True, which is
      then the last one called. */
  lemma ChainSpec(ss: seq<DriverState>, inp: Input)
    ensures ChainLength(ss, inp) <= |ss|
    ensures forall j | 0 <= j < ChainLength(ss, inp) - 1 :: !Claims(ss, inp, j)
    ensures ChainLength(ss, inp) < |ss| ==> 0 < ChainLength(ss, inp) && Claims(ss, inp, ChainLength(ss, inp) - 1)
    ensures Claimed(ss, inp) <==> 0 < ChainLength(ss, inp) && Claims(ss, inp, ChainLength(ss, inp) - 1)
    ensures !Claimed(ss, inp) ==> ChainLength(ss, inp) == |ss|
  {
    CalledFromSpec(ClaimFlags(ss, inp), 0);
  }

  /** A chain with drivers calls at least the first; an empty chain claims nothing. */
  lemma ChainStarts(ss: seq<DriverState>, inp: Input)
    ensures |ss| > 0 ==> 0 < ChainLength(ss, inp)
    ensures |ss| == 0 ==> !Claimed(ss, inp)
  {
    ChainSpec(ss, inp);
  }

  /** The driver at position `j` is called: if it claims the frame the chain ends with it, and
      otherwise the chain goes on, unless it was the last driver and no driver claimed the frame. */
  lemma ChainAt(ss: seq<DriverState>, inp: Input, j: nat)
    requires j < ChainLength(ss, inp)
    ensures Claims(ss, inp, j) ==> j + 1 == ChainLength(ss, inp) && Claimed(ss, inp)
    ensures !Claims(ss, inp, j) ==> j + 1 < ChainLength(ss, inp) || (j + 1 == |ss| && !Claimed(ss, inp))
  {
    ChainSpec(ss, inp);
  }

  /** The drivers' states once the first `n` of them have processed the frame. */
  function SteppedUpTo(ss: seq<DriverState>, inp: Input, n: nat): (r: seq<DriverState>)
    ensures |r| == |ss|
  {
    seq(|ss|, k requires 0 <= k < |ss| => if k < n then Step(ss[k], inp).state else ss[k])
  }

  /** The drivers' states after the chain: the called ones have processed the frame. */
  function AfterChain(ss: seq<DriverState>, inp: Input): (r: seq<DriverState>)
    ensures |r| == |ss|
  {
    SteppedUpTo(ss, inp, ChainLength(ss, inp))
  }

  /** The acknowledgments sent by the first `n` drivers, in order. */
  function ChainAcks(ss: seq<DriverState>, inp: Input, n: nat): seq<string>
    requires n <= |ss|
  {
    if n == 0 then [] else ChainAcks(ss, inp, n - 1) + Step(ss[n - 1], inp).acks
  }

  /** One more driver called: its state, and the acknowledgments it sends, are added. */
  lemma ChainNext(ss: seq<DriverState>, inp: Input, n: nat)
    requires n < |ss|
    ensures SteppedUpTo(ss, inp, n + 1) == SteppedUpTo(ss, inp, n)[n := Step(ss[n], inp).state]
    ensures ChainAcks(ss, inp, n + 1) == ChainAcks(ss, inp, n) + Step(ss[n], inp).acks
  {
  }

  /** The drivers' states and the acknowledgments sent, after a run of frames or after one frame. */
  datatype Run = Run(states: seq<DriverState>, acks: seq<string>)

  /** One frame through the chain. */
  function Dispatched(ss: seq<DriverState>, inp: Input): (r: Run)
    ensures |r.states| == |ss|
  {
    Run(AfterChain(ss, inp), ChainAcks(ss, inp, ChainLength(ss, inp)))
  }

  /** A frame that some driver claims is never handed to the drivers after it: they keep their
      states; and a driver that raises keeps its state too. */
  lemma AfterChainKeepsRest(ss: seq<DriverState>, inp: Input)
    ensures forall k | ChainLength(ss, inp) <= k < |ss| :: AfterChain(ss, inp)[k] == ss[k]
    ensures forall k | 0 <= k < |ss| && Step(ss[k], inp).result == Raised :: AfterChain(ss, inp)[k] == ss[k]
  {
    forall k | 0 <= k < |ss| && Step(ss[k], inp).result == Raised ensures AfterChain(ss, inp)[k] == ss[k] {
      match ss[k]
      case Queue(q) =>
      case Table(l) =>
        RoamingNeverClaims(l, inp.frame, inp.addr, inp.now);
      case Stateless =>
    }
  }

  // ---------------------------------------------------------------------------------------------
  // The chain as the server runs it

  /** `driver.process(xml_message, addr)` for the driver at position `j`, inside the `try`; the
      other drivers keep their states. */
  method Offer(server: UdpServer<Driver>, ds: seq<Driver>, j: nat, inp: Input) returns (r: DriverResult)
    requires j < |ds| && forall k | 0 <= k < |ds| && k != j :: ObjectOf(ds[k]) !! ObjectOf(ds[j])
    requires ds[j].StoreDriver? ==> ds[j].ms.udp == server
    modifies server, ObjectOf(ds[j])
    ensures var o := Step(old(StateOf(ds[j])), inp);
      && StateOf(ds[j]) == o.state && r == o.result
      && server.sent == old(server.sent) + Transmissions(old(server.lastConnection), o.acks)
    ensures forall k | 0 <= k < |ds| && k != j :: StateOf(ds[k]) == old(StateOf(ds[k]))
    ensures StatesOf(ds) == old(StatesOf(ds))[j := StateOf(ds[j])]
    ensures server.lastConnection == old(server.lastConnection) && server.drivers == old(server.drivers)
  {
    match ds[j]
    case StoreDriver(ms) =>
      r := ms.Process(inp.frame, inp.now, inp.id);
      ghost var o := StoreProcess(old(ms.queue), inp.frame, inp.now, inp.id);
      if o.ack.Some? {
        assert [o.ack.value][1..] == [];
      }
    case RoamingDriver(rm) =>
      r := rm.Process(inp.frame, inp.addr, inp.now);
    case SquelchDriver =>
      r := Squelch(inp.frame);
  }

  /** The loop over the drivers has called the first `j` of them: their new states are in place,
      their acknowledgments sent, and `claimed` tells whether the last one called claimed the
      frame, which then ends the chain. */
  ghost predicate Progress(server: UdpServer<Driver>, ds: seq<Driver>, ss: seq<DriverState>, inp: Input, j: nat,
                           claimed: bool, sent0: seq<Datagram>, last: Option<Addr>)
    reads server, Objects(ds)
  {
    && server.drivers == ds && server.lastConnection == last && |ss| == |ds| && j <= ChainLength(ss, inp)
    && StatesOf(ds) == SteppedUpTo(ss, inp, j)
    && server.sent == sent0 + Transmissions(last, ChainAcks(ss, inp, j))
    && (claimed ==> j == ChainLength(ss, inp) && Claimed(ss, inp))
    && (!claimed ==> j < ChainLength(ss, inp) || (j == |ss| && !Claimed(ss, inp)))
  }

  /** When the loop over the drivers stops, the chain has run its course. */
  lemma ProgressEnds(server: UdpServer<Driver>, ds: seq<Driver>, ss: seq<DriverState>, inp: Input, j: nat,
                     claimed: bool, sent0: seq<Datagram>, last: Option<Addr>)
    requires Progress(server, ds, ss, inp, j, claimed, sent0, last) && (claimed || j == |ds|)
    ensures server.drivers == ds && server.lastConnection == last
    ensures StatesOf(ds) == Dispatched(ss, inp).states && (claimed <==> Claimed(ss, inp))
    ensures server.sent == sent0 + Transmissions(last, Dispatched(ss, inp).acks)
  {
  }

  /** The driver at position `j` processes the frame: the chain's states and acknowledgments grow by
      one driver. */
  method OfferNext(server: UdpServer<Driver>, ds: seq<Driver>, ghost ss: seq<DriverState>, j: nat, inp: Input,
                   ghost sent0: seq<Datagram>, ghost last: Option<Addr>) returns (r: DriverResult)
    requires WiredAs(server, ds) && j < |ds| && Progress(server, ds, ss, inp, j, false, sent0, last)
    modifies server, Objects(ds)
    ensures Progress(server, ds, ss, inp, j + 1, r == Returned(true), sent0, last)
  {
    ObjectsHas(ds, j);
    r := Offer(server, ds, j, inp);
    ChainNext(ss, inp, j);
    ChainAt(ss, inp, j);
    SentStep(sent0, last, ChainAcks(ss, inp, j), Step(ss[j], inp).acks);
  }

  /** The `for driver in self._drivers` loop for one frame: each driver in turn until one returns
      True; a driver that raises is logged and passed over. `claimed` is false exactly when the
      `else` branch logs that no driver is interested. */
  method DispatchFrame(server: UdpServer<Driver>, inp: Input) returns (claimed: bool)
    requires Wired(server)
    modifies server, Objects(server.drivers)
    ensures server.drivers == old(server.drivers) && server.lastConnection == old(server.lastConnection)
    ensures var ss := old(StatesOf(server.drivers));
      && StatesOf(server.drivers) == Dispatched(ss, inp).states
      && (claimed <==> Claimed(ss, inp))
      && server.sent == old(server.sent) + Transmissions(old(server.lastConnection), Dispatched(ss, inp).acks)
  {
    var ds := server.drivers;
    ghost var ss := StatesOf(ds);
    ghost var sent0, last := server.sent, server.lastConnection;
    claimed := false;
    var j := 0;
    assert SteppedUpTo(ss, inp, 0) == ss;
    ChainStarts(ss, inp);
    while j < |ds| && !claimed
      invariant Progress(server, ds, ss, inp, j, claimed, sent0, last)
    {
      var r := OfferNext(server, ds, ss, j, inp, sent0, last);
      claimed := r == Returned(true);
      j := j + 1;
    }
    ProgressEnds(server, ds, ss, inp, j, claimed, sent0, last);
  }

  // ---------------------------------------------------------------------------------------------
  // A whole datagram

  /** The frames of one datagram that reach the drivers, each with the position of its piece, up to
      the first piece that fails to parse; `failed` tells whether one did. */
  datatype Parsing = Parsing(frames: seq<(nat, Frame)>, failed: bool)

  /** The `for message in data.split("\0")` loop's view of the pieces: empty pieces are skipped, the
      others parsed in order; a parse error leaves `datagram_received`, so no later piece is seen. */
  function Parsed(pieces: seq<string>, parse: string -> Option<Frame>): Parsing
  {
    if pieces == [] then Parsing([], false)
    else
      var i := |pieces| - 1;
      var before := Parsed(pieces[..i], parse);
      if before.failed || pieces[i] == "" then before
      else if parse(pieces[i]).None? then Parsing(before.frames, true)
      else Parsing(before.frames + [(i, parse(pieces[i]).value)], false)
  }

  /** `frame` is the parse of the non-empty piece at its position. */
  predicate FromPiece(pieces: seq<string>, parse: string -> Option<Frame>, frame: (nat, Frame))
  {
    frame.0 < |pieces| && pieces[frame.0] != "" && parse(pieces[frame.0]) == Some(frame.1)
  }

  /** The dispatched frames are the parses of non-empty pieces, in piece order. */
  lemma {:induction false} ParsedOrder(pieces: seq<string>, parse: string -> Option<Frame>)
    ensures forall k | 0 <= k < |Parsed(pieces, parse).frames| :: FromPiece(pieces, parse, Parsed(pieces, parse).frames[k])
    ensures forall k, l | 0 <= k < l < |Parsed(pieces, parse).frames| ::
      Parsed(pieces, parse).frames[k].0 < Parsed(pieces, parse).frames[l].0
  {
    if pieces != [] {
      var i := |pieces| - 1;
      var pre := pieces[..i];
      ParsedOrder(pre, parse);
      var before := Parsed(pre, parse);
      forall k | 0 <= k < |before.frames| ensures FromPiece(pieces, parse, before.frames[k]) {
        assert FromPiece(pre, parse, before.frames[k]);
        assert pieces[before.frames[k].0] == pre[before.frames[k].0];
      }
      if !before.failed && pieces[i] != "" && parse(pieces[i]).Some? {
        assert Parsed(pieces, parse).frames == before.frames + [(i, parse(pieces[i]).value)];
      } else {
        assert Parsed(pieces, parse).frames == before.frames;
      }
    }
  }

  /** Without a parse error every non-empty piece is dispatched. */
  lemma {:induction false} ParsedComplete(pieces: seq<string>, parse: string -> Option<Frame>)
    ensures var p := Parsed(pieces, parse);
      !p.failed ==> forall i | 0 <= i < |pieces| && pieces[i] != "" :: exists k | 0 <= k < |p.frames| :: p.frames[k].0 == i
  {
    if pieces != [] {
      var i := |pieces| - 1;
      var pre := pieces[..i];
      ParsedComplete(pre, parse);
      var before := Parsed(pre, parse);
      var p := Parsed(pieces, parse);
      if !p.failed {
        forall j | 0 <= j < |pieces| && pieces[j] != "" ensures exists k | 0 <= k < |p.frames| :: p.frames[k].0 == j {
          if j < i {
            assert pre[j] == pieces[j];
            var k :| 0 <= k < |before.frames| && before.frames[k].0 == j;
            assert p.frames[k] == before.frames[k];
          } else {
            assert p.frames[|p.frames| - 1].0 == i;
          }
        }
      }
    }
  }

  /** With a parse error, the failing piece is non-empty and every dispatched frame comes from a
      piece before it. */
  lemma {:induction false} ParsedStops(pieces: seq<string>, parse: string -> Option<Frame>)
    ensures var p := Parsed(pieces, parse);
      p.failed ==> exists i | 0 <= i < |pieces| :: pieces[i] != "" && parse(pieces[i]).None?
                     && forall k | 0 <= k < |p.frames| :: p.frames[k].0 < i
  {
    if pieces != [] {
      var i := |pieces| - 1;
      var pre := pieces[..i];
      ParsedStops(pre, parse);
      ParsedOrder(pre, parse);
      var before := Parsed(pre, parse);
      var p := Parsed(pieces, parse);
      if p.failed && !before.failed {
        assert pieces[i] != "" && parse(pieces[i]).None?;
        assert forall k | 0 <= k < |p.frames| :: p.frames[k].0 < i;
      }
      if p.failed && before.failed {
        var j :| 0 <= j < |pre| && pre[j] != "" && parse(pre[j]).None?
                 && forall k | 0 <= k < |before.frames| :: before.frames[k].0 < j;
        assert pieces[j] == pre[j];
      }
    }
  }

  lemma {:induction false} ParsedFailureStays(pieces: seq<string>, i: nat, parse: string -> Option<Frame>)
    requires i <= |pieces| && Parsed(pieces[..i], parse).failed
    ensures Parsed(pieces, parse) == Parsed(pieces[..i], parse)
    decreases |pieces| - i
  {
    if i < |pieces| {
      assert pieces[..i + 1][..i] == pieces[..i];
      ParsedFailureStays(pieces, i + 1, parse);
    } else {
      assert pieces[..i] == pieces;
    }
  }

  /** Each frame in turn goes through the chain; the frame from piece `i` draws `idFor(i)` as the
      internal id of a message it creates. */
  function RunFrames(ss: seq<DriverState>, frames: seq<(nat, Frame)>, addr: Addr, now: real, idFor: nat -> InternalId): (r: Run)
    ensures |r.states| == |ss|
  {
    if frames == [] then Run(ss, [])
    else
      var before := RunFrames(ss, frames[..|frames| - 1], addr, now, idFor);
      var (i, f) := frames[|frames| - 1];
      var d := Dispatched(before.states, Input(f, addr, now, idFor(i)));
      Run(d.states, before.acks + d.acks)
  }

  lemma RunNext(ss: seq<DriverState>, frames: seq<(nat, Frame)>, i: nat, f: Frame, addr: Addr, now: real, idFor: nat -> InternalId)
    ensures var before := RunFrames(ss, frames, addr, now, idFor);
      var d := Dispatched(before.states, Input(f, addr, now, idFor(i)));
      RunFrames(ss, frames + [(i, f)], addr, now, idFor) == Run(d.states, before.acks + d.acks)
  {
    assert (frames + [(i, f)])[..|frames|] == frames;
  }

  /** One more piece of a datagram that has parsed so far. */
  lemma ParsedNext(pieces: seq<string>, i: nat, parse: string -> Option<Frame>)
    requires i < |pieces| && !Parsed(pieces[..i], parse).failed
    ensures var before := Parsed(pieces[..i], parse);
      Parsed(pieces[..i + 1], parse) ==
        if pieces[i] == "" then before
        else if parse(pieces[i]).None? then Parsing(before.frames, true)
        else Parsing(before.frames + [(i, parse(pieces[i]).value)], false)
  {
    assert pieces[..i + 1][..i] == pieces[..i];
  }

  /** `datagram_received(data, addr)` at time `now`: the origin is remembered first, then every
      frame of the datagram goes through the chain, up to the first piece that does not parse.
      `parse` stands for `ET.fromstring`, None where it raises. Acknowledgments go back to `addr`. */
  method DatagramReceived(server: UdpServer<Driver>, data: string, addr: Addr, now: real,
                          idFor: nat -> InternalId, parse: string -> Option<Frame>)
    requires Wired(server)
    modifies server, Objects(server.drivers)
    ensures server.lastConnection == Some(addr) && server.drivers == old(server.drivers)
    ensures var p := Parsed(Split(data, NUL), parse);
      var run := RunFrames(old(StatesOf(server.drivers)), p.frames, addr, now, idFor);
      && StatesOf(server.drivers) == run.states
      && server.sent == old(server.sent) + Transmissions(Some(addr), run.acks)
  {
    ghost var ss0, sent0 := StatesOf(server.drivers), server.sent;
    server.lastConnection := Some(addr);
    var pieces := Split(data, NUL);
    var i := 0;
    assert pieces[..0] == [];
    while i < |pieces|
      invariant 0 <= i <= |pieces|
      invariant server.drivers == old(server.drivers) && server.lastConnection == Some(addr) && Wired(server)
      invariant !Parsed(pieces[..i], parse).failed
      invariant var run := RunFrames(ss0, Parsed(pieces[..i], parse).frames, addr, now, idFor);
        StatesOf(server.drivers) == run.states && server.sent == sent0 + Transmissions(Some(addr), run.acks)
    {
      ParsedNext(pieces, i, parse);
      var message := pieces[i];
      if message == "" {
        i := i + 1;
        continue;
      }
      var frame := parse(message);
      if frame.None? {
        ParsedFailureStays(pieces, i + 1, parse);
        return;
      }
      ghost var before := Parsed(pieces[..i], parse);
      ghost var run := RunFrames(ss0, before.frames, addr, now, idFor);
      var inp := Input(frame.value, addr, now, idFor(i));
      var claimed := DispatchFrame(server, inp);
      RunNext(ss0, before.frames, i, frame.value, addr, now, idFor);
      SentStep(sent0, Some(addr), run.acks, Dispatched(run.states, inp).acks);
      i := i + 1;
    }
    assert pieces[..i] == pieces;
  }

  // ---------------------------------------------------------------------------------------------
  // Registration

  /** `MessageSystem(udp_server)`: a new, empty message store that registers itself at the end of
      the chain. */
  method NewMessageSystem(server: UdpServer<Driver>) returns (ms: MessageSystem<Driver>)
    requires Wired(server)
    modifies server
    ensures fresh(ms) && ms.udp == server && ms.queue == []
    ensures server.drivers == old(server.drivers) + [StoreDriver(ms)] && Wired(server)
    ensures server.lastConnection == old(server.lastConnection) && server.sent == old(server.sent)
  {
    ms := new MessageSystem(server);
    server.RegisterDriver(StoreDriver(ms));
  }

  /** `RoamingMonitor(udp_server)`: a new monitor with an empty table, registered at the end. */
  method NewRoamingMonitor(server: UdpServer<Driver>) returns (rm: RoamingMonitor)
    requires Wired(server)
    modifies server
    ensures fresh(rm) && rm.locations == map[]
    ensures server.drivers == old(server.drivers) + [RoamingDriver(rm)] && Wired(server)
    ensures server.lastConnection == old(server.lastConnection) && server.sent == old(server.sent)
  {
    rm := new RoamingMonitor();
    server.RegisterDriver(RoamingDriver(rm));
  }

  /** `ConsumerDriver(udp_server)`: registered at the end. */
  method NewConsumerDriver(server: UdpServer<Driver>)
    requires Wired(server)
    modifies server
    ensures server.drivers == old(server.drivers) + [SquelchDriver] && Wired(server)
    ensures server.lastConnection == old(server.lastConnection) && server.sent == old(server.sent)
  {
    server.RegisterDriver(SquelchDriver);
  }

  /** The setup of `main`: the server, then the message store, then the consumer; the roaming
      monitor is not created. */
  method Setup() returns (server: UdpServer<Driver>, ms: MessageSystem<Driver>)
    ensures fresh(server) && fresh(ms) && Wired(server)
    ensures server.drivers == [StoreDriver(ms), SquelchDriver]
    ensures server.lastConnection == None && server.sent == [] && ms.queue == [] && ms.udp == server
  {
    server := new UdpServer();
    ms := NewMessageSystem(server);
    NewConsumerDriver(server);
  }

  /** The chain `main` builds, the message store and then the consumer, on the kinds of frame a base
      station sends: a job request or response is the store's; a system-information, login or alarm
      request passes the store and is the consumer's; any other frame goes unclaimed. */
  lemma DeployedChain(q: seq<Message>, inp: Input)
    ensures var ss := [Queue(q), Stateless]; var f := inp.frame;
      && (TypeIs(f, "request", "job") == Some(true) && NewMessage(f, inp.now, inp.id).Some? ==>
            ChainLength(ss, inp) == 1 && Claimed(ss, inp)
            && AfterChain(ss, inp) == [Queue(q + [NewMessage(f, inp.now, inp.id).value]), Stateless]
            && ChainAcks(ss, inp, 1) == [GetMessageResponse(NewMessage(f, inp.now, inp.id).value)])
      && (TypeIs(f, "response", "job") == Some(true) && Step(Queue(q), inp).result != Raised ==>
            ChainLength(ss, inp) == 1 && Claimed(ss, inp) && AfterChain(ss, inp)[1] == Stateless)
      && (f.tag == "request" && "type" in f.attrib && f.attrib["type"] in SquelchedTypes ==>
            ChainLength(ss, inp) == 2 && Claimed(ss, inp) && AfterChain(ss, inp) == ss)
      && (f.tag != "request" && TypeIs(f, "response", "job") != Some(true) ==>
            !Claimed(ss, inp) && AfterChain(ss, inp)[0] == ss[0])
  {
    var ss := [Queue(q), Stateless];
    var f := inp.frame;
    ChainSpec(ss, inp);
    StoreDeclines(q, f, inp.now, inp.id);
    if TypeIs(f, "request", "job") == Some(true) && NewMessage(f, inp.now, inp.id).Some? {
      DeployedJobRequest(q, inp);
    }
    if f.tag != "request" && TypeIs(f, "response", "job") != Some(true) {
      DeployedUnclaimed(q, inp);
    }
    if f.tag == "request" && "type" in f.attrib && f.attrib["type"] in SquelchedTypes {
      DeployedSquelched(q, inp);
    }
  }

  /** A job request that makes a message is the store's: the message is queued and acknowledged. */
  lemma DeployedJobRequest(q: seq<Message>, inp: Input)
    requires TypeIs(inp.frame, "request", "job") == Some(true) && NewMessage(inp.frame, inp.now, inp.id).Some?
    ensures var ss := [Queue(q), Stateless]; var m := NewMessage(inp.frame, inp.now, inp.id).value;
      && ChainLength(ss, inp) == 1 && Claimed(ss, inp)
      && AfterChain(ss, inp) == [Queue(q + [m]), Stateless]
      && ChainAcks(ss, inp, 1) == [GetMessageResponse(m)]
  {
    var ss := [Queue(q), Stateless];
    ChainSpec(ss, inp);
    StoreJobRequest(q, inp.frame, inp.now, inp.id);
    assert Claims(ss, inp, 0);
  }

  /** A system-information, login or alarm request passes the store unchanged and is the
      consumer's. */
  lemma DeployedSquelched(q: seq<Message>, inp: Input)
    requires inp.frame.tag == "request" && "type" in inp.frame.attrib
    requires inp.frame.attrib["type"] in SquelchedTypes
    ensures ChainLength([Queue(q), Stateless], inp) == 2 && Claimed([Queue(q), Stateless], inp)
    ensures AfterChain([Queue(q), Stateless], inp) == [Queue(q), Stateless]
  {
    var ss := [Queue(q), Stateless];
    ChainSpec(ss, inp);
    SquelchClassifies(inp.frame);
    StoreDeclines(q, inp.frame, inp.now, inp.id);
    assert !Claims(ss, inp, 0);
    assert Claims(ss, inp, 1);
  }

  /** A frame that is neither a request nor a job response, including a response without a `type`
      attribute on which the store raises, is declined by both drivers of `main`'s chain. */
  lemma DeployedUnclaimed(q: seq<Message>, inp: Input)
    requires inp.frame.tag != "request" && TypeIs(inp.frame, "response", "job") != Some(true)
    ensures !Claimed([Queue(q), Stateless], inp)
    ensures AfterChain([Queue(q), Stateless], inp)[0] == Queue(q)
  {
    var ss := [Queue(q), Stateless];
    ChainSpec(ss, inp);
    assert !Claims(ss, inp, 0);
    assert !Claims(ss, inp, 1);
  }
}
