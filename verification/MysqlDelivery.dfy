/** The connector end to end: what a run over packets of encoded events delivers. */
module MysqlDelivery {
  import opened Wrappers
  import opened Bits
  import opened ChangeEvents
  import opened MysqlRows
  import opened MysqlEvents
  import opened MysqlClient
  import opened MysqlRowRoundTrip
  import opened MysqlEventFacts
  import opened MysqlStream
  import opened MysqlBodies

  datatype Item = Item(body: Body, timestamp: u32, serverId: u32, logPos: u32, flags: u16)

  /** The events of one packet: rotations and format descriptions, the first event of another
      kind, if any, and whatever stands behind it. */
  datatype Packet = Packet(passed: seq<Item>, first: Option<Item>, behind: seq<RawEvent>)

  //////////////////////////////////////////////////////////////////////////////
  // Packets
  //////////////////////////////////////////////////////////////////////////////

  predicate Passes(b: Body) { b.RotateBody? || b.FormatBody? }

  ghost function Raw(tables: Tables, item: Item): RawEvent
    requires ValidBody(tables, item.body)
  {
    RawEvent(item.timestamp, TypeOf(item.body), item.serverId, item.logPos, item.flags, EncodeBody(tables, item.body))
  }

  ghost predicate ValidItems(tables: Tables, p: Packet) {
    && (forall i :: 0 <= i < |p.passed| ==> Passes(p.passed[i].body) && ValidBody(tables, p.passed[i].body))
    && (p.first.Some? ==> !Passes(p.first.value.body) && ValidBody(tables, p.first.value.body))
    && (p.first.None? ==> p.behind == [])
  }

  ghost function RawEvents(tables: Tables, p: Packet): (r: seq<RawEvent>)
    requires ValidItems(tables, p)
  {
    seq(|p.passed|, i requires 0 <= i < |p.passed| => Raw(tables, p.passed[i]))
    + (if p.first.Some? then [Raw(tables, p.first.value)] else []) + p.behind
  }

  /** The events can be printed, and fit one packet. */
  ghost predicate Valid(tables: Tables, p: Packet) {
    && ValidItems(tables, p)
    && (forall i :: 0 <= i < |RawEvents(tables, p)| ==> Sized(RawEvents(tables, p)[i]))
    && |EncodeEvents(RawEvents(tables, p))| < 0x100_0000
  }

  ghost function Content(tables: Tables, p: Packet): bytes
    requires Valid(tables, p)
  {
    EncodeEvents(RawEvents(tables, p))
  }

  /** The time of the first event ends in two zero bytes. */
  predicate ZeroTime(p: Packet) {
    if p.passed != [] then p.passed[0].timestamp % 0x1_0000 == 0
    else p.first.Some? && p.first.value.timestamp % 0x1_0000 == 0
  }

  /** The event a packet yields, if any. */
  function Yield(p: Packet): Option<Item> {
    if ZeroTime(p) then None else p.first
  }

  lemma TimeBytes(time: u32)
    requires time < Pow256(4)
    ensures LeBytes(time, 4)[0] == time % 256 && LeBytes(time, 4)[1] == time / 256 % 256
  {
    Pow256Values();
    var high := LeBytes(time / 256, 3);
    assert LeBytes(time, 4) == [time % 256] + high && high[0] == time / 256 % 256;
  }

  /** Any packet of events is taken for one to skip exactly when the time of its first event ends in
      two zero bytes. */
  lemma SkippedIffZeroTime(events: seq<RawEvent>)
    requires events != [] && forall i :: 0 <= i < |events| ==> Sized(events[i])
    ensures |EncodeEvents(events)| >= 19
    ensures Ignorable(EncodeEvents(events)) <==> events[0].timestamp % 0x1_0000 == 0
  {
    var e := events[0];
    var header, tail := EncodeEventHeader(e), e.data + EncodeEvents(events[1..]);
    assert EncodeEvents(events) == header + tail;
    Pow256Values();
    TimeBytes(e.timestamp);
    assert header[0] == LeBytes(e.timestamp, 4)[0] && header[1] == LeBytes(e.timestamp, 4)[1];
    hide *;
    assert (header + tail)[0] == header[0] && (header + tail)[1] == header[1];
    assert Ignorable(header + tail) <==> header[0] == 0 && header[1] == 0 by { IgnorableStart(header + tail); }
  }

  lemma IgnorableStart(packet: bytes)
    requires |packet| >= 2
    ensures Ignorable(packet) <==> packet[0] == 0 && packet[1] == 0
  {
  }

  /** Such a packet is lost, whatever its events are. */
  lemma ZeroTimeIsLost(c: ClientState, events: seq<RawEvent>, rest: bytes)
    requires events != [] && forall i :: 0 <= i < |events| ==> Sized(events[i])
    requires |EncodeEvents(events)| < 0x100_0000 && events[0].timestamp % 0x1_0000 == 0
    ensures NextEvent(c, Frame(EncodeEvents(events)) + rest) == NextEvent(c, rest)
  {
    SkippedIffZeroTime(events);
    FrameReadBackIffShort(EncodeEvents(events), rest);
    hide TakePacket, Frame, EncodeEvents, Ignorable;
  }

  lemma RawAt(tables: Tables, p: Packet)
    requires ValidItems(tables, p)
    ensures var r, n := RawEvents(tables, p), |p.passed|;
      && (forall i :: 0 <= i < n ==> r[i] == Raw(tables, p.passed[i]))
      && |r| >= n && (p.first.None? ==> |r| == n)
      && (p.first.Some? ==> |r| > n && r[n] == Raw(tables, p.first.value))
      && (r != [] ==> (ZeroTime(p) <==> r[0].timestamp % 0x1_0000 == 0))
  {
  }

  /** The header of the event a packet may yield. */
  ghost function Header(tables: Tables, p: Packet): EventHeader
    requires Valid(tables, p) && p.first.Some?
  {
    RawAt(tables, p);
    HeaderOf(Raw(tables, p.first.value))
  }

  lemma PassedOver(c: ClientState, item: Item)
    requires ValidBody(c.tables, item.body)
    ensures Passed(c, Raw(c.tables, item)) <==> Passes(item.body)
  {
    BodyParses(c.tables, item.body);
    hide EncodeBody, ValidBody, EventOf, TypeOf;
  }

  /** The walk over a packet: the first event that is not passed over. */
  lemma WalkOfPacket(c: ClientState, p: Packet)
    requires Valid(c.tables, p)
    ensures Walk(c, Content(c.tables, p), 0) ==
      if p.first.None? then (c, Exhausted)
      else
        var e := Meaning(c.tables, p.first.value.body);
        (Effect(c, e), Found(Header(c.tables, p), e))
  {
    var raws, n := RawEvents(c.tables, p), |p.passed|;
    RawAt(c.tables, p);
    forall i | 0 <= i < n ensures Passed(c, raws[i]) {
      PassedOver(c, p.passed[i]);
    }
    if p.first.Some? {
      PassedOver(c, p.first.value);
      BodyParses(c.tables, p.first.value.body);
    }
    hide Passed, Passes, EncodeBody, ValidBody, EventOf, TypeOf, Walk, EncodeEvents, Raw, RawEvents, Meaning;
    WalkReturnsFirst(c, raws, n);
  }

  /** What reading the next event makes of a packet: nothing if it is empty or its first time ends
      in two zero bytes or all its events are passed over, else its first event of another kind. */
  lemma NextOfPacket(c: ClientState, p: Packet, rest: bytes)
    requires Valid(c.tables, p)
    ensures var input := Frame(Content(c.tables, p)) + rest;
      NextEvent(c, input) ==
        if RawEvents(c.tables, p) == [] then (c, rest, NoEvent)
        else if Yield(p).None? then NextEvent(c, rest)
        else
          var e := Meaning(c.tables, p.first.value.body);
          (Effect(c, e), rest, Event(Header(c.tables, p), e))
  {
    var raws, packet := RawEvents(c.tables, p), Content(c.tables, p);
    RawAt(c.tables, p);
    if raws != [] {
      SkippedIffZeroTime(raws);
    }
    WalkOfPacket(c, p);
    FrameReadBackIffShort(packet, rest);
    hide TakePacket, Frame, Walk, EncodeEvents, RawEvents, Raw, Meaning, Ignorable, ZeroTime, Effect, Valid,
      ValidItems, Header;
  }

  /** Of a packet with an event that is not passed over, that event is read exactly when the time of
      the packet's first event does not end in two zero bytes; else the packet is lost. */
  lemma ReadIffTimeNonZero(c: ClientState, p: Packet, rest: bytes)
    requires Valid(c.tables, p) && p.first.Some?
    ensures var e := Meaning(c.tables, p.first.value.body);
      NextEvent(c, Frame(Content(c.tables, p)) + rest)
        == (Effect(c, e), rest, Event(Header(c.tables, p), e))
      <==> !ZeroTime(p)
  {
    NextOfPacket(c, p, rest);
    RawAt(c.tables, p);
    NextConsumes(c, rest);
    hide NextEvent, Frame, RawEvents, Raw, Meaning, ZeroTime, Effect, Valid, ValidItems, Content, Header;
  }

  //////////////////////////////////////////////////////////////////////////////
  // Streams
  //////////////////////////////////////////////////////////////////////////////

  /** The client after a packet: a table map read replaces the one of its id, a GTID the last one. */
  ghost function ClientAfter(c: ClientState, p: Packet): ClientState {
    match Yield(p)
    case Some(Item(MapBody(t, _, _), _, _, _, _)) => ClientState(c.tables[t.tableId := t], c.currentGtid)
    case Some(Item(GtidBody(_, uuid, gno, _), _, _, _, _)) => ClientState(c.tables, Some((uuid, gno)))
    case _ => c
  }

  lemma EffectOfPacket(c: ClientState, p: Packet)
    ensures ClientAfter(c, p) == if Yield(p).None? then c else Effect(c, Meaning(c.tables, Yield(p).value.body))
  {
    hide JsonRows, JsonPairs;
  }

  ghost predicate AllValid(c: ClientState, packets: seq<Packet>)
    decreases |packets|
  {
    packets == [] || (Valid(c.tables, packets[0]) && AllValid(ClientAfter(c, packets[0]), packets[1..]))
  }

  ghost function Wire(c: ClientState, packets: seq<Packet>): bytes
    requires AllValid(c, packets)
    decreases |packets|
  {
    if packets == [] then []
    else Frame(Content(c.tables, packets[0])) + Wire(ClientAfter(c, packets[0]), packets[1..])
  }

  /** The change events of one packet, under the table maps in force. */
  ghost function PacketEvents(tables: Tables, p: Packet): seq<ChangeEvent> {
    if Yield(p).None? then [] else EventsUnder(tables, Meaning(tables, Yield(p).value.body))
  }

  ghost function Delivered(c: ClientState, packets: seq<Packet>): seq<ChangeEvent>
    decreases |packets|
  {
    if packets == [] then []
    else PacketEvents(c.tables, packets[0]) + Delivered(ClientAfter(c, packets[0]), packets[1..])
  }

  ghost function ClientAtEnd(c: ClientState, packets: seq<Packet>): ClientState
    decreases |packets|
  {
    if packets == [] then c else ClientAtEnd(ClientAfter(c, packets[0]), packets[1..])
  }

  /** A run over packets goes on behind them, with their events sent and their maps in force. */
  lemma {:induction false} StreamThrough(c: ClientState, sent: seq<ChangeEvent>, packets: seq<Packet>, tail: bytes)
    requires AllValid(c, packets)
    ensures Stream(c, sent, Wire(c, packets) + tail)
         == Stream(ClientAtEnd(c, packets), sent + Delivered(c, packets), tail)
    decreases |packets|
  {
    hide *;
    if packets == [] {
      NothingDelivered(c);
      assert [] + tail == tail && sent + [] == sent;
    } else {
      var c', here := ClientAfter(c, packets[0]), PacketEvents(c.tables, packets[0]);
      FirstPacket(c, packets);
      var rest := Wire(c', packets[1..]);
      var frame := Frame(Content(c.tables, packets[0]));
      assert frame + rest + tail == frame + (rest + tail);
      StreamStep(c, sent, packets[0], rest + tail);
      StreamThrough(c', sent + here, packets[1..], tail);
      assert sent + (here + Delivered(c', packets[1..])) == sent + here + Delivered(c', packets[1..]);
    }
  }

  /** Every sequence of packets of printed events, each row event under a mapped layout, is streamed
      without error into exactly the change events its packets yield, in order; the client ends
      with the last table map of every id and the last GTID, and stops at the end of the input. */
  lemma StreamDelivers(c: ClientState, sent: seq<ChangeEvent>, packets: seq<Packet>)
    requires AllValid(c, packets)
    ensures Stream(c, sent, Wire(c, packets))
         == (ClientAtEnd(c, packets), sent + Delivered(c, packets), Disconnected(ConnectionClosed))
  {
    StreamThrough(c, sent, packets, []);
    assert Wire(c, packets) + [] == Wire(c, packets);
    hide *;
    StreamOfNothing(ClientAtEnd(c, packets), sent + Delivered(c, packets));
  }

  /** The walk passes over the event: it is none, a rotation or a format description. */
  predicate PassedUnder(tables: Tables, e: RawEvent) {
    match EventOf(tables, e.ty, e.data)
    case Done(None, _) => true
    case Done(Some(event), _) => event.Rotate? || event.FormatDescription?
    case _ => false
  }

  /** Up to event k the packet is passed over, and event k cannot be parsed. */
  ghost predicate FaultAt(tables: Tables, events: seq<RawEvent>, k: nat) {
    && k < |events| && (forall i :: 0 <= i < |events| ==> Sized(events[i]))
    && !EventOf(tables, events[k].ty, events[k].data).Done?
    && forall i :: 0 <= i < k ==> PassedUnder(tables, events[i])
  }

  lemma WalkToFault(c: ClientState, events: seq<RawEvent>, k: nat)
    requires FaultAt(c.tables, events, k)
    ensures var r := EventOf(c.tables, events[k].ty, events[k].data);
      Walk(c, EncodeEvents(events), 0) == (c, if r.Panic? then WalkPanicked else WalkFailed(r.error))
  {
    hide EventOf, EncodeEvents, Walk, Sized;
    assert forall i :: 0 <= i < k ==> Passed(c, events[i]) by {
      assert forall i :: 0 <= i < k ==> PassedUnder(c.tables, events[i]);
    }
    WalkReturnsFirst(c, events, k);
  }

  lemma NextOfWalk(c: ClientState, packet: bytes, tail: bytes, w: WalkResult)
    requires packet != [] && !Ignorable(packet) && |packet| < 0x100_0000
    requires Walk(c, packet, 0) == (c, w) && (w.WalkFailed? || w.WalkPanicked?)
    ensures NextEvent(c, Frame(packet) + tail) == (c, tail, if w.WalkFailed? then Broken(w.error) else Crashed)
  {
    FrameReadBackIffShort(packet, tail);
    hide TakePacket, Frame, Walk, Ignorable;
  }

  lemma NextOfFault(c: ClientState, events: seq<RawEvent>, k: nat, tail: bytes)
    requires FaultAt(c.tables, events, k)
    requires events[0].timestamp % 0x1_0000 != 0 && |EncodeEvents(events)| < 0x100_0000
    ensures var r := EventOf(c.tables, events[k].ty, events[k].data);
      NextEvent(c, Frame(EncodeEvents(events)) + tail) == (c, tail, if r.Panic? then Crashed else Broken(r.error))
  {
    assert forall i :: 0 <= i < |events| ==> Sized(events[i]);
    hide *;
    SkippedIffZeroTime(events);
    WalkToFault(c, events, k);
    var r := EventOf(c.tables, events[k].ty, events[k].data);
    NextOfWalk(c, EncodeEvents(events), tail, if r.Panic? then WalkPanicked else WalkFailed(r.error));
  }

  lemma StreamEnds(c: ClientState, sent: seq<ChangeEvent>, input: bytes)
    ensures var (c', rest, next) := NextEvent(c, input);
      && (next.Broken? ==> Stream(c, sent, input) == (c', sent, Disconnected(next.error)))
      && (next.Crashed? ==> Stream(c, sent, input) == (c', sent, Panicked))
  {
    hide NextEvent;
  }

  /** A packet with an event that cannot be parsed ends the run with that event's error, or a panic,
      once the packets before it are delivered, whatever stands behind it in the packet or after it. */
  lemma FaultEndsStream(c: ClientState, sent: seq<ChangeEvent>, packets: seq<Packet>,
                        events: seq<RawEvent>, k: nat, tail: bytes)
    requires AllValid(c, packets) && FaultAt(ClientAtEnd(c, packets).tables, events, k)
    requires events[0].timestamp % 0x1_0000 != 0 && |EncodeEvents(events)| < 0x100_0000
    ensures var end := ClientAtEnd(c, packets);
      var r := EventOf(end.tables, events[k].ty, events[k].data);
      Stream(c, sent, Wire(c, packets) + (Frame(EncodeEvents(events)) + tail))
        == (end, sent + Delivered(c, packets), if r.Panic? then Panicked else Disconnected(r.error))
  {
    assert forall i :: 0 <= i < |events| ==> Sized(events[i]);
    hide *;
    var input := Frame(EncodeEvents(events)) + tail;
    StreamThrough(c, sent, packets, input);
    NextOfFault(ClientAtEnd(c, packets), events, k, tail);
    StreamEnds(ClientAtEnd(c, packets), sent + Delivered(c, packets), input);
  }

  lemma StreamOfNothing(c: ClientState, sent: seq<ChangeEvent>)
    ensures Stream(c, sent, []) == (c, sent, Disconnected(ConnectionClosed))
  {
    NothingToTake();
  }

  lemma NothingDelivered(c: ClientState)
    ensures AllValid(c, []) && Wire(c, []) == [] && Delivered(c, []) == [] && ClientAtEnd(c, []) == c
  {
  }

  lemma FirstPacket(c: ClientState, packets: seq<Packet>)
    requires packets != [] && AllValid(c, packets)
    ensures var p, c' := packets[0], ClientAfter(c, packets[0]);
      && Valid(c.tables, p) && AllValid(c', packets[1..])
      && Wire(c, packets) == Frame(Content(c.tables, p)) + Wire(c', packets[1..])
      && Delivered(c, packets) == PacketEvents(c.tables, p) + Delivered(c', packets[1..])
      && ClientAtEnd(c, packets) == ClientAtEnd(c', packets[1..])
  {
    hide Frame, Content, Valid, PacketEvents, ClientAfter;
  }

  lemma StreamStep(c: ClientState, sent: seq<ChangeEvent>, p: Packet, rest: bytes)
    requires Valid(c.tables, p)
    ensures Stream(c, sent, Frame(Content(c.tables, p)) + rest)
         == Stream(ClientAfter(c, p), sent + PacketEvents(c.tables, p), rest)
  {
    NextOfPacket(c, p, rest);
    assert sent + [] == sent;
    EffectOfPacket(c, p);
    if Yield(p).Some? {
      EmittedAfterEffect(c, Meaning(c.tables, Yield(p).value.body));
    }
    assert RawEvents(c.tables, p) == [] ==> Yield(p).None? by {
      RawAt(c.tables, p);
    }
    hide Frame, Content, NextEvent, Emitted, EventsUnder, ClientAfter, Meaning, Effect, Valid, ValidItems,
      RawEvents, Raw, Yield, Header;
  }

  lemma EmittedAfterEffect(c: ClientState, e: BinlogEvent)
    ensures Emitted(Effect(c, e).tables, e) == EventsUnder(c.tables, e)
  {
    EmitsReference(c.tables, e);
    hide EventsUnder, ChangesOf;
  }
}
