/**
 The file channel of the remote-control panel: a header packet, data packets of at most 16384 bytes,
 an end packet.  The channel delivers every packet, in order.  Nothing serialises two sends, so packets
 of several files may interleave, and every end packet arms a timer that clears the receiver's transfer
 record two seconds later, whichever transfer is then in it.
 */
module FileTransfer {
  import opened ByteStrings
  import opened Common

  const CHUNK := 16384
  const HEADER: byte := 1
  const DATA: byte := 2
  const END: byte := 3
  /** Milliseconds from an end packet to the firing of its timer. */
  const CLEAR_DELAY := 2000

  /** The announced name and size; the JSON coding of it is a parameter. */
  datatype Meta = Meta(name: string, size: nat)

  /** Decoding fails on a header that is not JSON; the handler then throws before it changes anything. */
  datatype Codec = Codec(encode: Meta -> Bytes, decode: Bytes -> Option<Meta>)

  ghost predicate Faithful(codec: Codec) {
    forall m :: codec.decode(codec.encode(m)) == Some(m)
  }

  /** A transfer record; `serial` is its identity, the number of headers accepted before its own. */
  datatype Transfer =
    Transfer(serial: nat, name: string, size: nat, received: nat, chunks: seq<Bytes>, done: bool)

  /** A saved file, with the identity of the record it was saved from. */
  datatype Saved = Saved(serial: nat, name: string, bytes: Bytes)

  /** The transfer in progress, the files saved so far, the due times of the armed timers, the headers accepted. */
  datatype Receiver =
    Receiver(incoming: Option<Transfer>, saved: seq<Saved>, timers: multiset<nat>, headers: nat)

  // ----- The sender

  /** The data packets for the file from the given offset on. */
  function DataPackets(file: Bytes, off: nat): seq<Bytes>
    requires off <= |file|
    decreases |file| - off
  {
    if off == |file| then []
    else
      var end := if off + CHUNK < |file| then off + CHUNK else |file|;
      [[DATA] + file[off..end]] + DataPackets(file, end)
  }

  function Packets(name: string, file: Bytes, codec: Codec): seq<Bytes> {
    [[HEADER] + codec.encode(Meta(name, |file|))] + DataPackets(file, 0) + [[END]]
  }

  method SendFile(name: string, file: Bytes, codec: Codec) returns (sent: seq<Bytes>)
    ensures sent == Packets(name, file, codec)
  {
    var header := [HEADER] + codec.encode(Meta(name, |file|));
    sent := [header];
    var off := 0;
    while off < |file|
      invariant 0 <= off <= |file|
      invariant sent + DataPackets(file, off) == [header] + DataPackets(file, 0)
    {
      var end := if off + CHUNK < |file| then off + CHUNK else |file|;
      var packet := [DATA] + file[off..end];
      assert sent + ([packet] + DataPackets(file, end)) == sent + [packet] + DataPackets(file, end);
      sent := sent + [packet];
      off := end;
    }
    assert sent + [] == sent;
    sent := sent + [[END]];
  }

  // ----- The receiver

  function Handle(r: Receiver, packet: Bytes, now: nat, codec: Codec): Receiver {
    if packet == [] then r
    else if packet[0] == HEADER then
      var meta := codec.decode(packet[1..]);
      if meta.None? then r
      else
        r.(incoming := Some(Transfer(r.headers, meta.value.name, meta.value.size, 0, [], false)),
           headers := r.headers + 1)
    else if packet[0] == DATA && r.incoming.Some? then
      var t := r.incoming.value;
      r.(incoming := Some(t.(chunks := t.chunks + [packet[1..]], received := t.received + |packet| - 1)))
    else if packet[0] == END && r.incoming.Some? then
      var t := r.incoming.value;
      r.(incoming := Some(t.(done := true)),
         saved := r.saved + [Saved(t.serial, t.name, Concat(t.chunks))],
         timers := r.timers + multiset{now + CLEAR_DELAY})
    else r
  }

  function Fire(r: Receiver, due: nat): Receiver {
    r.(incoming := None, timers := r.timers - multiset{due})
  }

  /** What the receiver sees: a packet of the send in question (`own`) or of any other, or a timer. */
  datatype Event =
    | Packet(bytes: Bytes, time: nat, own: bool)
    | TimerFires(due: nat, time: nat)

  function Step(r: Receiver, e: Event, codec: Codec): Receiver {
    match e
    case Packet(bytes, time, _) => Handle(r, bytes, time, codec)
    case TimerFires(due, _) => Fire(r, due)
  }

  function Run(r: Receiver, events: seq<Event>, codec: Codec): Receiver
    decreases |events|
  {
    if events == [] then r else Run(Step(r, events[0], codec), events[1..], codec)
  }

  /** Only armed timers fire, and none before it is due. */
  predicate Possible(r: Receiver, events: seq<Event>, codec: Codec)
    decreases |events|
  {
    events == [] ||
    (&& (events[0].TimerFires? ==> events[0].due in r.timers && events[0].due <= events[0].time)
     && Possible(Step(r, events[0], codec), events[1..], codec))
  }

  function Own(events: seq<Event>): seq<Bytes> {
    if events == [] then []
    else (if events[0].Packet? && events[0].own then [events[0].bytes] else []) + Own(events[1..])
  }

  /** The events that harm a transfer in progress: a timer, a foreign header, foreign data. */
  predicate Disturbs(e: Event, codec: Codec) {
    match e
    case TimerFires(_, _) => true
    case Packet(bytes, _, own) =>
      && !own && bytes != []
      && (|| (bytes[0] == HEADER && codec.decode(bytes[1..]).Some?)
          || (bytes[0] == DATA && |bytes| > 1))
  }

  predicate Undisturbed(events: seq<Event>, codec: Codec) {
    forall i :: 0 <= i < |events| ==> !Disturbs(events[i], codec)
  }

  // ----- One transfer among the events

  /** The record of the given header is in place and holds the file up to `off`. */
  ghost predicate Intact(r: Receiver, serial: nat, name: string, file: Bytes, off: nat)
    requires off <= |file|
  {
    && r.headers > serial && r.incoming.Some?
    && var t := r.incoming.value;
       && t.serial == serial && t.name == name && t.size == |file|
       && t.received == off && Concat(t.chunks) == file[..off]
  }

  /** The record is gone, or replaced by a later one, or holds more than the sender's bytes. */
  ghost predicate Lost(r: Receiver, serial: nat, off: nat) {
    && r.headers > serial
    && (r.incoming.Some? ==>
          && var t := r.incoming.value;
             && t.serial >= serial && t.received == |Concat(t.chunks)|
             && (t.serial == serial ==> t.received > off))
  }

  lemma OwnDataKeepsIntact(
    r: Receiver, serial: nat, name: string, file: Bytes, off: nat, end: nat, now: nat, codec: Codec)
    requires off < end <= |file| && Intact(r, serial, name, file, off)
    ensures Intact(Handle(r, [DATA] + file[off..end], now, codec), serial, name, file, end)
  {
    var packet := [DATA] + file[off..end];
    assert packet[1..] == file[off..end];
    AppendChunk(r.incoming.value.chunks, packet[1..]);
    assert file[..off] + file[off..end] == file[..end];
  }

  lemma HarmlessKeepsIntact(
    r: Receiver, serial: nat, name: string, file: Bytes, off: nat, e: Event, codec: Codec)
    requires off <= |file| && Intact(r, serial, name, file, off)
    requires !Disturbs(e, codec) && !(e.Packet? && e.own)
    ensures Intact(Step(r, e, codec), serial, name, file, off)
  {
    if e.bytes != [] && e.bytes[0] == DATA {
      AppendChunk(r.incoming.value.chunks, e.bytes[1..]);
    }
  }

  lemma DisturbanceLoses(
    r: Receiver, serial: nat, name: string, file: Bytes, off: nat, e: Event, codec: Codec)
    requires off <= |file| && Intact(r, serial, name, file, off) && Disturbs(e, codec)
    ensures Lost(Step(r, e, codec), serial, off)
  {
    if e.Packet? && e.bytes[0] == DATA {
      AppendChunk(r.incoming.value.chunks, e.bytes[1..]);
    }
  }

  /** Nothing brings a lost record back; `more` is what an own data packet adds to the sender's count. */
  lemma LostStaysLost(r: Receiver, serial: nat, off: nat, more: nat, e: Event, codec: Codec)
    requires Lost(r, serial, off)
    requires more == 0 || (e.Packet? && |e.bytes| == more + 1 && e.bytes[0] == DATA)
    ensures Lost(Step(r, e, codec), serial, off + more)
  {
    if e.Packet? && e.bytes != [] && e.bytes[0] == DATA && r.incoming.Some? {
      AppendChunk(r.incoming.value.chunks, e.bytes[1..]);
    }
  }

  /** The next own packet carries the next chunk; any other event carries nothing of the file. */
  lemma OwnNext(events: seq<Event>, file: Bytes, off: nat) returns (end: nat)
    requires events != [] && off <= |file| && Own(events) == DataPackets(file, off)
    ensures off <= end <= |file| && Own(events[1..]) == DataPackets(file, end)
    ensures if events[0].Packet? && events[0].own
            then off < end && events[0].bytes == [DATA] + file[off..end]
            else off == end
  {
    end := off;
    if events[0].Packet? && events[0].own {
      end := if off + CHUNK < |file| then off + CHUNK else |file|;
      assert Own(events)[1..] == Own(events[1..]);
      assert off < |file|;
      var packets := DataPackets(file, off);
      assert packets[0] == [DATA] + file[off..end] && packets[1..] == DataPackets(file, end);
    } else {
      assert Own(events) == Own(events[1..]);
    }
  }

  lemma {:induction false} StaysIntact(
    r: Receiver, events: seq<Event>, serial: nat, name: string, file: Bytes, off: nat, codec: Codec)
    requires off <= |file| && Intact(r, serial, name, file, off)
    requires Own(events) == DataPackets(file, off) && Undisturbed(events, codec)
    ensures Intact(Run(r, events, codec), serial, name, file, |file|)
    decreases |events|
  {
    if events == [] {
      assert off == |file|;
    } else {
      var end := OwnNext(events, file, off);
      if events[0].Packet? && events[0].own {
        OwnDataKeepsIntact(r, serial, name, file, off, end, events[0].time, codec);
      } else {
        HarmlessKeepsIntact(r, serial, name, file, off, events[0], codec);
      }
      StaysIntact(Step(r, events[0], codec), events[1..], serial, name, file, end, codec);
    }
  }

  lemma {:induction false} StaysLost(
    r: Receiver, events: seq<Event>, serial: nat, file: Bytes, off: nat, codec: Codec)
    requires off <= |file| && Lost(r, serial, off) && Own(events) == DataPackets(file, off)
    ensures Lost(Run(r, events, codec), serial, |file|)
    decreases |events|
  {
    if events == [] {
      assert off == |file|;
    } else {
      var end := OwnNext(events, file, off);
      LostStaysLost(r, serial, off, end - off, events[0], codec);
      StaysLost(Step(r, events[0], codec), events[1..], serial, file, end, codec);
    }
  }

  lemma {:induction false} BecomesLost(
    r: Receiver, events: seq<Event>, serial: nat, name: string, file: Bytes, off: nat, codec: Codec)
    requires off <= |file| && Intact(r, serial, name, file, off)
    requires Own(events) == DataPackets(file, off) && !Undisturbed(events, codec)
    ensures Lost(Run(r, events, codec), serial, |file|)
    decreases |events|
  {
    var end := OwnNext(events, file, off);
    var r1 := Step(r, events[0], codec);
    if Disturbs(events[0], codec) {
      DisturbanceLoses(r, serial, name, file, off, events[0], codec);
      StaysLost(r1, events[1..], serial, file, end, codec);
    } else {
      if events[0].Packet? && events[0].own {
        OwnDataKeepsIntact(r, serial, name, file, off, end, events[0].time, codec);
      } else {
        HarmlessKeepsIntact(r, serial, name, file, off, events[0], codec);
      }
      assert !Undisturbed(events[1..], codec) by {
        var i :| 0 <= i < |events| && Disturbs(events[i], codec);
        assert events[1..][i - 1] == events[i];
      }
      BecomesLost(r1, events[1..], serial, name, file, end, codec);
    }
  }

  // ----- When a file arrives

  /** The receiver just after the header. */
  function AfterHeader(r: Receiver, name: string, file: Bytes, start: nat, codec: Codec): Receiver {
    Handle(r, [HEADER] + codec.encode(Meta(name, |file|)), start, codec)
  }

  /** The receiver just before the end packet: after the header, and the events up to the end packet. */
  function BeforeEnd(r: Receiver, name: string, file: Bytes, start: nat, events: seq<Event>, codec: Codec): Receiver {
    Run(AfterHeader(r, name, file, start, codec), events, codec)
  }

  /** The end packet saves the record of this header, holding exactly the sender's bytes. */
  predicate Arrives(
    r: Receiver, name: string, file: Bytes, start: nat, events: seq<Event>, end: nat, codec: Codec)
  {
    var u := BeforeEnd(r, name, file, start, events, codec);
    Handle(u, [END], end, codec).saved == u.saved + [Saved(r.headers, name, file)]
  }

  lemma HeaderOpens(r: Receiver, name: string, file: Bytes, start: nat, codec: Codec)
    requires Faithful(codec)
    ensures var r1 := AfterHeader(r, name, file, start, codec);
            && Intact(r1, r.headers, name, file, 0)
            && r1.saved == r.saved && r1.timers == r.timers && r1.headers == r.headers + 1
  {
    var meta := Meta(name, |file|);
    var header := [HEADER] + codec.encode(meta);
    assert header[1..] == codec.encode(meta);
    assert codec.decode(codec.encode(meta)) == Some(meta);
  }

  /**
   From any state of the receiver and among any events: a file arrives if and only if, between its header
   and its end packet, no timer fires and no header and no data of another send come in.
   */
  lemma FileArrivesExactly(
    r: Receiver, name: string, file: Bytes, start: nat, events: seq<Event>, end: nat, codec: Codec)
    requires Faithful(codec) && Own(events) == DataPackets(file, 0)
    ensures Arrives(r, name, file, start, events, end, codec) <==> Undisturbed(events, codec)
  {
    var r1 := AfterHeader(r, name, file, start, codec);
    HeaderOpens(r, name, file, start, codec);
    var u := Run(r1, events, codec);
    if Undisturbed(events, codec) {
      StaysIntact(r1, events, r.headers, name, file, 0, codec);
      assert file[..|file|] == file;
    } else {
      BecomesLost(r1, events, r.headers, name, file, 0, codec);
      if u.incoming.Some? {
        var s := Saved(u.incoming.value.serial, u.incoming.value.name, Concat(u.incoming.value.chunks));
        assert (u.saved + [s])[|u.saved|] == s;
        assert (u.saved + [Saved(r.headers, name, file)])[|u.saved|] == Saved(r.headers, name, file);
      } else {
        assert |u.saved + [Saved(r.headers, name, file)]| == |u.saved| + 1;
      }
    }
  }

  // ----- The timers of earlier files

  /** Nothing but this send is on the channel. */
  predicate Alone(events: seq<Event>) {
    forall i :: 0 <= i < |events| ==> events[i].Packet? ==> events[i].own
  }

  lemma {:induction false} OwnPacketsAreData(events: seq<Event>, file: Bytes, off: nat)
    requires off <= |file| && Own(events) == DataPackets(file, off) && Alone(events)
    ensures forall i :: 0 <= i < |events| && events[i].Packet? ==> |events[i].bytes| > 1 && events[i].bytes[0] == DATA
    decreases |events|
  {
    if events != [] {
      var end := OwnNext(events, file, off);
      OwnPacketsAreData(events[1..], file, end);
      forall i | 0 <= i < |events| && events[i].Packet?
        ensures |events[i].bytes| > 1 && events[i].bytes[0] == DATA
      {
        assert i > 0 ==> events[i] == events[1..][i - 1];
      }
    }
  }

  /** Data packets arm nothing, so only timers armed before can fire, each once. */
  lemma {:induction false} OnlyEarlierTimersFire(r: Receiver, events: seq<Event>, codec: Codec)
    requires Possible(r, events, codec)
    requires forall i :: 0 <= i < |events| && events[i].Packet? ==> |events[i].bytes| > 1 && events[i].bytes[0] == DATA
    ensures var u := Run(r, events, codec);
            u.timers <= r.timers && u.saved == r.saved && u.headers == r.headers
    ensures forall i :: 0 <= i < |events| && events[i].TimerFires? ==>
              events[i].due in r.timers && events[i].due <= events[i].time
    decreases |events|
  {
    if events != [] {
      var r1 := Step(r, events[0], codec);
      assert forall i :: 0 <= i < |events[1..]| ==> events[1..][i] == events[i + 1];
      OnlyEarlierTimersFire(r1, events[1..], codec);
      forall i | 0 <= i < |events| && events[i].TimerFires?
        ensures events[i].due in r.timers && events[i].due <= events[i].time
      {
        assert i > 0 ==> events[i] == events[1..][i - 1];
      }
    }
  }

  ghost predicate OnlyData(events: seq<Event>) {
    forall i :: 0 <= i < |events| ==> events[i].Packet? && |events[i].bytes| > 1 && events[i].bytes[0] == DATA
  }

  lemma {:induction false} DataChangesNothingElse(r: Receiver, events: seq<Event>, codec: Codec)
    requires OnlyData(events)
    ensures Possible(r, events, codec)
    ensures var u := Run(r, events, codec);
            u.timers == r.timers && u.saved == r.saved && u.headers == r.headers
    decreases |events|
  {
    if events != [] {
      DataChangesNothingElse(Step(r, events[0], codec), events[1..], codec);
    }
  }

  /**
   A send that has the channel to itself arrives exactly if no timer of an earlier file falls due by the
   time its end packet is handled.  The last precondition says that timers which are due have fired.
   */
  lemma ArrivesUnlessATimerIsDue(
    r: Receiver, name: string, file: Bytes, start: nat, events: seq<Event>, end: nat, codec: Codec)
    requires Faithful(codec) && Own(events) == DataPackets(file, 0) && Alone(events)
    requires Possible(AfterHeader(r, name, file, start, codec), events, codec)
    requires forall i :: 0 <= i < |events| ==> events[i].time <= end
    requires forall due :: due in BeforeEnd(r, name, file, start, events, codec).timers ==> due > end
    ensures Arrives(r, name, file, start, events, end, codec) <==> forall due :: due in r.timers ==> due > end
  {
    var r1 := AfterHeader(r, name, file, start, codec);
    HeaderOpens(r, name, file, start, codec);
    OwnPacketsAreData(events, file, 0);
    OnlyEarlierTimersFire(r1, events, codec);
    FileArrivesExactly(r, name, file, start, events, end, codec);
    assert r1.timers == r.timers;
    if Undisturbed(events, codec) {
      assert forall i :: 0 <= i < |events| ==> !Disturbs(events[i], codec) && events[i].Packet?;
      DataChangesNothingElse(r1, events, codec);
    } else {
      var i :| 0 <= i < |events| && Disturbs(events[i], codec);
      assert events[i].TimerFires?;
    }
  }

  // ----- Failing inputs

  /** The data packets of a file, handled one after the other at one time. */
  function Delivered(packets: seq<Bytes>, time: nat): (events: seq<Event>)
    ensures |events| == |packets|
    ensures forall i :: 0 <= i < |events| ==> events[i] == Packet(packets[i], time, true)
  {
    seq(|packets|, i requires 0 <= i < |packets| => Packet(packets[i], time, true))
  }

  lemma {:induction false} OwnOfDelivered(packets: seq<Bytes>, time: nat)
    ensures Own(Delivered(packets, time)) == packets
  {
    if packets != [] {
      OwnOfDelivered(packets[1..], time);
      assert Delivered(packets, time)[1..] == Delivered(packets[1..], time);
      assert [packets[0]] + packets[1..] == packets;
    }
  }

  lemma DeliveredIsData(file: Bytes, time: nat)
    ensures OnlyData(Delivered(DataPackets(file, 0), time))
  {
    ChunksAreBounded(file, 0);
    OwnOfDelivered(DataPackets(file, 0), time);
    OwnPacketsAreData(Delivered(DataPackets(file, 0), time), file, 0);
  }

  /** With nothing in between, the record is complete at the end packet and nothing else has changed. */
  lemma DeliveredWhole(r: Receiver, name: string, file: Bytes, now: nat, codec: Codec)
    requires Faithful(codec)
    ensures var u := BeforeEnd(r, name, file, now, Delivered(DataPackets(file, 0), now), codec);
            && Intact(u, r.headers, name, file, |file|) && file[..|file|] == file
            && u.saved == r.saved && u.timers == r.timers && u.headers == r.headers + 1
  {
    var r1, events := AfterHeader(r, name, file, now, codec), Delivered(DataPackets(file, 0), now);
    HeaderOpens(r, name, file, now, codec);
    OwnOfDelivered(DataPackets(file, 0), now);
    StaysIntact(r1, events, r.headers, name, file, 0, codec);
    DeliveredIsData(file, now);
    DataChangesNothingElse(r1, events, codec);
    assert file[..|file|] == file;
  }

  /** The timer of an earlier file, firing between the header and the data. */
  function TimerThenData(due: nat, file: Bytes): seq<Event> {
    [TimerFires(due, due)] + Delivered(DataPackets(file, 0), due)
  }

  lemma TimerThenDataIsOwn(due: nat, file: Bytes)
    ensures Own(TimerThenData(due, file)) == DataPackets(file, 0)
    ensures TimerThenData(due, file)[1..] == Delivered(DataPackets(file, 0), due)
  {
    OwnOfDelivered(DataPackets(file, 0), due);
    assert TimerThenData(due, file)[1..] == Delivered(DataPackets(file, 0), due);
  }

  lemma NothingAfterTheTimer(r: Receiver, due: nat, file: Bytes, codec: Codec)
    requires due in r.timers
    ensures Possible(r, TimerThenData(due, file), codec)
    ensures Run(r, TimerThenData(due, file), codec) == Fire(r, due)
  {
    TimerThenDataIsOwn(due, file);
    var data := Delivered(DataPackets(file, 0), due);
    DeliveredIsData(file, due);
    IgnoredWithoutRecord(Fire(r, due), data, codec);
  }

  /** The timer of an earlier file fires after the header: nothing at all is saved of the new file. */
  lemma BackToBackLosesTheSecond(r: Receiver, due: nat, name: string, file: Bytes, start: nat, codec: Codec)
    requires Faithful(codec) && due in r.timers
    ensures var events := TimerThenData(due, file);
            && Own(events) == DataPackets(file, 0)
            && Possible(AfterHeader(r, name, file, start, codec), events, codec)
            && Handle(BeforeEnd(r, name, file, start, events, codec), [END], due, codec).saved == r.saved
            && !Arrives(r, name, file, start, events, due, codec)
  {
    HeaderOpens(r, name, file, start, codec);
    TimerThenDataIsOwn(due, file);
    NothingAfterTheTimer(AfterHeader(r, name, file, start, codec), due, file, codec);
    assert Disturbs(TimerThenData(due, file)[0], codec);
    FileArrivesExactly(r, name, file, start, TimerThenData(due, file), due, codec);
  }

  /** Two overlapping sends: the end packet of the first saves its bytes under the name of the second. */
  lemma OverlapMislabels(
    r: Receiver, first: string, file: Bytes, second: string, other: Bytes, now: nat, codec: Codec)
    requires Faithful(codec)
    ensures var header := Packet([HEADER] + codec.encode(Meta(second, |other|)), now, false);
            var events := [header] + Delivered(DataPackets(file, 0), now);
            && Own(events) == DataPackets(file, 0)
            && !Arrives(r, first, file, now, events, now, codec)
            && Handle(BeforeEnd(r, first, file, now, events, codec), [END], now, codec).saved
               == r.saved + [Saved(r.headers + 1, second, file)]
  {
    var header := Packet([HEADER] + codec.encode(Meta(second, |other|)), now, false);
    var data := Delivered(DataPackets(file, 0), now);
    var events := [header] + data;
    assert events[1..] == data;
    OwnOfDelivered(DataPackets(file, 0), now);
    var r1 := AfterHeader(r, first, file, now, codec);
    HeaderOpens(r, first, file, now, codec);
    HeaderOpens(r1, second, other, now, codec);
    assert header.bytes[1..] == codec.encode(Meta(second, |other|));
    assert Disturbs(events[0], codec);
    FileArrivesExactly(r, first, file, now, events, now, codec);
    var r2 := Step(r1, header, codec);
    DataFillsAnyRecord(r2, data, file, 0, codec);
    assert file[..|file|] == file;
  }

  /** Data packets alone fill whichever record is in place. */
  lemma {:induction false} DataFillsAnyRecord(
    r: Receiver, data: seq<Event>, file: Bytes, off: nat, codec: Codec)
    requires off <= |file| && r.incoming.Some? && Concat(r.incoming.value.chunks) == file[..off]
    requires Own(data) == DataPackets(file, off) && forall i :: 0 <= i < |data| ==> data[i].Packet? && data[i].own
    ensures var u := Run(r, data, codec);
            && u.saved == r.saved && u.incoming.Some?
            && u.incoming.value.serial == r.incoming.value.serial && u.incoming.value.name == r.incoming.value.name
            && Concat(u.incoming.value.chunks) == file[..|file|]
    decreases |data|
  {
    if data == [] {
      assert off == |file|;
    } else {
      var end := OwnNext(data, file, off);
      var packet := data[0].bytes;
      assert packet[1..] == file[off..end];
      AppendChunk(r.incoming.value.chunks, packet[1..]);
      assert file[..off] + file[off..end] == file[..end];
      DataFillsAnyRecord(Step(r, data[0], codec), data[1..], file, end, codec);
    }
  }

  lemma {:induction false} IgnoredWithoutRecord(r: Receiver, data: seq<Event>, codec: Codec)
    requires r.incoming.None? && OnlyData(data)
    ensures Run(r, data, codec) == r && Possible(r, data, codec)
  {
    if data != [] {
      IgnoredWithoutRecord(r, data[1..], codec);
    }
  }

  /** Data packets are never larger than a chunk and never empty. */
  lemma {:induction false} ChunksAreBounded(file: Bytes, off: nat)
    requires off <= |file|
    ensures forall i :: 0 <= i < |DataPackets(file, off)| ==> 1 < |DataPackets(file, off)[i]| <= CHUNK + 1
    decreases |file| - off
  {
    if off < |file| {
      var end := if off + CHUNK < |file| then off + CHUNK else |file|;
      ChunksAreBounded(file, end);
      var packets := DataPackets(file, off);
      forall i | 0 <= i < |packets| ensures 1 < |packets[i]| <= CHUNK + 1 {
        assert i > 0 ==> packets[i] == DataPackets(file, end)[i - 1];
      }
    }
  }

  /** The receiving side as the panel keeps it. */
  class Inbox {
    var incoming: Option<Transfer>
    var saved: seq<Saved>
    var timers: multiset<nat>
    var headers: nat

    ghost function View(): Receiver
      reads this
    {
      Receiver(incoming, saved, timers, headers)
    }

    constructor ()
      ensures View() == Receiver(None, [], multiset{}, 0)
    {
      incoming, saved, timers, headers := None, [], multiset{}, 0;
    }

    method HandleIncomingFile(packet: Bytes, now: nat, codec: Codec)
      modifies this
      ensures View() == Handle(old(View()), packet, now, codec)
    {
      if packet == [] {
        return;
      }
      if packet[0] == HEADER {
        var meta := codec.decode(packet[1..]);
        if meta.Some? {
          incoming := Some(Transfer(headers, meta.value.name, meta.value.size, 0, [], false));
          headers := headers + 1;
        }
        return;
      }
      if packet[0] == DATA && incoming.Some? {
        var t := incoming.value;
        var chunk := packet[1..];
        incoming := Some(t.(chunks := t.chunks + [chunk], received := t.received + |chunk|));
        return;
      }
      if packet[0] == END && incoming.Some? {
        var t := incoming.value;
        incoming := Some(t.(done := true));
        saved := saved + [Saved(t.serial, t.name, Concat(t.chunks))];
        timers := timers + multiset{now + CLEAR_DELAY};
      }
    }

    /** The callback of a timer: it looks neither at the record's identity nor at its progress. */
    method FireTimer(due: nat)
      requires due in timers
      modifies this
      ensures View() == Fire(old(View()), due)
    {
      incoming := None;
      timers := timers - multiset{due};
    }

    /** A whole transfer, its packets handled with nothing in between, from any state. */
    method ReceiveFile(name: string, file: Bytes, now: nat, codec: Codec)
      requires Faithful(codec)
      modifies this
      ensures saved == old(saved) + [Saved(old(headers), name, file)]
      ensures incoming.Some? && incoming.value.done && incoming.value.received == incoming.value.size == |file|
      ensures timers == old(timers) + multiset{now + CLEAR_DELAY} && headers == old(headers) + 1
    {
      var packets := SendFile(name, file, codec);
      ghost var was := View();
      ghost var data := DataPackets(file, 0);
      assert |packets| == |data| + 2 && packets[1..|data| + 1] == data;
      HandleIncomingFile(packets[0], now, codec);
      ghost var r1 := View();
      ghost var events := Delivered(data, now);
      var i := 1;
      while i < |packets| - 1
        invariant 1 <= i <= |packets| - 1
        invariant Run(View(), events[i - 1..], codec) == Run(r1, events, codec)
      {
        assert packets[i] == packets[1..|data| + 1][i - 1];
        assert events[i - 1..][0] == events[i - 1] && events[i - 1..][1..] == events[i..];
        HandleIncomingFile(packets[i], now, codec);
        i := i + 1;
      }
      DeliveredWhole(was, name, file, now, codec);
      HandleIncomingFile(packets[|packets| - 1], now, codec);
    }
  }
}
