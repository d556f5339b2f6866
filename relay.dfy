/**
 * The run loop of both bridges: read one byte, then up to three more; a full
 * 4-byte packet is dumped to the debug topic, decoded and dispatched, and a
 * shorter read is discarded with a warning.  Nothing is kept from one pass of
 * the loop to the next.
 *
 * The serial port is a script of read results, and the MQTT client and the
 * warning log are one output log the bridge appends to.  The loop runs until
 * the script is used up.
 */
module Relay {
  import opened Wire
  import opened Wrappers
  import opened Packet
  import opened HexDump
  import opened Dispatcher

  /** What the bridge emits: a publish to the MQTT client, or a warning that bytes were discarded. */
  datatype Output = Published(msg: Message) | Discarded(bytes: seq<byte>)

  /** At most the first `n` bytes of `chunk`: a read of `n` never yields more. */
  function Take(chunk: seq<byte>, n: nat): (r: seq<byte>)
    ensures |r| <= n && r <= chunk
    ensures |r| == n || r == chunk
  {
    if |chunk| <= n then chunk else chunk[..n]
  }

  /** A serial port whose reads return, one after another, the results of a script. */
  class SerialPort {
    /** What each of the next reads delivers before its timeout. */
    var script: seq<seq<byte>>

    constructor (script: seq<seq<byte>>)
      ensures this.script == script
    {
      this.script := script;
    }

    /** `read(n)`: the next scripted result, cut to `n` bytes; nothing once the script is used up. */
    method Read(n: nat) returns (data: seq<byte>)
      modifies this
      ensures old(script) == [] ==> data == [] && script == []
      ensures old(script) != [] ==> data == Take(old(script)[0], n) && script == old(script)[1..]
    {
      if script == [] {
        data := [];
      } else {
        data := Take(script[0], n);
        script := script[1..];
      }
    }
  }

  // ---------------------------------------------------------------------
  // Specification of the loop
  // ---------------------------------------------------------------------

  /** The bytes one pass of the loop collects into `rcv`, and the script left after it. */
  function NextPass(script: seq<seq<byte>>): (r: (seq<byte>, seq<seq<byte>>))
    requires script != []
    ensures |r.1| < |script|
    ensures r.0 == [] || 1 <= |r.0| <= 4
  {
    var first := Take(script[0], 1);
    if |first| != 1 then ([], script[1..])
    else if |script| == 1 then (first, [])
    else (first + Take(script[1], 3), script[2..])
  }

  /** The byte groups of all passes that received a first byte, in the order they were read. */
  function Framing(script: seq<seq<byte>>): (r: seq<seq<byte>>)
    ensures forall i :: 0 <= i < |r| ==> 1 <= |r[i]| <= 4
    ensures |r| <= |script|
    decreases |script|
  {
    if script == [] then []
    else
      var (rcv, rest) := NextPass(script);
      if rcv == [] then Framing(rest) else [rcv] + Framing(rest)
  }

  /** The debug publish of a full packet: its hex dump on the strategy's debug topic. */
  function DebugMessage(st: Strategy, f: Frame): Message
  {
    Message(DebugTopic(st), Dump(f))
  }

  /** The publish a dispatch decision leads to, if any. */
  function Publishes(d: Option<Message>): seq<Output>
  {
    if d.Some? then [Published(d.value)] else []
  }

  /** What the loop emits for one group of received bytes. */
  function Handle(st: Strategy, rcv: seq<byte>): seq<Output>
  {
    if |rcv| == 4 then [Published(DebugMessage(st, rcv))] + Publishes(Dispatch(st, rcv))
    else [Discarded(rcv)]
  }

  /**
   * Anything but four bytes gives exactly one warning carrying them and no
   * publish; four bytes give the debug dump first, then one more publish
   * exactly when dispatch decides one, and that publish is the decided message.
   */
  lemma HandleShape(st: Strategy, rcv: seq<byte>)
    ensures |rcv| != 4 ==> Handle(st, rcv) == [Discarded(rcv)]
    ensures |rcv| == 4 ==> 1 <= |Handle(st, rcv)| <= 2 && Handle(st, rcv)[0] == Published(DebugMessage(st, rcv))
    ensures |rcv| == 4 ==> (|Handle(st, rcv)| == 2 <==> Dispatch(st, rcv).Some?)
    ensures |Handle(st, rcv)| == 2 ==> Handle(st, rcv)[1] == Published(Dispatch(st, rcv).value)
  {
  }

  /** The outputs of each group in turn, joined in order. */
  function ConcatMap(h: seq<byte> -> seq<Output>, groups: seq<seq<byte>>): seq<Output>
  {
    if groups == [] then [] else h(groups[0]) + ConcatMap(h, groups[1..])
  }

  /** The handler of a strategy, as a value. */
  function Handler(st: Strategy): seq<byte> -> seq<Output>
  {
    rcv => Handle(st, rcv)
  }

  /** What the loop emits for a sequence of byte groups. */
  function Outputs(st: Strategy, groups: seq<seq<byte>>): seq<Output>
  {
    ConcatMap(Handler(st), groups)
  }

  /** What the loop emits when it runs over a whole script. */
  function Run(st: Strategy, script: seq<seq<byte>>): (r: seq<Output>)
    ensures |r| <= 2 * |script|
  {
    OutputsLength(st, Framing(script));
    Outputs(st, Framing(script))
  }

  /** Each group gives at most two outputs: a packet's dump and its one dispatched message. */
  lemma {:induction false} OutputsLength(st: Strategy, groups: seq<seq<byte>>)
    ensures |Outputs(st, groups)| <= 2 * |groups|
  {
    if groups != [] {
      OutputsLength(st, groups[1..]);
    }
  }

  // ---------------------------------------------------------------------
  // The bridge
  // ---------------------------------------------------------------------

  /** A running bridge: its strategy and everything it has emitted so far. */
  class Bridge {
    const strategy: Strategy
    var log: seq<Output>

    constructor (strategy: Strategy)
      ensures this.strategy == strategy && log == []
    {
      this.strategy := strategy;
      log := [];
    }

    /** `publish(topic, payload)` on the MQTT client. */
    method Publish(m: Message)
      modifies this
      ensures log == old(log) + [Published(m)]
    {
      log := log + [Published(m)];
    }

    /** `log_msg_bytes`: publishes the hex dump of a packet on the debug topic. */
    method LogMsgBytes(f: Frame)
      modifies this
      ensures log == old(log) + [Published(DebugMessage(strategy, f))]
    {
      Publish(Message(DebugTopic(strategy), Dump(f)));
    }

    /** The loop body for a full packet: dump it, decode it, publish at most one event. */
    method HandlePacket(f: Frame)
      modifies this
      ensures log == old(log) + Handle(strategy, f)
    {
      ghost var dump, decided := [Published(DebugMessage(strategy, f))], Publishes(Dispatch(strategy, f));
      assert Handle(strategy, f) == dump + decided;
      LogMsgBytes(f);
      if strategy.TableDriven? {
        PublishMapped(strategy.rules, f);
      } else {
        PublishZone(f);
      }
    }

    /** The table-driven bridge: decode the code bytes and publish the first matching rule's message. */
    method PublishMapped(rules: seq<Rule>, f: Frame)
      requires strategy == TableDriven(rules)
      modifies this
      ensures log == old(log) + Publishes(Dispatch(strategy, f))
    {
      var e := ParseCodeBytes(f);
      var mapping := FindMapping(rules, e.code);
      if mapping.Some? {
        Publish(Message(mapping.value.topic, mapping.value.message));
      }
    }

    /** The zone bridge: decode the bitfields and publish the zone's state if the guard admits it. */
    method PublishZone(f: Frame)
      requires strategy == StaticZones
      modifies this
      ensures log == old(log) + Publishes(Dispatch(strategy, f))
    {
      var e := ParseBitfield(f);
      if e.typeBit == 0 && (e.event == 0 || e.event == 1) && 0 <= e.zone <= 8 {
        var topic := TopicForZone(e.zone);
        var state := StateForEvent(e.event);
        Publish(Message(topic, state));
      }
    }

    /** What a pass does with the bytes it received: handle a full packet, or warn and discard. */
    method Process(rcv: seq<byte>)
      requires 1 <= |rcv| <= 4
      modifies this
      ensures log == old(log) + Handle(strategy, rcv)
    {
      if |rcv| == 4 {
        HandlePacket(rcv);
      } else {
        log := log + [Discarded(rcv)];
      }
    }

    /**
     * One pass of `run_loop`'s body: read one byte; if it came, read up to
     * three more; handle four bytes as a packet and discard fewer with a
     * warning.
     */
    method Pass(port: SerialPort)
      requires port.script != []
      modifies this, port
      ensures port.script == NextPass(old(port.script)).1
      ensures NextPass(old(port.script)).0 == [] ==> log == old(log)
      ensures NextPass(old(port.script)).0 != [] ==> log == old(log) + Handle(strategy, NextPass(old(port.script)).0)
    {
      ghost var before := port.script;
      var rcv := port.Read(1);
      if |rcv| == 1 {
        var more := port.Read(3);
        assert |before| == 1 ==> rcv + more == rcv;
        assert |before| > 1 ==> before[1..][1..] == before[2..];
        rcv := rcv + more;
        Process(rcv);
      }
    }

    /** `run_loop`, over a finite script of reads instead of forever. */
    method RunLoop(port: SerialPort)
      modifies this, port
      ensures port.script == []
      ensures log == old(log) + Run(strategy, old(port.script))
    {
      while port.script != []
        invariant log + Run(strategy, port.script) == old(log) + Run(strategy, old(port.script))
        decreases |port.script|
      {
        ghost var before, logBefore := port.script, log;
        Pass(port);
        PassKeepsRun(strategy, before, logBefore, log);
      }
      assert Run(strategy, []) == [];
      assert log + [] == log;
    }
  }

  // ---------------------------------------------------------------------
  // Properties of the loop
  // ---------------------------------------------------------------------

  /** One pass of the loop, then the rest of the script from a fresh start. */
  lemma RunStep(st: Strategy, script: seq<seq<byte>>, rcv: seq<byte>, rest: seq<seq<byte>>)
    requires script != [] && NextPass(script) == (rcv, rest)
    ensures rcv == [] ==> Run(st, script) == Run(st, rest)
    ensures rcv != [] ==> Run(st, script) == Handle(st, rcv) + Run(st, rest)
  {
    if rcv != [] {
      assert Framing(script) == [rcv] + Framing(rest);
      assert ([rcv] + Framing(rest))[1..] == Framing(rest);
    }
  }

  /** Appending one pass's outputs and running on from the rest of the script is running the whole script. */
  lemma PassKeepsRun(st: Strategy, script: seq<seq<byte>>, before: seq<Output>, after: seq<Output>)
    requires script != []
    requires NextPass(script).0 == [] ==> after == before
    requires NextPass(script).0 != [] ==> after == before + Handle(st, NextPass(script).0)
    ensures after + Run(st, NextPass(script).1) == before + Run(st, script)
  {
    var (rcv, rest) := NextPass(script);
    RunStep(st, script, rcv, rest);
  }

  /** A pass whose first read times out emits nothing and consumes that read. */
  lemma IdlePass(st: Strategy, rest: seq<seq<byte>>)
    ensures Run(st, [[]] + rest) == Run(st, rest)
  {
    RunStep(st, [[]] + rest, [], rest);
  }

  /**
   * A pass that gets one byte and then fewer than three more emits exactly one
   * warning carrying those bytes and no publish, and the next pass starts on
   * the following read with nothing carried over.
   */
  lemma PartialPass(st: Strategy, c0: seq<byte>, c1: seq<byte>, rest: seq<seq<byte>>)
    requires |c0| >= 1 && |c1| < 3
    ensures Run(st, [c0, c1] + rest) == [Discarded([c0[0]] + c1)] + Run(st, rest)
  {
    var script := [c0, c1] + rest;
    assert script[2..] == rest;
    assert Take(c0, 1) == [c0[0]];
    RunStep(st, script, [c0[0]] + c1, rest);
  }

  /** A pass that gets one byte and then three more handles those four bytes as one packet. */
  lemma FullPass(st: Strategy, c0: seq<byte>, c1: seq<byte>, rest: seq<seq<byte>>)
    requires |c0| >= 1 && |c1| >= 3
    ensures Run(st, [c0, c1] + rest) == Handle(st, [c0[0]] + c1[..3]) + Run(st, rest)
  {
    var script := [c0, c1] + rest;
    assert script[2..] == rest;
    assert Take(c0, 1) == [c0[0]];
    assert Take(c1, 3) == c1[..3];
    RunStep(st, script, [c0[0]] + c1[..3], rest);
  }

  /** Handling two sequences of groups one after the other is handling the joined sequence. */
  lemma {:induction false} ConcatMapAppend(h: seq<byte> -> seq<Output>, a: seq<seq<byte>>, b: seq<seq<byte>>)
    ensures ConcatMap(h, a + b) == ConcatMap(h, a) + ConcatMap(h, b)
  {
    if a == [] {
      assert a + b == b;
    } else {
      assert (a + b)[0] == a[0] && (a + b)[1..] == a[1..] + b;
      ConcatMapAppend(h, a[1..], b);
    }
  }

  /** The outputs of two runs of groups, one after the other, are those of the joined groups. */
  lemma OutputsAppend(st: Strategy, a: seq<seq<byte>>, b: seq<seq<byte>>)
    ensures Outputs(st, a + b) == Outputs(st, a) + Outputs(st, b)
  {
    ConcatMapAppend(Handler(st), a, b);
  }

  /**
   * Groups are handled one at a time in the order they were received: the
   * outputs of group `k` (for a full packet, its debug dump first and then at
   * most the one dispatched message) come after those of every earlier group
   * and before those of every later one.
   */
  lemma OutputsInOrder(st: Strategy, groups: seq<seq<byte>>, k: int)
    requires 0 <= k < |groups|
    ensures Outputs(st, groups) == Outputs(st, groups[..k]) + Handle(st, groups[k]) + Outputs(st, groups[k + 1..])
  {
    var tail := groups[k..];
    assert groups == groups[..k] + tail;
    OutputsAppend(st, groups[..k], tail);
    assert tail[0] == groups[k] && tail[1..] == groups[k + 1..];
  }

  /** An output the bridge may legitimately emit under strategy `st`. */
  predicate Sound(st: Strategy, o: Output)
  {
    match o
    case Discarded(b) => 1 <= |b| <= 3
    case Published(m) =>
      (m.topic == DebugTopic(st) && ParseDump(m.payload).Some?) ||
      match st
      case TableDriven(rules) => exists i :: 0 <= i < |rules| && m == Message(rules[i].topic, rules[i].message)
      case StaticZones => IsZoneMessage(m)
  }

  /** Everything emitted for one group is sound. */
  lemma HandleSound(st: Strategy, rcv: seq<byte>)
    requires 1 <= |rcv| <= 4
    ensures forall o :: o in Handle(st, rcv) ==> Sound(st, o)
  {
    if |rcv| == 4 {
      DumpRoundTrip(rcv);
      var d := Dispatch(st, rcv);
      if d.Some? && st.StaticZones? {
        ZoneBoundary(ParseBitfield(rcv));
      }
    }
  }

  /** Everything emitted for a sequence of groups is sound. */
  lemma {:induction false} OutputsSound(st: Strategy, groups: seq<seq<byte>>)
    requires forall i :: 0 <= i < |groups| ==> 1 <= |groups[i]| <= 4
    ensures forall o :: o in Outputs(st, groups) ==> Sound(st, o)
  {
    if groups != [] {
      HandleSound(st, groups[0]);
      OutputsSound(st, groups[1..]);
    }
  }

  /**
   * Whatever the reads deliver, every publish is either a well-formed hex dump
   * on the debug topic or a message the strategy allows: for the table-driven
   * bridge a configured rule's topic and message, for the zone bridge "OPEN"
   * or "CLOSED" on a zone 1-8 topic or the unknown topic, never "unknown" and
   * never a zone 9-31 topic.  Every warning carries one to three bytes.
   */
  lemma RunSound(st: Strategy, script: seq<seq<byte>>)
    ensures forall o :: o in Run(st, script) ==> Sound(st, o)
  {
    OutputsSound(st, Framing(script));
  }

  /** The bytes carried by the warnings, in order. */
  function Discards(outs: seq<Output>): seq<seq<byte>>
  {
    if outs == [] then []
    else (if outs[0].Discarded? then [outs[0].bytes] else []) + Discards(outs[1..])
  }

  lemma {:induction false} DiscardsAppend(a: seq<Output>, b: seq<Output>)
    ensures Discards(a + b) == Discards(a) + Discards(b)
  {
    if a == [] {
      assert a + b == b;
    } else {
      assert (a + b)[0] == a[0] && (a + b)[1..] == a[1..] + b;
      DiscardsAppend(a[1..], b);
    }
  }

  /** The groups that are not a full packet, in order. */
  function Partials(groups: seq<seq<byte>>): (r: seq<seq<byte>>)
  {
    if groups == [] then []
    else (if |groups[0]| != 4 then [groups[0]] else []) + Partials(groups[1..])
  }

  /** Exactly the partial groups are discarded, each once and in order; no full packet is. */
  lemma {:induction false} DiscardsArePartials(st: Strategy, groups: seq<seq<byte>>)
    ensures Discards(Outputs(st, groups)) == Partials(groups)
  {
    if groups != [] {
      var h := Handle(st, groups[0]);
      DiscardsAppend(h, Outputs(st, groups[1..]));
      DiscardsArePartials(st, groups[1..]);
      if |groups[0]| == 4 {
        assert Discards(h) == [] by {
          assert h[0].Published?;
          if |h| == 2 {
            assert h[1].Published?;
            assert h[1..][1..] == [];
          }
          assert h[1..] == [] || h[1..] == [h[1]];
        }
      } else {
        assert h[1..] == [];
      }
    }
  }

  /** A run discards exactly the partial reads of its passes. */
  lemma RunDiscards(st: Strategy, script: seq<seq<byte>>)
    ensures Discards(Run(st, script)) == Partials(Framing(script))
  {
    DiscardsArePartials(st, Framing(script));
  }

  // ---------------------------------------------------------------------
  // End-to-end examples
  // ---------------------------------------------------------------------

  /** 0x00 0x11 0x08 0x1e is a type-0 event 0 of zone 1 at 01:01: its dump, then CLOSED on zone 1. */
  lemma ZonePacketExample()
    ensures Handle(StaticZones, [0x00, 0x11, 0x08, 0x1e])
         == [Published(Message("p1738/debug", "0x0 0x11 0x8 0x1e")), Published(Message("p1738/zones/1", "CLOSED"))]
  {
    var f: Frame := [0x00, 0x11, 0x08, 0x1e];
    assert Dispatch(StaticZones, f) == Some(Message("p1738/zones/1", "CLOSED")) by {
      BitfieldExample();
    }
    assert DebugMessage(StaticZones, f) == Message("p1738/debug", "0x0 0x11 0x8 0x1e") by {
      DumpNoPadding();
    }
  }

  /** The same packet read as one byte and then three. */
  lemma ZoneExample()
    ensures Run(StaticZones, [[0x00], [0x11, 0x08, 0x1e]])
         == [Published(Message("p1738/debug", "0x0 0x11 0x8 0x1e")), Published(Message("p1738/zones/1", "CLOSED"))]
  {
    FullPass(StaticZones, [0x00], [0x11, 0x08, 0x1e], []);
    assert [[0x00], [0x11, 0x08, 0x1e]] + [] == [[0x00], [0x11, 0x08, 0x1e]];
    assert [0x00] + [0x11, 0x08, 0x1e][..3] == [0x00, 0x11, 0x08, 0x1e];
    ZonePacketExample();
    assert Run(StaticZones, []) == [];
  }

  /** A packet whose code matches a rule publishes the debug dump and then the rule's message. */
  lemma RuleExample()
    ensures Run(TableDriven([Rule([0x01, 0x02], "alarm/fire", "TRIGGERED")]), [[0x01], [0x02, 0x00, 0x00]])
         == [Published(Message("paradox2mqtt/debug", "0x1 0x2 0x0 0x0")), Published(Message("alarm/fire", "TRIGGERED"))]
  {
    var rules := [Rule([0x01, 0x02], "alarm/fire", "TRIGGERED")];
    var st := TableDriven(rules);
    var f: Frame := [0x01, 0x02, 0x00, 0x00];
    assert Dispatch(st, f) == Some(Message("alarm/fire", "TRIGGERED")) by {
      assert f[..2] == [0x01, 0x02];
      FirstMatchIs(rules, f[..2], 0);
    }
    assert DebugMessage(st, f) == Message("paradox2mqtt/debug", "0x1 0x2 0x0 0x0") by {
      DumpSingleDigits();
    }
    FullPass(st, [0x01], [0x02, 0x00, 0x00], []);
    assert [[0x01], [0x02, 0x00, 0x00]] + [] == [[0x01], [0x02, 0x00, 0x00]];
    assert [0x01] + [0x02, 0x00, 0x00][..3] == f;
    assert Run(st, []) == [];
  }

  /** A packet no rule matches still has its hex dump published, and nothing else. */
  lemma NoMatchExample(rules: seq<Rule>)
    requires forall i :: 0 <= i < |rules| ==> rules[i].bytes != [0xff, 0xff]
    ensures Run(TableDriven(rules), [[0xff], [0xff, 0xff, 0xff]]) == [Published(Message("paradox2mqtt/debug", "0xff 0xff 0xff 0xff"))]
  {
    var st := TableDriven(rules);
    var f: Frame := [0xff, 0xff, 0xff, 0xff];
    assert Dispatch(st, f) == None by {
      assert f[..2] == [0xff, 0xff];
    }
    assert DebugMessage(st, f) == Message("paradox2mqtt/debug", "0xff 0xff 0xff 0xff") by {
      DumpAllOnes();
    }
    FullPass(st, [0xff], [0xff, 0xff, 0xff], []);
    assert [[0xff], [0xff, 0xff, 0xff]] + [] == [[0xff], [0xff, 0xff, 0xff]];
    assert [0xff] + [0xff, 0xff, 0xff][..3] == f;
    assert Run(st, []) == [];
  }

  /** One byte followed by only two more is discarded with one warning and publishes nothing. */
  lemma PartialExample(st: Strategy)
    ensures Run(st, [[0x01], [0x02, 0x03]]) == [Discarded([0x01, 0x02, 0x03])]
  {
    PartialPass(st, [0x01], [0x02, 0x03], []);
    assert [[0x01], [0x02, 0x03]] + [] == [[0x01], [0x02, 0x03]];
    assert [0x01] + [0x02, 0x03] == [0x01, 0x02, 0x03];
    assert Run(st, []) == [];
  }
}
