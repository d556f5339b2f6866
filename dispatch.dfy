/**
 * Turning a decoded packet into at most one MQTT publish.
 *
 * The table-driven bridge looks the packet's two code bytes up in the
 * configured `message_mapping` list, first match wins.  The static zone bridge
 * publishes a zone's state when the packet is a type-0 open/close event for
 * zones 0 to 8.  Which of the two a bridge runs is its `Strategy`.
 */
module Dispatcher {
  import opened Wrappers
  import opened Wire
  import opened Packet

  /** A topic and payload handed to the MQTT client. */
  datatype Message = Message(topic: string, payload: string)

  // ---------------------------------------------------------------------
  // Table-driven strategy
  // ---------------------------------------------------------------------

  /** One entry of the `message_mapping` configuration list. */
  datatype Rule = Rule(bytes: seq<int>, topic: string, message: string)

  /** `rules[i]` is the first rule whose key is `code`. */
  predicate IsFirstMatch(rules: seq<Rule>, code: seq<int>, i: int)
  {
    0 <= i < |rules| && rules[i].bytes == code && forall j :: 0 <= j < i ==> rules[j].bytes != code
  }

  /** The rule the lookup finds for `code`: the first one in list order with that key. */
  function FirstMatch(rules: seq<Rule>, code: seq<int>): (r: Option<Rule>)
    ensures r.None? <==> forall i :: 0 <= i < |rules| ==> rules[i].bytes != code
    ensures r.Some? ==> exists i :: IsFirstMatch(rules, code, i) && rules[i] == r.value
  {
    if rules == [] then None
    else if rules[0].bytes == code then Some(rules[0])
    else
      var r := FirstMatch(rules[1..], code);
      assert r.Some? ==> exists i :: IsFirstMatch(rules[1..], code, i) && rules[1..][i] == r.value;
      assert forall i :: IsFirstMatch(rules[1..], code, i) ==> IsFirstMatch(rules, code, i + 1);
      r
  }

  /** When `rules[i]` is the first rule with key `code`, the lookup returns exactly it. */
  lemma FirstMatchIs(rules: seq<Rule>, code: seq<int>, i: int)
    requires IsFirstMatch(rules, code, i)
    ensures FirstMatch(rules, code) == Some(rules[i])
  {
    var r := FirstMatch(rules, code);
    var k :| IsFirstMatch(rules, code, k) && rules[k] == r.value;
    assert k == i;
  }

  /** Of two rules with the same key, the later one is never returned unless it equals an earlier one. */
  lemma LaterRuleShadowed(rules: seq<Rule>, i: int, j: int)
    requires 0 <= i < j < |rules| && rules[i].bytes == rules[j].bytes
    ensures FirstMatch(rules, rules[j].bytes).Some?
    ensures FirstMatch(rules, rules[j].bytes) == Some(rules[j]) ==> exists k :: 0 <= k < j && rules[k] == rules[j]
  {
    var code := rules[j].bytes;
    var r := FirstMatch(rules, code);
    var k :| IsFirstMatch(rules, code, k) && rules[k] == r.value;
    assert k <= i;
  }

  /** The source's `find_mapping`: a linear scan that returns at the first rule whose key is `code`. */
  method FindMapping(rules: seq<Rule>, code: seq<int>) returns (r: Option<Rule>)
    ensures r == FirstMatch(rules, code)
  {
    for i := 0 to |rules|
      invariant forall j :: 0 <= j < i ==> rules[j].bytes != code
    {
      if rules[i].bytes == code {
        FirstMatchIs(rules, code, i);
        return Some(rules[i]);
      }
    }
    return None;
  }

  /** What the table-driven bridge publishes for a decoded code: the matching rule's topic and message. */
  function RuleDispatch(rules: seq<Rule>, code: seq<int>): (r: Option<Message>)
    ensures r.None? <==> forall i :: 0 <= i < |rules| ==> rules[i].bytes != code
    ensures r.Some? ==> exists i :: IsFirstMatch(rules, code, i) && r.value == Message(rules[i].topic, rules[i].message)
  {
    var m := FirstMatch(rules, code);
    if m.Some? then Some(Message(m.value.topic, m.value.message)) else None
  }

  // ---------------------------------------------------------------------
  // Static zone strategy
  // ---------------------------------------------------------------------

  const UnknownTopic := "p1738/unknown"

  /** The topics of zones 1 to 8, as listed in `get_topic_for_zone`. */
  const ZoneTopics: map<int, string> := map[
    1 := "p1738/zones/1", 2 := "p1738/zones/2", 3 := "p1738/zones/3", 4 := "p1738/zones/4",
    5 := "p1738/zones/5", 6 := "p1738/zones/6", 7 := "p1738/zones/7", 8 := "p1738/zones/8"]

  /** The topic "p1738/zones/<n>" for a one-digit zone number, built independently of the table. */
  function ZoneTopic(n: int): (t: string)
    requires 1 <= n <= 8
    ensures |t| == 13 && t[..12] == "p1738/zones/"
  {
    "p1738/zones/" + [('0' as int + n) as char]
  }

  /** `get_topic_for_zone`: the table lookup with "p1738/unknown" as default. */
  function TopicForZone(zone: int): (t: string)
    ensures 1 <= zone <= 8 ==> t == ZoneTopic(zone)
    ensures !(1 <= zone <= 8) ==> t == UnknownTopic
  {
    if zone in ZoneTopics then ZoneTopics[zone] else UnknownTopic
  }

  /** Zones 1 to 8 get pairwise different topics, none of them the unknown topic. */
  lemma TopicForZoneInjective(a: int, b: int)
    requires 1 <= a <= 8
    ensures TopicForZone(a) != UnknownTopic
    ensures TopicForZone(a) == TopicForZone(b) ==> a == b
  {
    if TopicForZone(a) == TopicForZone(b) {
      assert TopicForZone(a)[12] == TopicForZone(b)[12];
    }
  }

  const Closed := "CLOSED"
  const Open := "OPEN"

  /** The states of events 0 and 1, as listed in `get_state_for_event`. */
  const EventStates: map<int, string> := map[0 := Closed, 1 := Open]

  /** `get_state_for_event`: the table lookup with "unknown" as default. */
  function StateForEvent(event: int): (s: string)
    ensures s == Closed <==> event == 0
    ensures s == Open <==> event == 1
    ensures s == "unknown" <==> event != 0 && event != 1
  {
    if event in EventStates then EventStates[event] else "unknown"
  }

  /** The condition under which the zone bridge publishes: a type-0 open/close event for zone 0 to 8. */
  predicate PublishGuard(e: BitfieldEvent)
    ensures PublishGuard(e) ==> StateForEvent(e.event) == Open || StateForEvent(e.event) == Closed
    ensures PublishGuard(e) && e.zone != 0 ==> TopicForZone(e.zone) != UnknownTopic
  {
    e.typeBit == 0 && (e.event == 0 || e.event == 1) && 0 <= e.zone <= 8
  }

  /** What the zone bridge publishes for a decoded event. */
  function ZoneDispatch(e: BitfieldEvent): (r: Option<Message>)
    ensures r.Some? <==> PublishGuard(e)
    ensures r.Some? ==> (r.value.payload == Open <==> e.event == 1)
    ensures r.Some? ==> (r.value.payload == Closed <==> e.event == 0)
    ensures r.Some? ==> r.value.topic == TopicForZone(e.zone)
  {
    if PublishGuard(e) then Some(Message(TopicForZone(e.zone), StateForEvent(e.event))) else None
  }

  /** A message the zone bridge may publish: an open/close state for a listed zone or the unknown topic. */
  predicate IsZoneMessage(m: Message)
  {
    (m.payload == Open || m.payload == Closed) &&
    (m.topic == UnknownTopic || exists n :: 1 <= n <= 8 && m.topic == ZoneTopic(n))
  }

  /**
   * The guard's zone boundary: a type-0 open/close event of zone 1 to 8 is
   * published to that zone's topic, zone 0 to the unknown topic, and zones
   * 9 to 31 not at all.  The payload is never "unknown".
   */
  lemma ZoneBoundary(e: BitfieldEvent)
    requires InRange(e) && e.typeBit == 0 && e.event < 2
    ensures 1 <= e.zone <= 8 ==> ZoneDispatch(e) == Some(Message(ZoneTopic(e.zone), StateForEvent(e.event)))
    ensures e.zone == 0 ==> ZoneDispatch(e) == Some(Message(UnknownTopic, StateForEvent(e.event)))
    ensures e.zone >= 9 ==> ZoneDispatch(e) == None
    ensures ZoneDispatch(e).Some? ==> IsZoneMessage(ZoneDispatch(e).value)
  {
    if 1 <= e.zone <= 8 {
      assert ZoneDispatch(e).value.topic == ZoneTopic(e.zone);
    }
  }

  // ---------------------------------------------------------------------
  // The two strategies
  // ---------------------------------------------------------------------

  /** Which bridge runs: the table-driven one with its rule list, or the static zone one. */
  datatype Strategy = TableDriven(rules: seq<Rule>) | StaticZones

  /** The topic every full packet's hex dump is published to. */
  function DebugTopic(st: Strategy): (t: string)
    ensures st.TableDriven? ==> t == "paradox2mqtt/debug"
    ensures st.StaticZones? ==> t == "p1738/debug"
    ensures t != UnknownTopic && forall n :: 1 <= n <= 8 ==> t != ZoneTopic(n)
  {
    match st
    case TableDriven(_) => "paradox2mqtt/debug"
    case StaticZones => "p1738/debug"
  }

  /** Decodes a packet with the strategy's layout and decides what, if anything, to publish. */
  function Dispatch(st: Strategy, f: Frame): (r: Option<Message>)
    ensures st.TableDriven? ==> r == RuleDispatch(st.rules, f[..2])
    ensures st.StaticZones? ==> r == ZoneDispatch(ParseBitfield(f))
  {
    match st
    case TableDriven(rules) => RuleDispatch(rules, ParseCodeBytes(f).code)
    case StaticZones => ZoneDispatch(ParseBitfield(f))
  }

  /** What the zone bridge publishes does not depend on the bits outside the decoded fields. */
  lemma ZoneDispatchIgnoresPadding(f: Frame, p: Padding)
    requires p.Valid()
    ensures Dispatch(StaticZones, Assemble(ParseBitfield(f), p)) == Dispatch(StaticZones, f)
  {
    ParseAssemble(ParseBitfield(f), p);
  }

  /** Of two rules with the same key but different contents, a packet with that code publishes the first. */
  lemma MappingPriority(rules: seq<Rule>, f: Frame)
    requires |rules| == 2 && rules[0].bytes == rules[1].bytes == f[..2]
    ensures Dispatch(TableDriven(rules), f) == Some(Message(rules[0].topic, rules[0].message))
  {
    FirstMatchIs(rules, f[..2], 0);
  }
}
