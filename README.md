# Paradox alarm-panel serial bridges, modelled in Dafny

Two small programs listen on the debug serial port of a Paradox Spectra 1738
alarm panel and forward what they hear to an MQTT broker. The panel sends
4-byte packets. Both programs read one byte, then up to three more. A full
packet is published as a hex dump on a debug topic, then decoded, and at most
one event message is published. A shorter read is discarded with a warning.
The programs differ in how they decode and dispatch a packet:

- `paradox2mqtt.py` (the table-driven bridge) keeps bytes 0-1 verbatim as an
  event code. It looks the code up in the configured `message_mapping` list,
  and the first rule with that code wins. It publishes that rule's `topic` and
  `message`.
- `p1738.py` (the static zone bridge) reads the packet as two big-endian
  16-bit words. It takes the type (bit 12), the event (bits 10-11) and the
  zone (bits 4-8) from the first word. It publishes "OPEN" or "CLOSED" on a
  per-zone topic when the packet is a type-0 open/close event of zone 0 to 8.

Both read the hours (bits 11-15) and minutes (bits 4-9) of the second word the
same way. Neither checks their ranges.

The model is one bridge with two strategies, `Strategy = TableDriven(rules) |
StaticZones`, spread over these modules:

- `Wire` (wire.dfy): bytes, the 4-byte `Frame`, big-endian words, and the
  division facts that take shift-and-mask fields apart.
- `Packet` (packet.dfy): both decoders. Each has an encoder, and lemmas show
  decoder and encoder are inverse in both directions. The bits no field reads
  are made explicit: `Padding` for the bitfield layout, and bits 0-3 and 10 of
  the timestamp for the code-bytes layout.
- `HexDump` (hexdump.dfy): Python's `hex()` and the debug text. A parser for
  that text shows the text loses nothing.
- `Dispatcher` (dispatch.dfy): the first-match rule lookup, as a function and as
  the source's scanning loop. It also has the zone-topic and event-state tables,
  the publish guard, and the two strategies.
- `Relay` (relay.dfy): a scripted serial port and the `Bridge` class whose
  `log` records every publish and every discard warning. `RunLoop` is proved
  equal to the pure specification `Run`. Lemmas about `Run` cover the order of
  outputs, discards and what may be published.

A shift-and-mask `(w >> s) & (2^k - 1)` on a non-negative word is written
`(w / 2^s) % 2^k`. Bytes are integers 0..255 and words are integers 0..65535,
so no wrap-around arises.

Two points of the code are worth stating:

- The ASCII diagram at `p1738.py:23` draws the minutes as seven bits, taking
  in bit 10 of the second word. The code at `p1738.py:33` reads six bits
  (4-9), and the model follows the code. Bit 10 is part of the `Padding`.
- Zone 0 passes the guard at `p1738.py:79`. Since `get_topic_for_zone` has no
  entry for it, its state is published to "p1738/unknown".

## Model

| member | source | states |
|---|---|---|
| `Wire.Word` | p1738.py:28 | a big-endian word (`!H`) of two bytes gives back its high byte as its quotient by 256 and its low byte as the remainder |
| `Wire.FrameOfWords` | p1738.py:28 | the frame built from two words unpacks (big-endian, `!HH`) to those same two words |
| `Wire.FrameOfItsWords` | p1738.py:28 | every 4-byte frame is the big-endian packing of its own two words |
| `Packet.Hours` | paradox2mqtt.py:45 | `(w >> 11) & 0b11111` is below 32: hours are not clamped to 23 |
| `Packet.Minutes` | paradox2mqtt.py:46 | `(w >> 4) & 0b111111` is below 64: minutes are not clamped to 59 |
| `Packet.ParseCodeBytes` | paradox2mqtt.py:41-47 | defined for every 4-byte packet; the code is bytes 0-1 verbatim and in order; hours < 32, minutes < 64 |
| `Packet.CodeRoundTrip` | paradox2mqtt.py:43-47 | packing a code, hours and minutes (whatever the unused timestamp bits) and decoding gives them back |
| `Packet.CodeAssembleParse` | paradox2mqtt.py:43-47 | every packet is the packing of its decoded code and timestamp with its own unused timestamp bits, so the code-bytes decoder loses nothing else |
| `Packet.CodeBytesLocality` | paradox2mqtt.py:43-46 | the code depends only on bytes 0-1, hours and minutes only on bytes 2-3 |
| `Packet.LayoutsShareTimestamp` | p1738.py:32-33 | both layouts read the same hours and minutes from any packet |
| `Packet.ParseBitfield` | p1738.py:26-34 | defined for every packet; type < 2, event < 4, zone < 32, hours < 32, minutes < 64; the timestamp is read as in the other layout |
| `Packet.TimeWord` | p1738.py:32-33 | packing hours, minutes and the unused bits 0-3 and 10 gives a word whose hours and minutes fields read them back |
| `Packet.EventWord` | p1738.py:29-31 | packing type, event, zone and the unused bits 0-3, 9 and 13-15 gives a word whose fields read each of them back |
| `Packet.ParseAssemble` | p1738.py:28-34 | decoding the packing of an in-range event gives the event back, whatever the unused bits are |
| `Packet.AssembleParse` | p1738.py:28-34 | every packet is the packing of its decoded event with its own unused bits, so nothing is lost |
| `Packet.RoundTrip` | p1738.py:28-34 | packing type, event, zone, hours and minutes into their bits and decoding returns the same tuple |
| `Packet.SameEventIffSameFields` | p1738.py:29-33 | two packets decode alike exactly when they differ only in bits 0-3, 9, 13-15 of word 0 and bits 0-3, 10 of word 1 |
| `Packet.BitfieldExample` | p1738.py:28-34 | 0x00 0x11 0x08 0x1e decodes to type 0, event 0, zone 1, 01:01 |
| `HexDump.HexDigits` | paradox2mqtt.py:61-62 | `hex()` digits are lowercase hexadecimal, never zero-padded (a leading '0' only for 0), one digit below 16, at most two for a byte |
| `HexDump.Hex` | paradox2mqtt.py:61-62 | a `hex()` token is "0x" followed by at least one lowercase hexadecimal digit and nothing else, so it contains no space |
| `HexDump.HexValueOfDigits` | paradox2mqtt.py:61-62 | reading the printed digits back gives the number |
| `HexDump.HexOfByte` | p1738.py:61 | a byte prints as "0x" and one digit below 16, "0x" and two digits from 16 on |
| `HexDump.Dump` | paradox2mqtt.py:60-62 | the debug text of a packet has 15 to 19 characters and starts with "0x" |
| `HexDump.DumpPieces` | paradox2mqtt.py:60-62 | the debug text is the four `hex()` tokens of the bytes, in order, joined by exactly three single spaces |
| `HexDump.DumpRoundTrip` | p1738.py:60-61 | parsing the debug text gives back the packet |
| `HexDump.DumpInjective` | paradox2mqtt.py:60-62 | different packets give different debug texts |
| `HexDump.HexExamples` | p1738.py:61 | `hex` of 0x00, 0x01, 0x02, 0x08, 0x11, 0x1e, 0xff is "0x0", "0x1", "0x2", "0x8", "0x11", "0x1e", "0xff" |
| `HexDump.DumpAllOnes` | paradox2mqtt.py:60-62 | ff ff ff ff dumps as "0xff 0xff 0xff 0xff" |
| `HexDump.DumpNoPadding` | p1738.py:60-61 | 00 11 08 1e dumps as "0x0 0x11 0x8 0x1e" |
| `HexDump.DumpSingleDigits` | paradox2mqtt.py:60-62 | 01 02 00 00 dumps as "0x1 0x2 0x0 0x0" |
| `Dispatcher.FirstMatch` | paradox2mqtt.py:50-55 | None exactly when no rule's `bytes` equals the code; otherwise the rule at the first index whose `bytes` equals the code |
| `Dispatcher.FirstMatchIs` | paradox2mqtt.py:52-54 | when rule i is the first with that code, the lookup returns rule i |
| `Dispatcher.LaterRuleShadowed` | paradox2mqtt.py:52-54 | a later rule with the key of an earlier one is never returned unless an earlier rule is identical to it |
| `Dispatcher.FindMapping` | paradox2mqtt.py:50-55 | the scanning loop with early return computes the first-match lookup |
| `Dispatcher.RuleDispatch` | paradox2mqtt.py:81-86 | no publish exactly when no rule matches; otherwise the first matching rule's `topic` and `message` verbatim |
| `Dispatcher.MappingPriority` | paradox2mqtt.py:52-54 | of two rules with the same key and the packet's code, the first one's topic and message are published |
| `Dispatcher.ZoneTopic` | p1738.py:38-47 | a zone topic is "p1738/zones/" followed by one character |
| `Dispatcher.TopicForZone` | p1738.py:36-48 | zone n in 1..8 maps to "p1738/zones/n", every other zone to "p1738/unknown" |
| `Dispatcher.TopicForZoneInjective` | p1738.py:38-48 | zones 1..8 get pairwise different topics, none equal to "p1738/unknown" |
| `Dispatcher.StateForEvent` | p1738.py:50-56 | 0 maps to "CLOSED", 1 to "OPEN", and every other event to "unknown", each in both directions |
| `Dispatcher.PublishGuard` | p1738.py:79 | whenever the guard holds, the state lookup yields "OPEN" or "CLOSED" (never "unknown"), and a non-zero zone has its own topic |
| `Dispatcher.ZoneDispatch` | p1738.py:79-82 | a publish happens exactly when type is 0, event is 0 or 1 and zone is 0..8; the payload is "OPEN" exactly for event 1 and "CLOSED" exactly for event 0 |
| `Dispatcher.ZoneBoundary` | p1738.py:79-82 | for type-0 open/close events, zones 1..8 go to their zone topic, zone 0 goes to "p1738/unknown", zones 9..31 are not published; the payload is never "unknown" |
| `Dispatcher.DebugTopic` | paradox2mqtt.py:63 | the dump goes to "paradox2mqtt/debug" for the table-driven bridge and to "p1738/debug" (p1738.py:62) for the zone bridge, a topic distinct from every zone topic and from "p1738/unknown" |
| `Dispatcher.Dispatch` | paradox2mqtt.py:80-86 | the table-driven strategy matches on bytes 0-1; the zone strategy applies the guard to the bitfield decoding |
| `Dispatcher.ZoneDispatchIgnoresPadding` | p1738.py:78-79 | what the zone bridge publishes does not depend on the bits outside the decoded fields |
| `Relay.Take` | paradox2mqtt.py:74-77 | a read of n bytes yields a prefix of what arrived, at most n bytes, fewer only if fewer arrived |
| `Relay.SerialPort.Read` | p1738.py:72-75 | `read(n)` returns the next scripted delivery cut to n bytes, and nothing once the script is used up |
| `Relay.NextPass` | paradox2mqtt.py:74-77 | a pass gathers nothing (first read timed out) or 1 to 4 bytes, and always consumes at least one read |
| `Relay.Framing` | paradox2mqtt.py:72-78 | every group of bytes the loop gathers has 1 to 4 bytes, and there are no more groups than reads |
| `Relay.HandleShape` | paradox2mqtt.py:78-90 | a group of other than 4 bytes gives exactly one discard warning with those bytes and no publish; 4 bytes give the debug dump first, followed by one more publish exactly when dispatch decides one, and that publish is the decided message |
| `Relay.OutputsLength` | p1738.py:76-85 | each group gives at most two outputs |
| `Relay.Run` | p1738.py:70-85 | the reference for the loop: the outputs of all groups a script is framed into; a script of n reads gives at most 2n outputs |
| `Relay.Bridge.Publish` | paradox2mqtt.py:86 | publishing appends the message to the log and changes nothing else |
| `Relay.Bridge.LogMsgBytes` | paradox2mqtt.py:58-64 | `log_msg_bytes` appends the hex dump on the debug topic |
| `Relay.Bridge.HandlePacket` | p1738.py:77-83 | a full packet appends exactly the outputs `Handle` specifies |
| `Relay.Bridge.PublishMapped` | paradox2mqtt.py:80-86 | parse, `find_mapping`, then publish the rule's topic and message if one matched |
| `Relay.Bridge.PublishZone` | p1738.py:78-83 | parse, guard, then publish the zone topic and event state |
| `Relay.Bridge.Process` | paradox2mqtt.py:78-90 | four bytes are handled as a packet, fewer are discarded with a warning |
| `Relay.Bridge.Pass` | paradox2mqtt.py:73-90 | one pass consumes exactly the reads `NextPass` says (one, or two when the first read got a byte) and appends nothing when the first read timed out, otherwise exactly what `Handle` gives for the bytes it gathered |
| `Relay.PassKeepsRun` | paradox2mqtt.py:72-90 | appending one pass's outputs and running on from the rest of the script is running the whole script, which is the invariant of `RunLoop` |
| `Relay.Bridge.RunLoop` | p1738.py:65-85 | running the loop over a script appends exactly `Run` of that script to the log |
| `Relay.RunStep` | paradox2mqtt.py:72-90 | a run is the outputs of its first pass followed by a run over the remaining reads from a fresh start |
| `Relay.IdlePass` | paradox2mqtt.py:74-75 | a first read that times out emits nothing |
| `Relay.PartialPass` | paradox2mqtt.py:77-90 | one byte then fewer than three gives one warning with those bytes and no publish, and nothing carries into the next pass |
| `Relay.FullPass` | p1738.py:72-83 | one byte then three or more handles those four bytes as one packet |
| `Relay.OutputsAppend` | p1738.py:70-85 | the outputs of consecutive groups are concatenated |
| `Relay.OutputsInOrder` | paradox2mqtt.py:72-86 | group k's outputs come after those of every earlier group and before those of every later one |
| `Relay.HandleSound` | p1738.py:77-85 | every output for one group is a well-formed debug dump, an allowed message or a 1-3 byte discard |
| `Relay.OutputsSound` | p1738.py:70-85 | every output for a sequence of groups is sound |
| `Relay.RunSound` | p1738.py:70-85 | for any reads, every publish is a parseable dump on the debug topic or a message the strategy allows; table: some rule's topic and message; zones: "OPEN"/"CLOSED" on zone 1..8 or unknown topic |
| `Relay.DiscardsArePartials` | p1738.py:84-85 | exactly the short groups are discarded, each once, in order |
| `Relay.RunDiscards` | paradox2mqtt.py:87-90 | the warnings of a run carry exactly its short reads |
| `Relay.ZonePacketExample` | p1738.py:77-82 | 00 11 08 1e gives the dump "0x0 0x11 0x8 0x1e" on "p1738/debug", then "CLOSED" on "p1738/zones/1" |
| `Relay.ZoneExample` | p1738.py:70-83 | the same packet read as 1 + 3 bytes produces those two publishes |
| `Relay.RuleExample` | paradox2mqtt.py:78-86 | with rule [0x01, 0x02] to "alarm/fire"/"TRIGGERED", 01 02 00 00 gives its dump, then that message |
| `Relay.NoMatchExample` | paradox2mqtt.py:78-86 | ff ff ff ff with no matching rule publishes only "0xff 0xff 0xff 0xff" on the debug topic |
| `Relay.PartialExample` | p1738.py:84-85 | one byte, then only two of the three more, gives a single warning with those three bytes and no publish |

## Left out

- Start-up: the banner, logging handlers, YAML configuration loading and key extraction. The configuration is the `rules` list of a `TableDriven` strategy.
- Configuration errors: a rule without `bytes` raises `KeyError` at `paradox2mqtt.py:53` on every full packet that reaches it in the scan. A matching rule without `topic` or `message` raises `KeyError` at lines 83-84. The model's `Rule` always has all three fields.
- The MQTT client: connecting, the last will, the "online"/status publishes, `loop_start`, and the qos and retain flags. A publish is an append of `(topic, payload)` to the bridge's log.
- Serial port setup and timing: device, baud rate, 5-second timeout. A read is the next entry of a finite script, cut to the requested size. An entry longer than the request loses its surplus, which is a simplification of a real port. An exhausted script reads as a timeout.
- The text of `logging.info`, `logging.debug` and `logging.warning`. A warning is recorded as `Discarded(bytes)`, and the other log lines are not recorded.
- The endless `while True` loop. `RunLoop` runs until the script is used up.
- Disconnection of the serial device, which would raise an exception in pyserial. Neither program handles it, so the model does not either.
- Delivery by the broker: publishes are recorded in the order the bridge issues them. What the MQTT client does with them afterwards, including queueing and acknowledgement, is not modelled.
- Rule keys: `bytes` of a configured rule is whatever the YAML holds, compared with Python's `==`. The model types it as a sequence of integers. A YAML key that compares equal to such a list behaves like that list; for example `[true, 2.0]` matches like `[1, 2]`. A key that equals no list of integers, such as a string, never matches a code. The model does not represent such a key.
