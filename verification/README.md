# Obsidian audio node, modelled in Dafny

Obsidian is a Kotlin audio node. Chat-bot clients connect to it over a
websocket (the current `ws` protocol and the legacy Magma protocol) and over
REST. They load tracks and play them into voice channels. The node runs a
small voice stack of its own ("bedrock") that:

- negotiates with the voice gateway,
- punches a UDP hole,
- encrypts Opus frames behind an RTP header,
- hands the packets to a paced native queue.

This project models the deterministic core of that node as pure Dafny
functions over immutable datatypes. Each file follows one part of the
program:

| file | part of the node |
|---|---|
| `double.dfy` | `Double.valueOf`: rounding an exact decimal to the nearest IEEE 754 binary64 value, ties to even, or to infinity. |
| `wrappers.dfy` | `Option`/`Result` and the JVM failure kinds. `KotlinInt` covers Kotlin's wrapping `Int`/`Long`/`Byte` arithmetic and its truncating division. |
| `json.dfy` | An abstract JSON tree with typed readers. `LongAsString` is the decimal serializer for snowflake ids. |
| `ring_buffer.dfy` | `ByteRingBuffer` as written, plus a corrected index arithmetic. |
| `frame_loss.dfy` | The second-bucket `FrameLossTracker` and the minute-bucket `FrameLossCounter`. |
| `udp_queue.dfy` | The abstract `UdpQueueManager` store and both `QueueManagerPool`s. |
| `frame_poller.dfy` | Both UDP-queue frame pollers and their 40 ms pacing rule. |
| `opus_provider.dfy` | `IntReference` and the `OpusAudioFrameProvider` silence/speaking state machine. |
| `rtp.dfy` | The RTP fixed header writer (section 5.1 of RFC 3550) and `DiscordUDPConnection`: sequence counter, secret key and packet guards. `Ktor_DiscordUDPConnection` has the same sequence counter and `createPacket`, which the same module covers; its session-description handler differs in how it reads the JSON (see "Left out"). |
| `holepunch.dfy` | The IP-discovery request, response parsing and the retry limit. |
| `encryption.dfy`, `codec.dfy` | Encryption-mode selection and codec lookup. |
| `opcodes.dfy`, `envelope.dfy`, `dispatch.dfy` | The opcode tables, the `op`/`d` envelopes, dispatch events, friendly exceptions and the UUID text form. |
| `handlers.dfy`, `player.dfy` | Operation handlers, the player and link state, player updates and the track-end marker. |
| `session.dfy` | The resumable-session dispatch buffer of both websocket protocols. |
| `admission.dfy` | The authorization pipeline, the configuration checks and the websocket admission ladders with their close codes. |
| `media_connection.dfy` | `MediaConnection`, the `BedrockClient` connection map and the `EventDispatcher` listener set. |
| `stats.dfy` | Stats aggregation with integer averages. |
| `load_result.dfy`, `filters.dfy` | Load-result classification, REST response shaping, and filter-chain assembly order. |
| `strings.dfy` | Voice endpoint port stripping and the ANSI colour converter of the log pattern (SGR, section 8.3.117 of ECMA-48). |

The model makes these things explicit parameters:

- **Clocks.** `System.currentTimeMillis()` and `System.nanoTime()` become a `now` argument.
- **Native and foreign code.** The native queue, the crypto box, the Opus encoder and the track decoder become parameters or abstract values.
- **JSON.** Payloads are abstract values read through typed readers.

## Model

| member | source | states |
|---|---|---|
| Codec.EqualsIsSameClassAndPayload | Server/src/main/kotlin/obsidian/bedrock/codec/Codec.kt:52-62 | two codecs are equal exactly when they have the same runtime class and the same payload type |
| Codec.EqualsIsEquivalence | Server/src/main/kotlin/obsidian/bedrock/codec/Codec.kt:52-62 | `equals` is reflexive, symmetric and transitive, and never holds for null |
| Codec.GetAudio | Server/src/main/kotlin/obsidian/bedrock/codec/Codec.kt:79-91 | `getAudio` finds a codec iff some registered codec has the name, and what it finds is registered under that name |
| Codec.Find | Server/src/main/kotlin/obsidian/bedrock/codec/Codec.kt:89-91 | `find` returns the first codec with the name, or null iff none has it |
| Codec.OnlyOpusIsRegistered | Server/src/main/kotlin/obsidian/bedrock/codec/OpusCodec.kt:21-39 | only "opus" resolves, to the Opus codec with payload type 120 and priority 1000 in its audio description |
| EncryptionMode.SupportedModes | Server/src/main/kotlin/obsidian/bedrock/crypto/DefaultEncryptionModes.kt:22-27 | exactly the four mode names are supported, each with a distinct implementation |
| EncryptionMode.Get | Server/src/main/kotlin/obsidian/bedrock/crypto/EncryptionMode.kt:38-39 | a lookup gives an implementation iff the name is supported, and the one registered for it |
| EncryptionMode.Select | Server/src/main/kotlin/obsidian/bedrock/crypto/EncryptionMode.kt:27-36 | `select` succeeds iff some offered mode is supported, returns the first such one, and otherwise throws UnsupportedEncryptionModeException |
| EncryptionMode.SelectedIsOfferedAndSupported | Server/src/main/kotlin/obsidian/bedrock/crypto/EncryptionMode.kt:27-33 | the selected mode was offered and `get` yields an implementation for it |
| EncryptionMode.SelectPrefersEarlier | Server/src/main/kotlin/obsidian/bedrock/crypto/EncryptionMode.kt:28-32 | the first supported mode wins whatever follows it |
| Throwables.RootCause | Server/src/main/kotlin/obsidian/server/player/PlayerEvents.kt:89-97 | the `rootCause` walk ends at the last link of the cause chain, which has no cause, and a throwable without a cause is its own root |
| WsDispatch.EventType | Server/src/main/kotlin/obsidian/server/io/ws/Dispatch.kt:125-201 | each player event's `type` names exactly its own class |
| WsDispatch.OpOf | Server/src/main/kotlin/obsidian/server/io/ws/Dispatch.kt:41-80 | stats go out as STATS, player updates as PLAYER_UPDATE and every event as PLAYER_EVENT, and only those |
| WsDispatch.Serialize | Server/src/main/kotlin/obsidian/server/io/ws/Dispatch.kt:39-85 | a dispatch is written as element 0 (op) then element 1 (the payload) |
| WsDispatch.OpReadsBack | Server/src/main/kotlin/obsidian/server/io/ws/Dispatch.kt:33-37 | the op written for any dispatch reads back through the op reader as that dispatch's op |
| WsDispatch.FromFriendlyException | Server/src/main/kotlin/obsidian/server/io/ws/Dispatch.kt:216-220 | the exception info keeps the message and severity and carries the direct cause's message, null without a cause |
| LegacyDispatch.EventType | Server/src/main/kotlin/obsidian/server/io/Dispatch.kt:119-170 | each legacy event's `type` names exactly its own class |
| LegacyDispatch.OpOf | Server/src/main/kotlin/obsidian/server/io/Dispatch.kt:46-76 | player updates go out as PlayerUpdate and every event as PlayerEvent |
| LegacyDispatch.Serialize | Server/src/main/kotlin/obsidian/server/io/Dispatch.kt:44-80 | a legacy dispatch is written as element 0 (op) then element 1 (the payload) |
| LegacyDispatch.OpReadsBack | Server/src/main/kotlin/obsidian/server/io/Dispatch.kt:38-42 | the op written for any legacy dispatch reads back through the legacy op reader as that dispatch's op |
| PlayerEvents.OnTrackException | Server/src/main/kotlin/obsidian/server/player/PlayerEvents.kt:70-84 | the exception event carries the guild, track, message and severity, and the message of the ROOT cause, which is the exception's own message when it has no cause |
| PlayerEvents.RootCauseVersusDirectCause | Server/src/main/kotlin/obsidian/server/player/PlayerEvents.kt:75-79 | with a one-step cause chain the legacy root-cause report and the current protocol's direct-cause report agree |
| PlayerEvents.OnTrackStart | Server/src/main/kotlin/obsidian/server/player/PlayerEvents.kt:45-54 | a track start becomes a TRACK_START event for the link's guild |
| PlayerEvents.OnTrackEnd | Server/src/main/kotlin/obsidian/server/player/PlayerEvents.kt:33-43 | a track end becomes a TRACK_END event for the link's guild |
| PlayerEvents.OnTrackStuck | Server/src/main/kotlin/obsidian/server/player/PlayerEvents.kt:56-68 | a stuck track becomes a TRACK_STUCK event for the link's guild with the threshold |
| GatewayCommand.OpOf | Server/src/main/kotlin/obsidian/bedrock/gateway/event/Command.kt:49-75 | SelectProtocol goes out as op 1, Heartbeat 3, ClientConnect 12, Identify 0, Speaking 5 |
| GatewayCommand.Serialize | Server/src/main/kotlin/obsidian/bedrock/gateway/event/Command.kt:47-78 | op first, then d; a heartbeat's d is the object `{"nonce": n}` that the class's generated serializer writes |
| GatewayCommand.HeartbeatEchoes | Server/src/main/kotlin/obsidian/bedrock/gateway/event/Command.kt:108-120 | distinct command kinds use distinct ops, and a heartbeat's d reads back as its nonce through the heartbeat-ack decoder |
| Uuid.ToString | Server/src/main/kotlin/obsidian/bedrock/gateway/event/Command.kt:145-147 | a UUID is written as 36 characters with hyphens at 8, 13, 18 and 23 |
| Uuid.FromString | Server/src/main/kotlin/obsidian/bedrock/gateway/event/Command.kt:149-150 | as the Java 16 `UUID.fromString` the build targets: more than 36 characters or other than five hyphen-separated fields is IllegalArgumentException; a field that is not an optionally '+'-signed hexadecimal `Long` is NumberFormatException; otherwise each field is masked to its 32, 16, 16, 16 or 48 bits |
| Uuid.JoinFields | Server/src/main/kotlin/obsidian/bedrock/gateway/event/Command.kt:149-150 | splitting on hyphens loses nothing: the fields joined with hyphens are the text again |
| Uuid.FieldsHaveNoHyphen | Server/src/main/kotlin/obsidian/bedrock/gateway/event/Command.kt:149-150 | no field holds a hyphen, so a minus sign can never reach the number parser |
| Uuid.CanonicalLayoutParses | Server/src/main/kotlin/obsidian/bedrock/gateway/event/Command.kt:149-150 | every 8-4-4-4-12 string of hexadecimal digits, in either case, parses to the values of its digit groups |
| Uuid.ShortFieldsAccepted | Server/src/main/kotlin/obsidian/bedrock/gateway/event/Command.kt:149-150 | "1-2-3-4-5" is accepted, as the UUID with fields 1, 2, 3, 4 and 5 |
| Uuid.LongFieldMasked | Server/src/main/kotlin/obsidian/bedrock/gateway/event/Command.kt:149-150 | a first field of nine digits keeps only its low eight |
| Uuid.ParseHexConcat | Server/src/main/kotlin/obsidian/bedrock/gateway/event/Command.kt:149-150 | reading digits written after others shifts the earlier ones up by sixteen per later digit |
| Uuid.RoundTrip | Server/src/main/kotlin/obsidian/bedrock/gateway/event/Command.kt:141-151 | every UUID read back from its text is itself |
| Envelope.MissingDataIsNull | Server/src/main/kotlin/obsidian/server/io/ws/Operation.kt:39-53 | a message without `d` decodes to null, and fails exactly when one of its `op` values cannot be read |
| Envelope.LatestOpSelectsDecoder | Server/src/main/kotlin/obsidian/server/io/ws/Operation.kt:52-102 | `d` is decoded by the serializer the most recent `op` selects; without one the earlier data is kept or the message is rejected |
| Envelope.RunContinues | Server/src/main/kotlin/obsidian/server/io/ws/Operation.kt:44-104 | the decoding loop carries only `op` and `data`: prefixes that reach the same state decode every continuation alike |
| Envelope.ErrorStops | Server/src/main/kotlin/obsidian/server/io/ws/Operation.kt:87-93 | once the loop has raised, nothing after it is read |
| Envelope.DataBeforeOp | Server/src/main/kotlin/obsidian/bedrock/gateway/event/Event.kt:55-76 | a `d` before any `op` is rejected by the operation decoders and skipped by the gateway-event decoder |
| WsOperation.ReadOp | Server/src/main/kotlin/obsidian/server/io/ws/Op.kt:52-55 | an op is read by `decodeShort`: a bare or quoted numeric literal that fits a short, then the opcode table; whatever the literal reader refuses is refused |
| WsOperation.QuotedOpReadsBack | Server/src/main/kotlin/obsidian/server/io/ws/Op.kt:52-55 | every op reads back from its code, bare or in quotes |
| WsOperation.EnvelopeRoundTrip | Server/src/main/kotlin/obsidian/server/io/ws/Operation.kt:55-102 | `{"op", "d"}` decodes `d` with the op's own payload serializer, and is rejected exactly for the four ops without a client payload |
| WsOperation.DataFirstIsRejected | Server/src/main/kotlin/obsidian/server/io/ws/Operation.kt:87-93 | a `d` before any `op` is an IllegalStateException whatever follows |
| WsOperation.DecodePlayTrack | Server/src/main/kotlin/obsidian/server/io/ws/Operation.kt:114-129 | `track` and `guild_id` are required; `no_replace`, `start_time` and `end_time` default to false, 0 and 0; every field present is read leniently, and the object decodes iff every field present reads |
| WsOperation.PlayTrackRoundTrip | Server/src/main/kotlin/obsidian/server/io/ws/Operation.kt:114-129 | a fully written PlayTrack decodes to itself, and one with only the required fields to the defaults |
| WsOperation.QuotedPlayTrackReads | Server/src/main/kotlin/obsidian/server/io/ws/Operation.kt:114-129 | a PlayTrack whose literals are all quoted decodes to the same PlayTrack |
| WsOperation.DecodePause | Server/src/main/kotlin/obsidian/server/io/ws/Operation.kt:149-154 | `guild_id` is required and `state` defaults to true; both are read leniently, and the object decodes iff the fields present read |
| WsOperation.QuotedStatePauses | Server/src/main/kotlin/obsidian/server/io/ws/Operation.kt:149-154 | `{"guild_id": "<id>", "state": "FALSE"}` decodes as a pause of that guild |
| WsOperation.DecodeSetupResuming | Server/src/main/kotlin/obsidian/server/io/ws/Operation.kt:183-184 | `key` is required and `timeout` must be present but may be null; both are read leniently |
| LegacyOperation.ReadOp | Server/src/main/kotlin/obsidian/server/io/Op.kt:62-63 | the legacy op is read by `decodeInt` from a bare or quoted numeric literal, and never yields Configure |
| LegacyOperation.ConfigureBranchUnreachable | Server/src/main/kotlin/obsidian/server/io/Operation.kt:83-84 | the Configure branch is dead: payload decoders that differ only there decode every message alike |
| LegacyOperation.DataFirstIsRejected | Server/src/main/kotlin/obsidian/server/io/Operation.kt:86-88 | a `d` before any `op` is an IllegalStateException whatever follows |
| LegacyOperation.DecodeFilters | Server/src/main/kotlin/obsidian/server/io/Operation.kt:146-162 | `guild_id` is required and every filter defaults to null |
| GatewayEvent.ReadOp | Server/src/main/kotlin/obsidian/bedrock/gateway/event/Op.kt:51-52 | a gateway op is read by `decodeInt` from a bare or quoted numeric literal, then the opcode table |
| GatewayEvent.QuotedOpReadsBack | Server/src/main/kotlin/obsidian/bedrock/gateway/event/Op.kt:51-52 | every gateway op reads back from its code, bare or in quotes |
| GatewayEvent.OtherOpsKeepData | Server/src/main/kotlin/obsidian/bedrock/gateway/event/Event.kt:55-76 | after any prefix, `d` is decoded by the op's serializer for the five payload ops and otherwise ignored, keeping the earlier data |
| GatewayEvent.DataFirstIsSkipped | Server/src/main/kotlin/obsidian/bedrock/gateway/event/Event.kt:72-75 | a `d` before any `op` is ignored |
| GatewayEvent.DecodeHeartbeatAck | Server/src/main/kotlin/obsidian/bedrock/gateway/event/Event.kt:63-64 | the ack's `d` is read by the class's generated serializer: it decodes iff `d` is an object whose `nonce` reads as a Long, and a bare number is refused |
| GatewayEvent.DecodeClientConnect | Server/src/main/kotlin/obsidian/bedrock/gateway/event/Event.kt:121-131 | `user_id` is required and the three SSRCs default to 0; the fields are read leniently |
| Filters.AsList | Server/src/main/kotlin/obsidian/server/player/filter/Filters.kt:48-60 | the list holds exactly the filters that are set, at most one per field |
| Filters.KeepEnabled | Server/src/main/kotlin/obsidian/server/player/filter/Filters.kt:66-68 | the filter keeps exactly the members whose own flag is on |
| Filters.Enabled | Server/src/main/kotlin/obsidian/server/player/filter/Filters.kt:65-68 | a filter is enabled iff it is set and its flag is on |
| Filters.NotNullAppend | Server/src/main/kotlin/obsidian/server/player/filter/Filters.kt:48-60 | dropping the unset fields keeps their order: the filters of earlier fields come first |
| Filters.KeepEnabledAppend | Server/src/main/kotlin/obsidian/server/player/filter/Filters.kt:66-68 | the enabled filter keeps the list's order |
| Filters.EnabledInDeclarationOrder | Server/src/main/kotlin/obsidian/server/player/filter/Filters.kt:48-68 | for every split point, the enabled filters of the earlier fields precede those of the later ones, so `enabled` follows declaration order |
| Filters.NotNullAllSet | Server/src/main/kotlin/obsidian/server/player/filter/Filters.kt:48-60 | with every field set, the list is the fields' values position by position |
| Filters.KeepEnabledAll | Server/src/main/kotlin/obsidian/server/player/filter/Filters.kt:66-68 | with every filter's flag on, nothing is dropped |
| Filters.BuildChain | Server/src/main/kotlin/obsidian/server/player/filter/Filters.kt:79-95 | one stage per enabled filter that builds; entry i of the returned list is the pipeline from the i-th last built filter down to the output, so the list is entry-first and each stage writes to the one built before it |
| Filters.Assemble | Server/src/main/kotlin/obsidian/server/player/filter/Filters.kt:85-94 | the build loop over a given filter list, with the same chain guarantee |
| FilterChain.Enabled | Server/src/main/kotlin/obsidian/server/player/filter/FilterChain.kt:44-45 | the legacy chain lists every filter that is set, whatever its flag |
| FilterChain.From | Server/src/main/kotlin/obsidian/server/player/filter/FilterChain.kt:82-96 | each filter is set in the chain iff it is set in the payload, and the volume goes through the volume wrapper |
| FilterChain.BuildChainAsWritten | Server/src/main/kotlin/obsidian/server/player/filter/FilterChain.kt:62-78 | as written, the list holds at most one stage, and only the filters after the last one that fails to build survive in it |
| FilterChain.BuildChain | Server/src/main/kotlin/obsidian/server/player/filter/FilterChain.kt:62-78 | corrected: a filter that does not build leaves the chain in place, so the one stage left heads the pipeline of every filter that builds |
| FilterChain.DroppedStage | Server/src/main/kotlin/obsidian/server/player/filter/FilterChain.kt:69-72 | a building timescale followed by a non-building tremolo: as written the chain is empty, intended it is the timescale stage |
| FrameLossTracker.Init | Server/src/main/kotlin/obsidian/server/player/FrameLossTracker.kt:31-67 | a fresh tracker has two empty 60-slot rings, zero counts and the sentinel instants |
| FrameLossTracker.Success | Server/src/main/kotlin/obsidian/server/player/FrameLossTracker.kt:72-98 | within a second only the wrapping byte count moves; once a second has passed, the rings gain the finished second's counts (keeping the last 60) and counting restarts at one sent frame; the playback timestamps never change |
| FrameLossTracker.Loss | Server/src/main/kotlin/obsidian/server/player/FrameLossTracker.kt:80-98 | the same for a lost frame |
| FrameLossTracker.SuccessesWithinOneSecond | Server/src/main/kotlin/obsidian/server/player/FrameLossTracker.kt:72-98 | n frames inside one second leave the rings alone and add n to the sent count, modulo 256 |
| FrameLossTracker.Start | Server/src/main/kotlin/obsidian/server/player/FrameLossTracker.kt:100-109 | a start more than the switch time after playback began, or the first start, restarts playback and empties both rings; otherwise only the start instant changes |
| FrameLossTracker.End | Server/src/main/kotlin/obsidian/server/player/FrameLossTracker.kt:111-113 | an end records the instant and nothing else |
| FrameLossTracker.OnEvent | Server/src/main/kotlin/obsidian/server/player/FrameLossTracker.kt:116-119 | track end and pause are an end, track start and resume are a start |
| FrameLossTracker.DataUsable | Server/src/main/kotlin/obsidian/server/player/FrameLossTracker.kt:41-48 | data is unusable after a playback gap, and otherwise usable iff a whole minute of playing lies behind now |
| FrameLossTracker.Payload | Server/src/main/kotlin/obsidian/server/player/FrameLossTracker.kt:53-58 | the payload reports the ring sums exactly, with no 32-bit wrap, and the usability flag |
| FrameLossTracker.FirstStartResetsPayload | Server/src/main/kotlin/obsidian/server/player/FrameLossTracker.kt:53-58 | within a minute of the first start, the payload reports nothing sent, nothing lost and unusable data |
| FrameLossCounter.Init | Server/src/main/kotlin/obsidian/server/player/FrameLossCounter.kt:28-73 | the field initialisers of the counter |
| FrameLossCounter.CheckTime | Server/src/main/kotlin/obsidian/server/player/FrameLossCounter.kt:91-100 | a new minute moves the current counts into the last ones and restarts counting; the playback instants are untouched |
| FrameLossCounter.Success | Server/src/main/kotlin/obsidian/server/player/FrameLossCounter.kt:78-81 | a sent frame adds one to the current minute, or opens a new minute with one sent frame, moving the finished minute's counts to the last-minute fields; nothing else changes |
| FrameLossCounter.Loss | Server/src/main/kotlin/obsidian/server/player/FrameLossCounter.kt:86-89 | the same for a lost frame |
| FrameLossCounter.RecordWithinMinute | Server/src/main/kotlin/obsidian/server/player/FrameLossCounter.kt:78-100 | outcomes of the current minute add their sent and lost counts to the current counts and change nothing else |
| FrameLossCounter.MinuteRollover | Server/src/main/kotlin/obsidian/server/player/FrameLossCounter.kt:91-100 | after a minute's outcomes, the first outcome of a later minute leaves exactly that minute's counts as the last ones |
| FrameLossCounter.OnTrackEnd | Server/src/main/kotlin/obsidian/server/player/FrameLossCounter.kt:102-104 | an end records the instant and nothing else |
| FrameLossCounter.OnTrackStart | Server/src/main/kotlin/obsidian/server/player/FrameLossCounter.kt:106-112 | a start long after the last end, or the first start, restarts playback at the second clock reading and forgets the end |
| FrameLossCounter.DataUsable | Server/src/main/kotlin/obsidian/server/player/FrameLossCounter.kt:57-70 | data is unusable after a playback gap, and otherwise usable iff playback began before the previous whole minute |
| FrameLossCounter.ResetStartClearsGap | Server/src/main/kotlin/obsidian/server/player/FrameLossCounter.kt:57-70 | after a first start, the data becomes usable once the previous whole minute lies after it |
| FrameLossCounter.OnPlayerPause | Server/src/main/kotlin/obsidian/server/player/FrameLossCounter.kt:114-116 | a pause is a track end |
| FrameLossCounter.OnPlayerResume | Server/src/main/kotlin/obsidian/server/player/FrameLossCounter.kt:118-120 | a resume is a track start |
| FramePoller.Start | Server/src/main/kotlin/moe/kyokobot/koe/codec/udpqueue/UdpQueueFramePoller.kt:33-41 | a second start fails with an illegal-state error; otherwise polling begins and the pacing grid is anchored at the clock reading |
| FramePoller.Stop | Server/src/main/kotlin/obsidian/bedrock/codec/framePoller/UdpQueueOpusFramePoller.kt:49-53 | polling ends, the grid is kept, and stopping a stopped poller changes nothing |
| FramePoller.StopThenStart | Server/src/main/kotlin/moe/kyokobot/koe/codec/udpqueue/UdpQueueFramePoller.kt:33-49 | a stopped poller can always be started again |
| FramePoller.Slots | Server/src/main/kotlin/moe/kyokobot/koe/codec/udpqueue/UdpQueueFramePoller.kt:60 | `0 until remaining` iterates `remaining` times when it is positive and never otherwise |
| FramePoller.FillQueue | Server/src/main/kotlin/moe/kyokobot/koe/codec/udpqueue/UdpQueueFramePoller.kt:60-79 | the fill loop queues, in order, exactly the packets the attempts produced, and stops at the first queueing error |
| FramePoller.Fill | Server/src/main/kotlin/moe/kyokobot/koe/codec/udpqueue/UdpQueueFramePoller.kt:56-79 | one pass makes as many attempts as the queue has free slots and queues what they produce |
| FramePoller.KoePopulate | Server/src/main/kotlin/moe/kyokobot/koe/codec/udpqueue/UdpQueueFramePoller.kt:51-79 | a stopped poller does nothing; with no UDP connection handler the cast throws; otherwise the pass fills the queue |
| FramePoller.BedrockPopulate | Server/src/main/kotlin/obsidian/bedrock/codec/framePoller/UdpQueueOpusFramePoller.kt:55-83 | a stopped poller or a missing handler leaves the queue alone; otherwise the pass fills the queue |
| FramePoller.PassQueuesEveryPacket | Server/src/main/kotlin/moe/kyokobot/koe/codec/udpqueue/UdpQueueFramePoller.kt:56-79 | a pass never offers more packets than there are free slots, so every built packet that fits the buffer is accepted and appended, in order, behind those already waiting |
| FramePoller.FrameDelay | Server/src/main/kotlin/moe/kyokobot/koe/codec/udpqueue/UdpQueueFramePoller.kt:81-86 | the delay is positive iff the next 40 ms grid point is still ahead, and the loop then fires exactly on it |
| FramePoller.Loop | Server/src/main/kotlin/moe/kyokobot/koe/codec/udpqueue/UdpQueueFramePoller.kt:89-97 | a poller less than 60 ms behind advances its grid by 40 ms; one further behind re-anchors at the clock |
| FramePoller.LoopKeepsUp | Server/src/main/kotlin/moe/kyokobot/koe/codec/udpqueue/UdpQueueFramePoller.kt:89-94 | after a loop the grid has moved forward and is less than 20 ms behind the clock |
| FramePoller.OnTimeCycleKeepsGrid | Server/src/main/kotlin/moe/kyokobot/koe/codec/udpqueue/UdpQueueFramePoller.kt:81-94 | a pass that finishes within 40 ms moves the grid by exactly 40 ms |
| FramePoller.OnTimeCyclesStayOnGrid | Server/src/main/kotlin/moe/kyokobot/koe/codec/udpqueue/UdpQueueFramePoller.kt:81-97 | after k on-time passes the grid is exactly 40·k ms past its anchor |
| UdpQueueManager.New | Server/src/main/java/com/sedmelluq/discord/lavaplayer/udpqueue/natives/UdpQueueManager.kt:34-44 | a new manager has the given capacity, interval and packet size and no queues |
| UdpQueueManager.RemainingCapacity | Server/src/main/java/com/sedmelluq/discord/lavaplayer/udpqueue/natives/UdpQueueManager.kt:46-60 | a released manager reports 0; otherwise free slots plus waiting packets make up the capacity, and a queue that does not exist reports the full capacity |
| UdpQueueManager.QueuePacket | Server/src/main/java/com/sedmelluq/discord/lavaplayer/udpqueue/natives/UdpQueueManager.kt:69-92 | a released manager refuses; a packet longer than the packet buffer overflows it; otherwise the packet is appended iff the queue is not full, and a refused packet changes nothing |
| UdpQueueManager.SendNext | Server/src/main/java/com/sedmelluq/discord/lavaplayer/udpqueue/natives/UdpQueueManager.kt:69-72 | sending takes the head of one queue, deletes a queue that becomes empty, and leaves the other queues alone |
| UdpQueueManager.FreeResources | Server/src/main/java/com/sedmelluq/discord/lavaplayer/udpqueue/natives/UdpQueueManager.kt:102-108 | once released, every queue reports no room and every packet is refused |
| UdpQueueManager.QueueAllAppend | Server/src/main/java/com/sedmelluq/discord/lavaplayer/udpqueue/natives/UdpQueueManager.kt:78-92 | queueing two runs of packets is queueing the first and continuing from its state; an error ends the run |
| UdpQueueManager.QueueAllAppends | Server/src/main/java/com/sedmelluq/discord/lavaplayer/udpqueue/natives/UdpQueueManager.kt:69-92 | up to the capacity, packets that fit the buffer are all accepted and appended in order, and other keys' queues are untouched |
| UdpQueueManager.SendAllDrains | Server/src/main/java/com/sedmelluq/discord/lavaplayer/udpqueue/natives/UdpQueueManager.kt:69-72 | sending as many times as packets wait returns them in FIFO order and deletes the queue |
| UdpQueueManager.QueueThenSendIsFifo | Server/src/main/java/com/sedmelluq/discord/lavaplayer/udpqueue/natives/UdpQueueManager.kt:69-92 | a fresh queue hands back exactly the packets queued into it, in order |
| QueueManagerPool.Managers | Server/src/main/kotlin/obsidian/bedrock/codec/framePoller/QueueManagerPool.kt:39-53 | every manager holds bufferDuration / frame duration packets, sent one frame duration apart, of at most 4096 bytes |
| QueueManagerPool.NewBedrock | Server/src/main/kotlin/obsidian/bedrock/codec/framePoller/QueueManagerPool.kt:34-54 | a size below 1 is an illegal argument; otherwise `size` managers of bufferDuration / 20 packets, 20 ms apart, and key sequence 0 |
| QueueManagerPool.NewKoe | Server/src/main/kotlin/moe/kyokobot/koe/codec/udpqueue/QueueManagerPool.kt:38-48 | a negative size fails in `List`, size 0 gives an empty pool, a zero frame duration divides by zero; otherwise `size` managers |
| QueueManagerPool.GetWrapperForKey | Server/src/main/kotlin/obsidian/bedrock/codec/framePoller/QueueManagerPool.kt:68-72 | a non-negative key is bound to manager key mod size; a key in (-size, 0) indexes out of bounds, and an empty pool divides by zero |
| QueueManagerPool.GetNextWrapper | Server/src/main/kotlin/obsidian/bedrock/codec/framePoller/QueueManagerPool.kt:65-66 | the wrapper gets the current key and the sequence moves on by one |
| QueueManagerPool.NextWrappersRoundRobin | Server/src/main/kotlin/moe/kyokobot/koe/codec/udpqueue/QueueManagerPool.kt:59-67 | successive wrappers get consecutive keys, spread round-robin over the managers |
| QueueManagerPool.WrapperRemainingCapacity | Server/src/main/kotlin/obsidian/bedrock/codec/framePoller/QueueManagerPool.kt:75-76 | a wrapper's room is its own manager's room for its key |
| QueueManagerPool.WrapperQueuePacket | Server/src/main/kotlin/obsidian/bedrock/codec/framePoller/QueueManagerPool.kt:78-79 | a wrapper queues on its own manager under its key, and no other manager changes |
| QueueManagerPool.Close | Server/src/main/kotlin/obsidian/bedrock/codec/framePoller/QueueManagerPool.kt:56-63 | the first close releases every manager; a closed pool is left as it is |
| QueueManagerPool.CloseIsIdempotent | Server/src/main/kotlin/moe/kyokobot/koe/codec/udpqueue/QueueManagerPool.kt:50-57 | a second close changes nothing |
| QueueManagerPool.ClosedPoolHasNoCapacity | Server/src/main/kotlin/obsidian/bedrock/codec/framePoller/QueueManagerPool.kt:56-63 | after the first close every wrapper reports no free slots |
| IntReference.New | Server/src/main/kotlin/obsidian/bedrock/media/IntReference.kt:24 | a new reference reads 0 |
| IntReference.Set | Server/src/main/kotlin/obsidian/bedrock/media/IntReference.kt:30-32 | a read after a set returns the value set |
| IntReference.Add | Server/src/main/kotlin/obsidian/bedrock/media/IntReference.kt:34-36 | an add moves the value by the amount, modulo 2^32, and exactly when the sum fits an Int |
| IntReference.AddTimesWraps | Server/src/main/kotlin/obsidian/bedrock/media/IntReference.kt:34-36 | n adds of an amount land where one exact add of n times the amount would, wrapped to 32 bits |
| OpusAudioFrameProvider.New | Server/src/main/kotlin/obsidian/bedrock/media/OpusAudioFrameProvider.kt:31-36 | a new provider is silent with no silence frames pending |
| OpusAudioFrameProvider.SetSpeaking | Server/src/main/kotlin/obsidian/bedrock/media/OpusAudioFrameProvider.kt:106-112 | an update is sent only when the state differs from the last one sent: the speaking mask, or 0 for silence |
| OpusAudioFrameProvider.CanSendFrame | Server/src/main/kotlin/obsidian/bedrock/media/OpusAudioFrameProvider.kt:45-64 | only Opus can be sent; pending silence frames can always be sent; a provider that stops providing arms five silence frames and answers yes; otherwise the answer is whether the subclass can provide |
| OpusAudioFrameProvider.Retrieve | Server/src/main/kotlin/obsidian/bedrock/media/OpusAudioFrameProvider.kt:66-104 | a non-Opus codec does nothing; a pending silence frame is written and ends speaking; otherwise the subclass's frame is written, an empty one arms five silence frames, a non-empty one makes the provider speak; the timestamp always advances by 960 |
| OpusAudioFrameProvider.UserConnected | Server/src/main/kotlin/obsidian/bedrock/media/OpusAudioFrameProvider.kt:114-119 | the speaking mask is re-sent iff the provider is speaking |
| OpusAudioFrameProvider.UpdatesAreChanges | Server/src/main/kotlin/obsidian/bedrock/media/OpusAudioFrameProvider.kt:74-112 | a retrieve sends at most one speaking update, and it announces the opposite of the state before and the state after |
| OpusAudioFrameProvider.PendingSilenceIsSent | Server/src/main/kotlin/obsidian/bedrock/media/OpusAudioFrameProvider.kt:71-80 | while silence frames are pending, each retrieve writes one of them, whatever the subclass would supply, and the timestamp moves 960 per frame |
| Holepunch.DiscoveryRequest | Server/src/main/kotlin/obsidian/bedrock/handler/HolepunchHandler.kt:75-82 | the request is 74 bytes: type 1 and length 70 as big-endian shorts, the SSRC as an unsigned big-endian int, then zeros |
| Holepunch.FirstZero | Server/src/main/kotlin/obsidian/bedrock/handler/HolepunchHandler.kt:51 | the first zero byte at or after the start, or none when there is none |
| Holepunch.ReadIp | Server/src/main/kotlin/obsidian/bedrock/handler/HolepunchHandler.kt:49-55 | the IP is one char per byte up to the first zero byte; without a zero byte reading runs off the buffer and throws |
| Holepunch.ParseResponse | Server/src/main/kotlin/obsidian/bedrock/handler/HolepunchHandler.kt:45-56 | a datagram of any length but 74 is ignored; otherwise the IP starts at byte 8 and the port is the unsigned big-endian short at byte 72 |
| Holepunch.ResponseRoundTrip | Server/src/main/kotlin/obsidian/bedrock/handler/HolepunchHandler.kt:45-56 | parsing a well-formed response gives back the IP it carries and the port |
| Holepunch.New | Server/src/main/kotlin/obsidian/bedrock/handler/HolepunchHandler.kt:35 | a new handler has made no attempt and its future is pending |
| Holepunch.Punch | Server/src/main/kotlin/obsidian/bedrock/handler/HolepunchHandler.kt:63-87 | a complete future stops the timer; after eleven sends the future fails with a socket timeout; otherwise one more request is sent |
| Holepunch.Receive | Server/src/main/kotlin/obsidian/bedrock/handler/HolepunchHandler.kt:42-61 | a response completes a pending discovery with the parsed address; a complete future ignores datagrams; a pending discovery fails with the parse error exactly when a 74-byte datagram cannot be parsed, and the handler is then unchanged |
| Holepunch.ElevenAttempts | Server/src/main/kotlin/obsidian/bedrock/handler/HolepunchHandler.kt:68-72 | without an answer a fresh handler sends at most eleven requests, and the twelfth firing fails discovery with a timeout |
| Holepunch.StaysDone | Server/src/main/kotlin/obsidian/bedrock/handler/HolepunchHandler.kt:64-66 | once the future is complete the timer sends nothing |
| RtpHeader.Unsigned16Inverts | Server/src/main/kotlin/obsidian/bedrock/util/RTPHeaderWriter.kt:25 | the two bytes `writeChar` writes read back as the value modulo 2^16 |
| RtpHeader.Unsigned32Inverts | Server/src/main/kotlin/obsidian/bedrock/util/RTPHeaderWriter.kt:26-27 | the four bytes `writeInt` writes read back as the value modulo 2^32 |
| RtpHeader.WriteV2 | Server/src/main/kotlin/obsidian/bedrock/util/RTPHeaderWriter.kt:22-28 | twelve bytes are appended after the untouched output: 0x80, or 0x90 with an extension, then the payload type below 128 |
| RtpHeader.WriteThenParse | Server/src/main/kotlin/obsidian/bedrock/util/RTPHeaderWriter.kt:22-28 | the appended bytes parse, under the field layout of section 5.1 of RFC 3550, as a version-2 header without padding, CSRCs or marker, carrying the payload type's low 7 bits and the low 16 and 32 bits of sequence, timestamp and SSRC |
| DiscordUdpConnection.New | Server/src/main/kotlin/obsidian/bedrock/handler/DiscordUDPConnection.kt:47-51 | a new connection has no key and no mode, and its sequence is the random draw's low 16 bits |
| DiscordUdpConnection.NextSeq | Server/src/main/kotlin/obsidian/bedrock/handler/DiscordUDPConnection.kt:121-129 | the sequence moves on by one modulo 2^16 |
| DiscordUdpConnection.SequencesCount | Server/src/main/kotlin/obsidian/bedrock/handler/DiscordUDPConnection.kt:121-129 | the i-th sequence number handed out is the start plus i + 1 modulo 2^16, so none is skipped or repeated within 65536 packets |
| DiscordUdpConnection.KeyByte | Server/src/main/kotlin/obsidian/bedrock/handler/DiscordUDPConnection.kt:88 | a key element becomes the byte congruent to it modulo 256 |
| DiscordUdpConnection.HandleSessionDescription | Server/src/main/kotlin/obsidian/bedrock/handler/DiscordUDPConnection.kt:74-92 | the mode is replaced first; an unsupported mode fails the null check and keeps the old key; otherwise the key keeps the received length, each element reduced to a byte |
| DiscordUdpConnection.CreatePacket | Server/src/main/kotlin/obsidian/bedrock/handler/DiscordUDPConnection.kt:101-119 | without a key nothing is sent and the sequence stays; otherwise a sequence number is taken, a missing mode throws, a failed box gives null, and a packet starts with the RTP header of that sequence number, timestamp and SSRC |
| DiscordUdpConnection.UnsupportedModeAfterKeyBreaksSending | Server/src/main/kotlin/obsidian/bedrock/handler/DiscordUDPConnection.kt:74-111 | after an unsupported mode follows a supported one, every packet attempt throws instead of being skipped |
| Handlers.PlayTrack | Server/src/main/kotlin/obsidian/server/io/Handlers.kt:46-74 | a play is skipped iff a track plays and no-replace is set; otherwise the decoded track plays, starting at the start time and ending at an end marker exactly when those lie within the track |
| Handlers.DefaultEndTimeInstallsMarker | Server/src/main/kotlin/obsidian/server/io/Handlers.kt:63-71 | an end time of 0 always lies within the track, so it installs an end marker at 0 |
| Handlers.PlayerFor | Server/src/main/kotlin/obsidian/server/io/Handlers.kt:54 | the guild's player, or a fresh one when it has none |
| Handlers.Configure | Server/src/main/kotlin/obsidian/server/io/Handlers.kt:81-96 | with nothing to change no player is created; otherwise exactly the given settings change on the guild's player, and no other player changes |
| Handlers.ConfigureIdempotent | Server/src/main/kotlin/obsidian/server/io/Handlers.kt:81-96 | configuring twice with the same settings is configuring once |
| MagmaClientPlay.PlayTrack | Server/src/main/kotlin/obsidian/server/io/MagmaClient.kt:176-200 | the legacy handler creates the guild's link and then follows exactly the current protocol's play rules with both times given |
| OperationHandlers.GetLong | Server/src/main/kotlin/obsidian/server/io/OperationHandlers.kt:76-81 | a missing key, null, a boolean, an array or an object is an error; a number in the Long range reads as itself and a longer one, stored as its digits, fails; a decimal is first rounded to the nearest `Double`, which is then truncated toward zero and saturated, and a decimal whose `Double` is infinite (kept as text) fails; a string reads iff `parseLong` accepts it |
| OperationHandlers.OptLong | Server/src/main/kotlin/obsidian/server/io/OperationHandlers.kt:56-65 | a missing key, null, a boolean, an array, an object or a string not led by a digit or minus gives the default; a number reads modulo 2^64; a decimal reads as its rounded `Double` truncated, or, when that `Double` is infinite, as its integer part modulo 2^64; a string of digits reads modulo 2^64 and a fixed-point decimal string as its signed integer part |
| OperationHandlers.StringLongValue | Server/src/main/kotlin/obsidian/server/io/OperationHandlers.kt:56-65 | a string led by neither a digit nor a minus gives the default; an integer literal reads as its value modulo 2^64 and a fixed-point decimal as its signed integer part modulo 2^64 |
| OperationHandlers.TruncateToLong | Server/src/main/kotlin/obsidian/server/io/OperationHandlers.kt:56-65 | a decimal truncates toward zero and keeps its sign; at or beyond either end of the Long range it saturates to that end |
| OperationHandlers.TowardZero | Server/src/main/kotlin/obsidian/server/io/OperationHandlers.kt:56-65 | the integer part of a decimal: within one of it, on the side of zero |
| JavaDouble.RoundPositive | Server/src/main/kotlin/obsidian/server/io/OperationHandlers.kt:76-81 | `Double.valueOf` of a positive literal: a finite result is below 2^1024, lies on the significand grid of its binade, is within half a grid step of the literal, and on a tie has an even significand; otherwise infinity |
| JavaDouble.ToDouble | Server/src/main/kotlin/obsidian/server/io/OperationHandlers.kt:76-81 | zero stays zero and a negative literal rounds as the mirror of its magnitude |
| JavaDouble.ExactIntegers | Server/src/main/kotlin/obsidian/server/io/OperationHandlers.kt:76-81 | every integer of magnitude at most 2^53 is its own `Double` |
| JavaDouble.InfiniteIff | Server/src/main/kotlin/obsidian/server/io/OperationHandlers.kt:76-81 | a literal becomes infinite exactly when its magnitude reaches 2^1024 - 2^970 |
| JavaDouble.LargeIntegerRounds | Server/src/main/kotlin/obsidian/server/io/OperationHandlers.kt:76-81 | 123456789012345678 becomes the `Double` 123456789012345680 |
| JavaDouble.NearOneRoundsUp | Server/src/main/kotlin/obsidian/server/io/OperationHandlers.kt:76-81 | 0.99999999999999999 becomes the `Double` 1.0 |
| OperationHandlers.DecimalRoundsFirst | Server/src/main/kotlin/obsidian/server/io/OperationHandlers.kt:56-81 | the stored decimal 123456789012345678.0 reads through both `getLong` and `optLong` as 123456789012345680 |
| OperationHandlers.NearOneDecimalReadsOne | Server/src/main/kotlin/obsidian/server/io/OperationHandlers.kt:56-81 | the stored decimal 0.99999999999999999 reads through both readers as 1, not 0 |
| OperationHandlers.IntegralDecimalExact | Server/src/main/kotlin/obsidian/server/io/OperationHandlers.kt:56-81 | a decimal with an integer value of magnitude at most 2^53 reads through both readers as that integer |
| OperationHandlers.HugeDecimalKeptAsText | Server/src/main/kotlin/obsidian/server/io/OperationHandlers.kt:56-81 | `getLong` fails on a decimal iff its magnitude reaches the overflow threshold, and there `optLong` reads its integer part modulo 2^64 |
| OperationHandlers.OptLongAgreesWithGetLong | Server/src/main/kotlin/obsidian/server/io/OperationHandlers.kt:56-81 | wherever `getLong` reads a value, `optLong` reads the same one, except for a string with a leading plus |
| OperationHandlers.PlusSignDiffers | Server/src/main/kotlin/obsidian/server/io/OperationHandlers.kt:56-81 | "+5" reads as 5 with `getLong` and as the default with `optLong` |
| OperationHandlers.FractionStringTruncates | Server/src/main/kotlin/obsidian/server/io/OperationHandlers.kt:56-65 | a start time written "<n>.<f>" reads as n, for every Long n and every fraction |
| OperationHandlers.BigNumberTextFails | Server/src/main/kotlin/obsidian/server/io/OperationHandlers.kt:76-81 | the digits of a number outside the Long range never parse as a Long |
| OperationHandlers.OptBoolean | Server/src/main/kotlin/obsidian/server/io/OperationHandlers.kt:48 | a missing key reads false, a boolean reads as itself, a string reads true iff it is "true" ignoring ASCII case, and anything else reads false |
| OperationHandlers.OptBooleanIgnoresCase | Server/src/main/kotlin/obsidian/server/io/OperationHandlers.kt:48 | letter case never changes what `optBoolean` reads from a string |
| OperationHandlers.GetString | Server/src/main/kotlin/obsidian/server/io/OperationHandlers.kt:53 | a string reads as itself, and so do the digits of a number outside the Long range; anything else is a JSON exception |
| OperationHandlers.TimeOption | Server/src/main/kotlin/obsidian/server/io/OperationHandlers.kt:56-65 | a time is given iff its key is present |
| OperationHandlers.PlayTrackAsWritten | Server/src/main/kotlin/obsidian/server/io/OperationHandlers.kt:38-74 | as written, an invalid guild id or a missing `track` key is ignored, and a request fails iff it has no string `data` key and is not skipped |
| OperationHandlers.PlayTrack | Server/src/main/kotlin/obsidian/server/io/OperationHandlers.kt:38-74 | corrected: the track is read from the `track` key the guard checks, and the handler then does what the current protocol's play does |
| OperationHandlers.TrackKeyIsIgnored | Server/src/main/kotlin/obsidian/server/io/OperationHandlers.kt:43-53 | a request holding `guild_id` and `track` fails as written and plays the track once `track` is read |
| OperationHandlers.SubmitVoiceUpdateProceeds | Server/src/main/kotlin/obsidian/server/io/OperationHandlers.kt:14-21 | a voice update goes ahead iff the guild id reads and the endpoint is present |
| AudioPlayer.New | Server/src/main/kotlin/obsidian/server/player/Player.kt:66-67 | a fresh player has no track and is not paused, so it is not playing |
| AudioPlayer.Play | Server/src/main/kotlin/obsidian/server/player/Player.kt:81-84 | the given track becomes the playing one and the pause flag is kept, so the player plays exactly when it was not paused |
| AudioPlayer.Stop | Server/src/main/kotlin/obsidian/server/io/Handlers.kt:76-78 | stopping clears the track and keeps the pause flag; a stopped player is not playing |
| AudioPlayer.SeekTo | Server/src/main/kotlin/obsidian/server/player/Player.kt:89-103 | a seek succeeds iff a track is playing, it is seekable and the position lies in 0..duration; otherwise it fails with an illegal argument; on success only the position changes |
| AudioPlayer.SeekLastWins | Server/src/main/kotlin/obsidian/server/player/Link.kt:123-137 | the link's identical seek keeps the playing state, a second seek overrides the first, and seeking to the current position changes nothing |
| PlayerFrames.CanProvide | Server/src/main/kotlin/obsidian/server/player/Player.kt:188-195 | the answer is lavaplayer's, and a frame that could not be provided is one more loss of the current second (or the first of a new one) while the tracker stays well formed |
| PlayerFrames.LinkCanProvide | Server/src/main/kotlin/obsidian/server/player/Link.kt:171-178 | the answer is lavaplayer's, and a failed provide within the current minute raises the loss count by one |
| PlayerFrames.LinkRetrieve | Server/src/main/kotlin/obsidian/server/player/Link.kt:180-183 | each retrieved frame within the current minute raises the success count by one |
| PlayerFrames.PollsCountOutcomes | Server/src/main/kotlin/obsidian/server/player/Link.kt:171-183 | within one minute, polling adds exactly the number of frames sent to the successes and the number of failed provides to the losses |
| PlayerFrames.PollAllIsRecordAll | Server/src/main/kotlin/obsidian/server/player/Link.kt:171-183 | the provider's bookkeeping is the frame-loss counter's record of the same outcomes, across minute boundaries as well |
| TrackEndMarkerHandler.Handle | Server/src/main/kotlin/obsidian/server/player/TrackEndMarkerHandler.kt:6-10 | the track is stopped iff the marker was reached or bypassed; other states leave the player alone |
| TrackEndMarkerHandler.HandleAllStopsOnce | Server/src/main/kotlin/obsidian/server/player/TrackEndMarkerHandler.kt:6-10 | over a run of notifications the player ends stopped iff some notification was a reach or a bypass, and repeated stops do nothing more |
| PlayerUpdates.New | Server/src/main/kotlin/obsidian/server/player/PlayerUpdates.kt:36 | updates start out enabled and not running |
| PlayerUpdates.Start | Server/src/main/kotlin/obsidian/server/player/PlayerUpdates.kt:56-60 | afterwards the interval runs iff it ran already or updates are enabled; a running or disabled updater is unchanged |
| PlayerUpdates.Stop | Server/src/main/kotlin/obsidian/server/player/PlayerUpdates.kt:65-69 | afterwards the interval is not running and the flag is kept; a stopped updater is unchanged |
| PlayerUpdates.SetEnabled | Server/src/main/kotlin/obsidian/server/player/PlayerUpdates.kt:36-43 | after setting the flag, the interval runs iff the new value is true |
| PlayerUpdates.OnTrackStart | Server/src/main/kotlin/obsidian/server/player/PlayerUpdates.kt:93-95 | a track start leaves the interval running iff it ran or updates are enabled |
| PlayerUpdates.OnTrackEnd | Server/src/main/kotlin/obsidian/server/player/PlayerUpdates.kt:97-99 | a track end leaves the interval stopped |
| PlayerUpdates.StartStopIdempotent | Server/src/main/kotlin/obsidian/server/player/PlayerUpdates.kt:56-69 | starting twice is starting once, stopping twice is stopping once, and a track start followed by its end leaves only the interval stopped |
| PlayerUpdates.SendUpdate | Server/src/main/kotlin/obsidian/server/player/PlayerUpdates.kt:71-91 | without a playing track the update fails on the null track; otherwise it carries the guild, the encoded track, its position and pause flag, and the frame sums of the last minute with their usability |
| ResumableSession.New | Server/src/main/kotlin/obsidian/server/io/ws/WebSocketHandler.kt:48-78 | a new handler is inactive, has no resume key, timeouts or buffer, nothing scheduled, and has written nothing |
| ResumableSession.Listen | Server/src/main/kotlin/obsidian/server/io/ws/WebSocketHandler.kt:142-143 | listening makes the session active and changes nothing else |
| ResumableSession.Disconnected | Server/src/main/kotlin/obsidian/server/io/ws/WebSocketHandler.kt:161-162 | when the socket's frames run out the session is inactive and nothing else changes |
| ResumableSession.SetupResuming | Server/src/main/kotlin/obsidian/server/io/ws/WebSocketHandler.kt:124-129 | only the resume key and timeout change, to the values given |
| ResumableSession.SetupDispatchBuffer | Server/src/main/kotlin/obsidian/server/io/ws/WebSocketHandler.kt:131-134 | only the buffer timeout changes, to the value given |
| ResumableSession.Send | Server/src/main/kotlin/obsidian/server/io/ws/WebSocketHandler.kt:212-220 | an active session writes the frame to the socket; an inactive one appends it to the buffer if there is one and drops it otherwise |
| ResumableSession.HandleClose | Server/src/main/kotlin/obsidian/server/io/ws/WebSocketHandler.kt:168-186 | without a resume key the client shuts down; with one, a positive buffer timeout allocates an empty buffer, the shutdown is scheduled resume-timeout milliseconds later, and a missing resume timeout fails on the null check with nothing scheduled |
| ResumableSession.Elapse | Server/src/main/kotlin/obsidian/server/io/ws/WebSocketHandler.kt:174-180 | the scheduled shutdown happens exactly once its deadline has passed, and nothing else of the session changes |
| ResumableSession.Resume | Server/src/main/kotlin/obsidian/server/io/ws/WebSocketHandler.kt:191-205 | the session is active again, the pending shutdown is cancelled, and every buffered frame is written after what was already sent, in order; the buffer is kept |
| ResumableSession.InactiveSendsAreBuffered | Server/src/main/kotlin/obsidian/server/io/ws/WebSocketHandler.kt:212-217 | while inactive with a buffer, dispatches pile up on it in order and nothing reaches the socket |
| ResumableSession.InactiveSendsAreDroppedWithoutBuffer | Server/src/main/kotlin/obsidian/server/io/ws/WebSocketHandler.kt:214-216 | while inactive without a buffer, every dispatch is lost and the session is unchanged |
| ResumableSession.CloseThenResumeDeliversEverything | Server/src/main/kotlin/obsidian/server/io/ws/WebSocketHandler.kt:168-220 | after a close with a resume key, a resume timeout and a positive buffer timeout, every dispatch sent before the resume reaches the socket in order, and the scheduled shutdown is called off |
| ResumableSession.ResumeReplaysAgain | Server/src/main/kotlin/obsidian/server/io/ws/WebSocketHandler.kt:198-202 | since the buffer is never cleared, resuming twice writes the buffered frames twice |
| MagmaClientSession.Shutdown | Server/src/main/kotlin/obsidian/server/io/MagmaClient.kt:335-343 | every link is removed and the Bedrock client is closed; the session is untouched |
| MagmaClientSession.ShutdownIdempotent | Server/src/main/kotlin/obsidian/server/io/MagmaClient.kt:335-343 | a second shutdown changes nothing |
| Enums.FirstWith | Server/src/main/kotlin/obsidian/server/io/ws/Op.kt:54 | the result is absent iff no value has the code; otherwise it has the code and is the first such value in declaration order |
| Enums.FirstWithAt | Server/src/main/kotlin/obsidian/server/io/Op.kt:56-57 | a value that no earlier value shares its code with is the one found for that code |
| WsOp.CodeInjective | Server/src/main/kotlin/obsidian/server/io/ws/Op.kt:28-46 | no two opcodes share a code |
| WsOp.Serialize | Server/src/main/kotlin/obsidian/server/io/ws/Op.kt:57-59 | every code fits in a 16-bit short, and -1 is written exactly for UNKNOWN |
| WsOp.Deserialize | Server/src/main/kotlin/obsidian/server/io/ws/Op.kt:52-55 | a number outside the short range is a decoding error; otherwise the op with that code, or UNKNOWN when no op has it |
| WsOp.RoundTrip | Server/src/main/kotlin/obsidian/server/io/ws/Op.kt:48-60 | every op, UNKNOWN included, reads back as itself |
| LegacyOp.Get | Server/src/main/kotlin/obsidian/server/io/Op.kt:56-57 | the lookup is absent iff no op has the code, and a found op has it |
| LegacyOp.Serialize | Server/src/main/kotlin/obsidian/server/io/Op.kt:65-66 | Int.MIN_VALUE is written exactly for Unknown |
| LegacyOp.Deserialize | Server/src/main/kotlin/obsidian/server/io/Op.kt:62-63 | a number outside the int range is a decoding error; otherwise the op with that code, or Unknown when none has it |
| LegacyOp.SharedCode | Server/src/main/kotlin/obsidian/server/io/Op.kt:28-48 | SetupResuming and Configure are the only two ops that share a code |
| LegacyOp.RoundTripExceptConfigure | Server/src/main/kotlin/obsidian/server/io/Op.kt:56-66 | every op other than Configure reads back as itself |
| LegacyOp.ConfigureReadsAsSetupResuming | Server/src/main/kotlin/obsidian/server/io/Op.kt:34-57 | Configure is written as 10, which reads back as SetupResuming, the first op declared with that code |
| GatewayEventOp.CodeInjective | Server/src/main/kotlin/obsidian/bedrock/gateway/event/Op.kt:26-37 | no two voice-gateway event ops share a code |
| GatewayEventOp.Get | Server/src/main/kotlin/obsidian/bedrock/gateway/event/Op.kt:45-46 | the lookup is absent iff no op has the code, and a found op has it |
| GatewayEventOp.Serialize | Server/src/main/kotlin/obsidian/bedrock/gateway/event/Op.kt:54-55 | Int.MIN_VALUE is written exactly for Unknown |
| GatewayEventOp.Deserialize | Server/src/main/kotlin/obsidian/bedrock/gateway/event/Op.kt:51-52 | a number outside the int range is a decoding error; otherwise the op with that code, or Unknown |
| GatewayEventOp.RoundTrip | Server/src/main/kotlin/obsidian/bedrock/gateway/event/Op.kt:45-55 | every op reads back as itself, and the unassigned code 7 reads as Unknown |
| GatewayOp.CodeInjective | Server/src/main/kotlin/obsidian/bedrock/gateway/Op.kt:21-30 | no two voice-gateway ops share a code |
| GatewayOp.Get | Server/src/main/kotlin/obsidian/bedrock/gateway/Op.kt:38-39 | the lookup is absent iff no op has the code, and a found op has it |
| GatewayOp.UnassignedCodes | Server/src/main/kotlin/obsidian/bedrock/gateway/Op.kt:21-30 | codes 7, 9, 10 and 11 name no op |
| GatewayOp.GetInvertsCode | Server/src/main/kotlin/obsidian/bedrock/gateway/Op.kt:38-39 | every op is found by its own code |
| MagmaOperation.Get | Server/src/main/kotlin/obsidian/server/io/MagmaOperation.kt:14-15 | exactly the codes 0, 1 and 2 are known, each to the op declared with it |
| MagmaOperation.GetInvertsCode | Server/src/main/kotlin/obsidian/server/io/MagmaOperation.kt:3-15 | every operation is found by its own code |
| MediaConnection.New | Server/src/main/kotlin/obsidian/bedrock/MediaConnection.kt:42-82 | a new connection has its id and no provider, gateway or handler, is not polling, and has done nothing |
| MediaConnection.SetFrameProvider | Server/src/main/kotlin/obsidian/bedrock/MediaConnection.kt:52-59 | the new provider is stored, the previous one (if any) is disposed first, and nothing else changes |
| MediaConnection.StartFramePolling | Server/src/main/kotlin/obsidian/bedrock/MediaConnection.kt:123-129 | afterwards the poller runs; when it already ran, nothing happens at all |
| MediaConnection.StopFramePolling | Server/src/main/kotlin/obsidian/bedrock/MediaConnection.kt:134-140 | afterwards the poller is stopped; when it was not running, nothing happens at all |
| MediaConnection.Disconnect | Server/src/main/kotlin/obsidian/bedrock/MediaConnection.kt:102-118 | polling stops, an open gateway is closed with code 1000 and forgotten while one that is not open stays referenced, and the handler is closed and forgotten, in that order |
| MediaConnection.Connect | Server/src/main/kotlin/obsidian/bedrock/MediaConnection.kt:89-97 | a new open gateway is stored and started, after the existing gateway connection (if any) has been disconnected |
| MediaConnection.Close | Server/src/main/kotlin/obsidian/bedrock/MediaConnection.kt:153-162 | the provider is disposed, then disposed again by the setter that clears it, before anything else; the connection ends disconnected, and its last act is to remove itself from its client |
| MediaConnection.ProviderDisposals | Server/src/main/kotlin/obsidian/bedrock/MediaConnection.kt:52-157 | replacing a provider disposes it once; closing the connection disposes it twice in a row and never again |
| BedrockClient.CreateConnection | Server/src/main/kotlin/obsidian/bedrock/BedrockClient.kt:32-33 | an existing connection for the guild is returned unchanged; otherwise a new one is created and mapped |
| BedrockClient.GetConnection | Server/src/main/kotlin/obsidian/bedrock/BedrockClient.kt:40-41 | the mapped connection, or nothing when the guild has none |
| BedrockClient.RemoveConnection | Server/src/main/kotlin/obsidian/bedrock/BedrockClient.kt:56-57 | returns what was mapped; afterwards the guild is absent and every other guild keeps its connection |
| BedrockClient.CreateRemoveInverse | Server/src/main/kotlin/obsidian/bedrock/BedrockClient.kt:32-57 | removing a connection just created restores the map, and creating twice is creating once |
| BedrockClient.DestroyConnection | Server/src/main/kotlin/obsidian/bedrock/BedrockClient.kt:48-49 | the guild is removed as by removal, and the removed connection, if any, is closed |
| BedrockClient.Close | Server/src/main/kotlin/obsidian/bedrock/BedrockClient.kt:62-69 | afterwards no connection is left, and every connection that was mapped has been closed |
| EventDispatcher.Register | Server/src/main/kotlin/obsidian/bedrock/EventDispatcher.kt:24-25 | true iff the listener was absent; it is present afterwards |
| EventDispatcher.Unregister | Server/src/main/kotlin/obsidian/bedrock/EventDispatcher.kt:27-28 | true iff the listener was present; it is absent afterwards |
| EventDispatcher.UnregisterUndoesRegister | Server/src/main/kotlin/obsidian/bedrock/EventDispatcher.kt:24-28 | unregistering a newly registered listener restores the set and reports true |
| EventDispatcher.RegisterTwice | Server/src/main/kotlin/obsidian/bedrock/EventDispatcher.kt:22-25 | a second registration changes nothing and reports false |
| EventDispatcher.TargetsAreReceivers | Server/src/main/kotlin/obsidian/bedrock/EventDispatcher.kt:30-58 | a listener is reached iff some delivery names it |
| EventDispatcher.Dispatch | Server/src/main/kotlin/obsidian/bedrock/EventDispatcher.kt:30-58 | every registered listener receives the event exactly once, and nobody else receives it |
| StatsFrames.AccumulateWrapsSums | Server/src/main/kotlin/obsidian/server/io/StatsBuilder.kt:56-66 | adding into Int counters link by link gives the exact count and sums of the usable links, each wrapped to 32 bits once |
| StatsFrames.LinkCounts | Server/src/main/kotlin/obsidian/server/io/StatsBuilder.kt:47-52 | while the link count fits an Int, active is the number of playing links, total the number of links, and active never exceeds total |
| StatsFrames.Average | Server/src/main/kotlin/obsidian/server/io/StatsBuilder.kt:55-77 | no frames block without a usable link; with n of them, sent and nulled are the 32-bit-wrapped sums divided by n, truncating, and deficit is the wrapped (n·3000 − (sent + nulled)) divided by n; without wrapping these are the exact truncated averages |
| StatsFrames.DeficitWraps | Server/src/main/kotlin/obsidian/server/io/StatsBuilder.kt:75 | computing the deficit with Int wrap-around at every step lands where the exact deficit wraps to |
| StatsFrames.ExpectedRateHasNoDeficit | Server/src/main/kotlin/obsidian/server/io/StatsBuilder.kt:72-76 | links sending exactly 3000 frames a minute and losing none average 3000 sent, 0 nulled and no deficit |
| StatsFrames.DeficitTruncates | Server/src/main/kotlin/obsidian/server/io/StatsBuilder.kt:75 | the deficit divides with truncation: one frame over on two links reports 0, on one link -1 |
| CpuStats.CpuAsWritten | Server/src/main/kotlin/obsidian/server/io/StatsBuilder.kt:40-44 | as written, the process load field carries the system's usage and the system load field the process's |
| CpuStats.CpuReport | Server/src/main/kotlin/obsidian/server/io/Stats.kt:42-50 | corrected: each load is reported under its own name, as the JSON statistics do |
| CpuStats.LoadsSwapped | Server/src/main/kotlin/obsidian/server/io/StatsBuilder.kt:42-43 | a process at 0.25 on a machine at 0.75 is reported with process load 0.75 as written, 0.25 as intended |
| CpuStats.AsWrittenAgreesOnlyOnEqualLoads | Server/src/main/kotlin/obsidian/server/io/StatsBuilder.kt:40-44 | the two reports coincide exactly when both loads are the same sample |
| StatsBuilder.Build | Server/src/main/kotlin/obsidian/server/io/StatsBuilder.kt:28-81 | used memory is allocated minus free (64-bit), the CPU section is as written, links appear exactly for a client, and frames only for a client with usable data, as the averages say |
| StatsJson.Load | Server/src/main/kotlin/obsidian/server/io/Stats.kt:45-49 | a finite load is reported as is, NaN or an infinity as 0 |
| StatsJson.Sections | Server/src/main/kotlin/obsidian/server/io/Stats.kt:35-83 | memory and cpu are always present; links and frames are present exactly when supplied |
| StatsJson.CpuJson | Server/src/main/kotlin/obsidian/server/io/Stats.kt:42-50 | process_load and system_load carry the process's and the system's load |
| StatsJson.Build | Server/src/main/kotlin/obsidian/server/io/Stats.kt:31-84 | "links" is present iff there is a client and "frames" iff that client has a link with usable data |
| StatsJson.AgreesWithStatsBuilder | Server/src/main/kotlin/obsidian/server/io/Stats.kt:31-84 | the JSON object carries the same link and frame figures as the typed statistics, and the CPU loads under their right names |
| StatsTask.PlayerCounts | Server/src/main/kotlin/obsidian/server/io/ws/StatsTask.kt:79-98 | with a client, its playing and total players; without one, the sums over every client's players, wrapped to Int |
| StatsTask.CountAllSums | Server/src/main/kotlin/obsidian/server/io/ws/StatsTask.kt:80-92 | the nested Int counting loop equals the exact sums wrapped once |
| StatsTask.NodeCountsAddUp | Server/src/main/kotlin/obsidian/server/io/ws/StatsTask.kt:79-98 | while the totals fit an Int, the node-wide count is the sum of the per-client counts |
| StatsTask.ActiveWithinTotal | Server/src/main/kotlin/obsidian/server/io/ws/StatsTask.kt:81-89 | never more playing players than players |
| StatsTask.FrameList | Server/src/main/kotlin/obsidian/server/io/ws/StatsTask.kt:101-110 | one entry per player of the client, empty without a client, each with the same figures as that player's update payload |
| StatsTask.Build | Server/src/main/kotlin/obsidian/server/io/ws/StatsTask.kt:46-113 | the CPU section is as written, with the frame list and player counts above |
| ByteRingBuffer.New | Server/src/main/kotlin/obsidian/server/util/ByteRingBuffer.kt:26-36 | a capacity below 1 is refused with an illegal argument; otherwise a zeroed array of that many slots, write position 0, and a size equal to the capacity |
| ByteRingBuffer.Put | Server/src/main/kotlin/obsidian/server/util/ByteRingBuffer.kt:48-52 | the value lands at the write position, no other slot changes, the position advances cyclically, and the size grows by one up to the capacity |
| ByteRingBuffer.Clear | Server/src/main/kotlin/obsidian/server/util/ByteRingBuffer.kt:57-61 | position and size are 0 and every slot is 0 |
| ByteRingBuffer.Sum | Server/src/main/kotlin/obsidian/server/util/ByteRingBuffer.kt:66-70 | the Int total of every slot of the array, live or not, wrapped to 32 bits |
| ByteRingBuffer.SumIsExact | Server/src/main/kotlin/obsidian/server/util/ByteRingBuffer.kt:66-70 | for arrays of at most 2^24 slots the Int sum does not wrap |
| ByteRingBuffer.ClearSumsToZero | Server/src/main/kotlin/obsidian/server/util/ByteRingBuffer.kt:57-70 | after clearing, the sum is 0 |
| ByteRingBuffer.PutChangesSum | Server/src/main/kotlin/obsidian/server/util/ByteRingBuffer.kt:48-70 | a put changes the sum by the new value minus the value it overwrites |
| ByteRingBuffer.IndexHelpersSkipTheArray | Server/src/main/kotlin/obsidian/server/util/ByteRingBuffer.kt:131-138 | as written, sub and inc never yield an index strictly inside the array other than 0, and inc sends every in-range index to 0 |
| ByteRingBuffer.At | Server/src/main/kotlin/obsidian/server/util/ByteRingBuffer.kt:86-123 | reading an index succeeds iff it is inside the array, and fails with an index-out-of-bounds error otherwise |
| ByteRingBuffer.Get | Server/src/main/kotlin/obsidian/server/util/ByteRingBuffer.kt:81-87 | as written, an index at or past the size fails with no such element, and every index in 0..size-1 reads slot 0 |
| ByteRingBuffer.GetLast | Server/src/main/kotlin/obsidian/server/util/ByteRingBuffer.kt:106-112 | as written, likewise: every index in 0..size-1 reads slot 0 |
| ByteRingBuffer.NegativeIndexOverruns | Server/src/main/kotlin/obsidian/server/util/ByteRingBuffer.kt:81-112 | a negative index passes the size guard and runs off the array |
| ByteRingBuffer.Iterate | Server/src/main/kotlin/obsidian/server/util/ByteRingBuffer.kt:114-129 | as written, the iterator yields size values: the slot at the write position, then slot 0 over and over |
| ByteRingBuffer.SubFixed | Server/src/main/kotlin/obsidian/server/util/ByteRingBuffer.kt:132-134 | corrected sub: the difference brought back into 0..mod-1 |
| ByteRingBuffer.IncFixed | Server/src/main/kotlin/obsidian/server/util/ByteRingBuffer.kt:136-138 | corrected inc: the successor brought back into 0..mod-1 |
| ByteRingBuffer.GetFixed | Server/src/main/kotlin/obsidian/server/util/ByteRingBuffer.kt:72-87 | corrected get: fails iff the index is outside 0..size-1; otherwise the n-th oldest live value |
| ByteRingBuffer.GetLastFixed | Server/src/main/kotlin/obsidian/server/util/ByteRingBuffer.kt:97-112 | corrected getLast: fails iff the index is outside 0..size-1; otherwise the n-th newest live value |
| ByteRingBuffer.IterateFixed | Server/src/main/kotlin/obsidian/server/util/ByteRingBuffer.kt:114-129 | corrected iterator: yields exactly the live values, oldest first |
| ByteRingBuffer.PutSlidesWindow | Server/src/main/kotlin/obsidian/server/util/ByteRingBuffer.kt:43-52 | a put appends the value to the live values and, once the buffer is full, drops the oldest |
| ByteRingBuffer.PutAllKeepsLastValues | Server/src/main/kotlin/obsidian/server/util/ByteRingBuffer.kt:43-52 | after any sequence of puts the live values are the last capacity values of the old contents followed by what was put |
| ByteRingBuffer.PutKeepsLastValues | Server/src/main/kotlin/obsidian/server/util/ByteRingBuffer.kt:43-52 | one put: the live values are the last capacity values of the old contents and the new value |
| ByteRingBuffer.ClearThenPutAll | Server/src/main/kotlin/obsidian/server/util/ByteRingBuffer.kt:57-61 | a cleared buffer then fed values holds exactly the last capacity of them |
| ByteRingBuffer.WrittenReadsDisagreeWithWindow | Server/src/main/kotlin/obsidian/server/util/ByteRingBuffer.kt:81-138 | after putting 1, 2, 3 into a cleared buffer of three, the iterator as written yields 1, 1, 1 where the window is 1, 2, 3 |
| Json.ReadLong | Server/src/main/kotlin/obsidian/server/Application.kt:77-81 | a number in the Long range reads as itself and any number that reads reads as its value modulo 2^64; a string reads as the numeric literal it holds; nothing else reads |
| Json.NumericLiteral | Server/src/main/kotlin/obsidian/server/Application.kt:77-81 | a bare or quoted literal reads only if it is an optional minus and digits; it then reads as its value modulo 2^64, and exactly when that value lies in the Long range |
| Json.Accumulate | Server/src/main/kotlin/obsidian/server/Application.kt:77-81 | the lexer's downward accumulator, when it survives, is minus the digits' value modulo 2^64, and it always survives while that value is at most 2^63 |
| Json.QuotedLongReadsBack | Server/src/main/kotlin/obsidian/server/Application.kt:77-81 | every Long reads back from its bare literal and from the same literal in quotes |
| Json.WrapsPastTwoToThe64 | Server/src/main/kotlin/obsidian/server/Application.kt:77-81 | 2^64 reads as 0 instead of failing as an overflow |
| Json.LastDigitWraps | Server/src/main/kotlin/obsidian/server/Application.kt:77-81 | a literal whose digits before the last fit reads as its value modulo 2^64 when the last step does not turn the accumulator positive |
| Json.ReadInt | Server/src/main/kotlin/obsidian/server/Application.kt:77-81 | a literal reads as an Int iff its Long reading fits the Int range, and then as that reading |
| Json.ReadBool | Server/src/main/kotlin/obsidian/server/Application.kt:77-81 | a boolean reads as itself, a string reads as true or false iff its ASCII lower-casing is "true" or "false", and nothing else reads |
| Json.SpellsLower | Server/src/main/kotlin/obsidian/server/Application.kt:77-81 | the lexer's `or 0x20` comparison against "true" or "false" is ASCII case folding |
| Json.QuotedBoolReadsBack | Server/src/main/kotlin/obsidian/server/Application.kt:77-81 | both booleans read back from their literals, bare or in quotes |
| Json.ReadString | Server/src/main/kotlin/obsidian/server/Application.kt:77-81 | a string reads as its contents, a bare number or boolean as its literal text, and null, decimals, arrays and objects do not read |
| LongAsString.ParseLong | Server/src/main/kotlin/obsidian/server/io/ws/Dispatch.kt:94-96 | every failure is a number-format error, a parsed text is non-empty and starts with a digit or a sign, and a negative result needs a leading minus |
| LongAsString.ToDecimal | Server/src/main/kotlin/obsidian/server/io/ws/Dispatch.kt:94-96 | the decimal text of any integer is non-empty and starts with a minus exactly for negative values |
| LongAsString.DigitsInverts | Server/src/main/kotlin/obsidian/server/io/ws/Dispatch.kt:94-96 | reading back the decimal digits of a natural number gives the number |
| LongAsString.RoundTrip | Server/src/main/kotlin/obsidian/server/io/ws/Dispatch.kt:94-96 | every guild id, negative ones included, reads back from its text as itself |
| LoadResult.Of | Server/src/main/kotlin/obsidian/server/io/search/LoadResult.kt:40-46 | the four fields as given and no exception, so the result is well formed |
| LoadResult.Failed | Server/src/main/kotlin/obsidian/server/io/search/LoadResult.kt:48-54 | a LOAD_FAILED result with no tracks, playlist name or selection, carrying the (possibly null) exception |
| LoadResult.ConstructorsMeetOnlyWithoutException | Server/src/main/kotlin/obsidian/server/io/search/LoadResult.kt:40-54 | the two constructors build the same result only for an empty LOAD_FAILED result without an exception, so a result with an exception comes from the exception constructor |
| LoadOutcome.IndexOf | Server/src/main/kotlin/obsidian/server/io/search/AudioLoader.kt:64 | -1 iff the selected track is null or not in the list; otherwise the first position holding that very track object |
| LoadOutcome.SelectedCopyByIdentity | Server/src/main/kotlin/obsidian/server/io/search/AudioLoader.kt:64 | with the same video loaded twice and the second copy selected, the selected index is 1, since tracks compare by identity |
| SearchAudioLoader.New | Server/src/main/kotlin/obsidian/server/io/search/AudioLoader.kt:32-34 | a fresh loader is unused and its future is not completed |
| SearchAudioLoader.Load | Server/src/main/kotlin/obsidian/server/io/search/AudioLoader.kt:36-46 | the first load marks the loader used; any later load fails its check with an illegal state |
| SearchAudioLoader.ResultOf | Server/src/main/kotlin/obsidian/server/io/search/AudioLoader.kt:48-92 | a loaded track is a one-track TRACK_LOADED result; a search playlist is SEARCH_RESULT without name or selection; another playlist is PLAYLIST_LOADED with its name and the selected track's index; no matches is the empty NO_MATCHES result; a failure is the exception result |
| SearchAudioLoader.Complete | Server/src/main/kotlin/obsidian/server/io/search/AudioLoader.kt:53-86 | the first callback completes the future with its result and later ones change nothing |
| SearchAudioLoader.SingleUse | Server/src/main/kotlin/obsidian/server/io/search/AudioLoader.kt:36-46 | after a successful load every further load fails, and a second callback cannot change the result |
| SearchAudioLoader.SelectedIndexFindsTrack | Server/src/main/kotlin/obsidian/server/io/search/AudioLoader.kt:62-65 | for a playlist, the index is non-negative iff the selected track is in the list, and then it points at that track |
| UtilAudioLoader.ResultOf | Server/src/main/kotlin/obsidian/server/util/search/AudioLoader.kt:39-65 | the same result for each callback, well formed, with the playlist's tracks kept |
| UtilAudioLoader.Complete | Server/src/main/kotlin/obsidian/server/util/search/AudioLoader.kt:41-64 | the first completion of the deferred sticks |
| UtilAudioLoader.LoadersAgree | Server/src/main/kotlin/obsidian/server/util/search/AudioLoader.kt:39-65 | both loaders turn every callback into the same result |
| TracksRoute.TrackInfo | Server/src/main/kotlin/obsidian/server/io/rest/tracks.kt:98-109 | the track's own fields; the REST route names the source manager or "unknown", the older controller has no source name |
| TracksRoute.InfosAgreeButForSource | Server/src/main/kotlin/obsidian/server/io/controllers/Tracks.kt:101-112 | the two routes' track infos differ only in the source name, which the REST route always has |
| TracksRoute.TrackList | Server/src/main/kotlin/obsidian/server/io/rest/tracks.kt:68-93 | one entry per track, in order, each the track with its info |
| TracksRoute.Respond | Server/src/main/kotlin/obsidian/server/io/rest/tracks.kt:45-75 | a NullPointerException iff the result failed with an exception that has no message (its null `localizedMessage` meets the non-null `message`, lines 58-62 and 138-141); otherwise the response has the result's type, playlist info iff there is a playlist name, an exception entry with the message and severity iff the result failed with an exception, and every track with its info |
| TracksRoute.ResponseKeepsTracks | Server/src/main/kotlin/obsidian/server/io/rest/tracks.kt:68 | whenever there is a response, its tracks are the result's tracks in order |
| TracksRoute.ResponsePerOutcome | Server/src/main/kotlin/obsidian/server/io/rest/tracks.kt:45-75 | what a client sees for each callback: one track, a playlist block exactly for non-search playlists, nothing for no matches, the exception's message and severity for a failure whose exception has a message, and a NullPointerException for one whose exception has none |
| TracksRoute.Normalise | Server/src/main/kotlin/obsidian/server/io/rest/tracks.kt:175-182 | the result is always an array: an array passes unchanged and a lone element becomes a one-element array |
| TracksRoute.NormaliseIdempotent | Server/src/main/kotlin/obsidian/server/io/rest/tracks.kt:175-182 | normalising twice is normalising once |
| TracksRoute.DecodeAll | Server/src/main/kotlin/obsidian/server/io/rest/tracks.kt:115-175 | the list decodes iff every element reads leniently as a string that decodes, and then position by position |
| TracksRoute.DecodeTracks | Server/src/main/kotlin/obsidian/server/io/rest/tracks.kt:82-85 | a body without "tracks" is refused; otherwise one info per normalised entry |
| TracksRoute.LoneTrackActsAsList | Server/src/main/kotlin/obsidian/server/io/rest/tracks.kt:175-182 | a single encoded track is answered exactly as the one-element list holding it |
| CollectionType.Serialize | Server/src/main/kotlin/obsidian/server/util/search/CollectionType.kt:30-37 | an unknown kind is written as its own name, and each of the three kinds as its reserved class name |
| CollectionType.Deserialize | Server/src/main/kotlin/obsidian/server/util/search/CollectionType.kt:26-28 | decoding always fails as not supported |
| CollectionType.Named | Server/src/main/kotlin/obsidian/server/util/search/CollectionType.kt:13-20 | a reserved name reads as its kind, any other as an unknown kind |
| CollectionType.SerializeInvertible | Server/src/main/kotlin/obsidian/server/util/search/CollectionType.kt:13-37 | the encoding is reversible exactly on values that are not an unknown kind with a reserved name, and every string is some value's encoding |
| CollectionType.ReservedNamesCollide | Server/src/main/kotlin/obsidian/server/util/search/CollectionType.kt:30-37 | an unknown kind named "Album" is written exactly as the Album kind |
| ServerConfig.ValidateAuth | Server/src/main/kotlin/obsidian/server/config/spec/Obsidian.kt:60-63 | an empty configured auth accepts every credential, a configured one exactly itself |
| ServerConfig.DefaultAcceptsAnyCredential | Server/src/main/kotlin/obsidian/server/config/spec/Obsidian.kt:27-51 | with every setting at its default, any credential or none gets through |
| LegacyConfig.Load | Server/src/main/kotlin/obsidian/server/util/config/ObsidianConfig.kt:12-40 | loading fails iff the password is unset; every other setting falls back to its default (port 3030, immediate provide on, update interval 5000 ms) |
| LegacyConfig.AgreesWithServerConfig | Server/src/main/kotlin/obsidian/server/util/config/ObsidianConfig.kt:49-52 | the legacy check accepts exactly the credentials the current one does |
| LegacyConfig.MissingCredentialRejected | Server/src/main/kotlin/obsidian/server/util/config/ObsidianConfig.kt:49-52 | with a password configured, a request without a credential is refused |
| AuthorizationPipeline.Credential | Server/src/main/kotlin/obsidian/server/util/AuthorizationPipeline.kt:33-34 | the Authorization header when present, else the "auth" query parameter |
| AuthorizationPipeline.Intercept | Server/src/main/kotlin/obsidian/server/util/AuthorizationPipeline.kt:32-47 | no challenge iff the credential is valid; otherwise a 401 whose cause is "no credentials" exactly when neither header nor parameter was given |
| Magma.ClientName | Server/src/main/kotlin/obsidian/server/io/Magma.kt:193-199 | the Client-Name header when present, else the query parameter |
| Magma.IsNullOrBlank | Server/src/main/kotlin/obsidian/server/io/Magma.kt:109 | true iff the name is absent or consists of whitespace only |
| Magma.ToLongOrNull | Server/src/main/kotlin/obsidian/server/io/Magma.kt:180-181 | a number iff the text parses as a Long, and then that Long |
| Magma.UserId | Server/src/main/kotlin/obsidian/server/io/Magma.kt:179-185 | the header's id when it parses, else the query parameter's; absent iff neither parses |
| Magma.MalformedHeaderFallsBack | Server/src/main/kotlin/obsidian/server/io/Magma.kt:180-181 | a header that is not a number does not hide a good query parameter |
| Magma.GetClient | Server/src/main/kotlin/obsidian/server/io/Magma.kt:156-171 | a registered client is returned with the registry unchanged; otherwise a new client under that id, with the given name, is registered and returned |
| Magma.GetClientIdempotent | Server/src/main/kotlin/obsidian/server/io/Magma.kt:156-158 | asking again, under any name, hands back the same client and registry |
| Magma.CallIntercept | Server/src/main/kotlin/obsidian/server/io/Magma.kt:81-101 | the intercept on the routing itself, which every route under it (REST and the "/magma" upgrade alike) runs first: a 400 that ends the call exactly when names are required and none was given; a blank name passes |
| Magma.Admit | Server/src/main/kotlin/obsidian/server/io/Magma.kt:104-153 | the websocket handler on its own: closes with 4002 iff names are required and the name is missing or blank, else 4001 iff the credential is refused, else 4003 iff there is no user id, all without touching the registry; otherwise the client is looked up or created, then handled when it has no session (a fresh handler without resume key becomes its session), resumed when the resume key matches, and closed with 4005 otherwise |
| Magma.Route | Server/src/main/kotlin/obsidian/server/io/Magma.kt:81-153 | the "/magma" route as a whole: a 400 exactly when names are required and none was given, with the registry untouched; a 4002 close exactly when names are required and the given name is blank; otherwise the handler's outcome and registry |
| Magma.MissingNameIsBadRequest | Server/src/main/kotlin/obsidian/server/io/Magma.kt:81-111 | a request without any client name, where names are required, is answered 400 by the route although the handler alone would close it with 4002 |
| Magma.SecondConnectionIsDuplicate | Server/src/main/kotlin/obsidian/server/io/Magma.kt:137-153 | after one connection is handled, the next admitted one for the same user id is closed with 4005 whatever resume key it carries |
| Magma.AdmissionAgreesWithRestAuth | Server/src/main/kotlin/obsidian/server/io/Magma.kt:117-124 | past the name check, the websocket refuses exactly the credentials the REST authentication challenges |
| Magma.BlankNameOnlyRefusedByWebsocket | Server/src/main/kotlin/obsidian/server/io/Magma.kt:91-111 | a blank client name passes the call intercept, and the route closes the websocket with 4002 |
| ObsidianWs.HandleSession | Server/src/main/kotlin/obsidian/server/io/websocket/ObsidianWs.kt:20-36 | closes with 4001 iff the authorization header is missing or is the literal "password", else with 4002 iff the User-Id header is missing; a non-numeric id fails with a number-format error; otherwise the id is registered unless already known |
| ObsidianWs.ExistingClientKept | Server/src/main/kotlin/obsidian/server/io/websocket/ObsidianWs.kt:33-35 | a reconnecting client keeps the session it was first registered with |
| VoiceServerInfo.StripPort | Server/src/main/kotlin/obsidian/bedrock/VoiceServerInfo.kt:37 | the stripped endpoint is never longer than the original |
| VoiceServerInfo.NoPortUnchanged | Server/src/main/kotlin/obsidian/bedrock/VoiceServerInfo.kt:37 | an endpoint holding no ":80" comes through the replacement unchanged |
| VoiceServerInfo.StripRemovesOnlyPorts | Server/src/main/kotlin/obsidian/bedrock/VoiceServerInfo.kt:37 | the replacement removes whole three-character ":80" matches only, and removes a leading one |
| VoiceServerInfo.OnePassOnly | Server/src/main/kotlin/obsidian/bedrock/VoiceServerInfo.kt:37 | the replacement is a single pass: "h:8080" becomes "h80" and "host:80" becomes "host" |
| VoiceServerInfo.Create | Server/src/main/kotlin/obsidian/bedrock/VoiceServerInfo.kt:36-38 | session id and token are kept as given; an endpoint without ":80" is kept and no endpoint grows |
| VoiceServerInfo.From | Server/src/main/kotlin/obsidian/bedrock/VoiceServerInfo.kt:45-49 | succeeds exactly when `getString` reads all of session_id, token and endpoint, then equals create of the three texts; otherwise a JSON exception |
| VoiceServerInfo.FromReadsOnlyItsKeys | Server/src/main/kotlin/obsidian/bedrock/VoiceServerInfo.kt:45-49 | two objects that agree on the three keys give the same result, whatever other keys they hold |
| LogbackColorConverter.Ansi | Server/src/main/kotlin/obsidian/server/util/LogbackColorConverter.kt:37-38 | the escape is ESC, '[', the decimal digits of the number, then 'm' |
| LogbackColorConverter.Colours | Server/src/main/kotlin/obsidian/server/util/LogbackColorConverter.kt:40-50 | the table holds gray (90/39) and faint (2/22), and the i-th colour name maps to 31+i/39; there are no other keys |
| LogbackColorConverter.LevelColour | Server/src/main/kotlin/obsidian/server/util/LogbackColorConverter.kt:52-58 | exactly the five levels other than OFF and ALL name a colour, and each name is in the colour table |
| LogbackColorConverter.Choose | Server/src/main/kotlin/obsidian/server/util/LogbackColorConverter.kt:29-31 | a known first option wins, otherwise the level's colour, otherwise green |
| LogbackColorConverter.Transform | Server/src/main/kotlin/obsidian/server/util/LogbackColorConverter.kt:28-34 | the element is wrapped between the chosen style's opening and closing escapes |
| LogbackColorConverter.LevelStyles | Server/src/main/kotlin/obsidian/server/util/LogbackColorConverter.kt:45-58 | ERROR is red 31, WARN yellow 33, DEBUG blue 34, TRACE magenta 35, INFO faint 2/22, and OFF and ALL fall back to green 32 |
| LogbackColorConverter.OptionWins | Server/src/main/kotlin/obsidian/server/util/LogbackColorConverter.kt:29-30 | with a known colour option the level does not affect the output |
| LogbackColorConverter.ElementRecoverable | Server/src/main/kotlin/obsidian/server/util/LogbackColorConverter.kt:28-34 | the output starts with ESC and dropping the two escapes gives back the element |
| LogbackColorConverter.RedError | Server/src/main/kotlin/obsidian/server/util/LogbackColorConverter.kt:28-58 | an ERROR line with no option is ESC[31m, the element, then ESC[39m |

## Left out

- Ktor routing, websocket framing, Netty buffers and coroutine scheduling. The model deals with the decisions these carry out, not with the I/O.
- The native UDP pacing engine. Only its JNI declarations are visible, so `UdpQueueManager` is an abstract map of bounded FIFO queues. Its tick and round-robin fairness are not modelled.
- The DSP bodies of the audio filters (equalizer, karaoke, timescale and the rest). Each filter is reduced to its kind, its `enabled` flag and whether it builds for the format.
- The crypto box (xsalsa20-poly1305). The encryption of a packet body is a function parameter, and only mode selection and the key checks are modelled.
- Memory, thread and CPU MXBeans. Memory figures and CPU loads are parameters of the stats functions, and floating-point loads are abstract values that are passed through.
- Clocks. `System.currentTimeMillis()` and `System.nanoTime()` are `now` parameters, and the thread sleeps of the pollers are the delay they compute.
- `TrackUtil.decode`/`encode` (base64 track blobs). Decoding is a function parameter, and `/decodetrack` is track-info shaping applied to the decoded track.
- `OpusCodec.FRAME_DURATION` of the Koe library, which Koe's pollers use, and bedrock's own `obsidian.bedrock.gateway.SpeakingFlags`. Neither file is part of this model, so the Koe frame duration and the `SpeakingFlags.NORMAL` mask are parameters.
- Logback's level integers, which are library constants. `LEVELS` is keyed by a level enumeration.
- LongAsString.ParseLong: Kotlin's `toLongOrNull` also accepts non-ASCII decimal digits. The model accepts the ASCII digits only.
- PlayerUpdates.SendUpdate: `PlayerUpdates.kt` lines 79-81 read `frameCounter.success/loss.sum()`, members that `FrameLossCounter` does not declare. The model reports the `FrameLossTracker` sums, as `Player.kt` does.
- `Link.dispatchUpdate` (`Link.kt` lines 99-118). This is the periodic update of the older link class and duplicates what `PlayerUpdates` sends.
- TrackEndMarkerHandler.Handle: the handler calls `link.stop()`, which `Link.kt` does not declare. The model stops the player's current track.
- `MediaConnection.updateSpeakingState`. It only forwards the mask to the voice gateway connection.
- StatsBuilder: `Stats.Memory` and `Stats.CPU` are not declared in `io/Stats.kt`. The model uses its own memory and CPU records with the fields the builder passes.
- UtilAudioLoader.ResultOf: `util/search/AudioLoader.kt` calls a no-argument `LoadResult()` that `util/search/LoadResult.kt` does not declare. The model reads it as the empty NO_MATCHES result.
- PlayerEvents.OnTrackEnd: the legacy track-end event is built with an `endReason` that the legacy `TrackEndEvent` does not declare. The model builds the event with the guild id and track only.
- `Magma.shutdown`. It is a flag of the model's state, not a running server.
- OpusAudioFrameProvider.Retrieve: assumes a non-null target buffer, as every caller passes one.
- Handlers.PlayTrack: takes the guild's player as an argument. `Handlers.PlayerFor` models the `playerFor` lookup that supplies it.
- `Handlers.submitVoiceServer`, `seek` and `destroy`. They forward to the media connection, `Player.seekTo` and `Player.destroy`. The seek is modelled as `AudioPlayer.SeekTo`, and the other two are connection side effects.
- `getCapacity` has no member of its own. `UdpQueueManager.New` states that it returns the constructor's capacity.
- `Ktor_DiscordUDPConnection.handleSessionDescription` (`Ktor_DiscordUDPConnection.kt` lines 101-124). It reads a raw org.json `JSONObject`: a missing key throws `JSONException`, and `getInt` also accepts numeric strings and truncates decimals in `secret_key`. Its codec warning is logged when the codec IS found (line 105), which only affects logging. The model's `DiscordUdpConnection.HandleSessionDescription` takes the already-read mode and key, as in `DiscordUDPConnection`, so it does not model those reading differences.
- Throwables.RootCause: a `Throwable` is an acyclic datatype here, so the model cannot express a cause chain that loops back on itself, on which the source's `while (cause != null)` walk would not end.
- EventDispatcher: a listener that throws stops the source's `forEach` and the listeners after it are not called. The model treats every listener call as returning normally.
- Json.ReadString: the lenient reader reads a bare decimal such as `1.5` as its text. The model refuses a decimal here, because a `JDecimal` does not keep its written form.
- Json.ReadLong: a number is held as its value, so the model cannot show a bare literal written with leading zeros or as `-0`. Such a literal reads as its value, and the model gives that value.
- OperationHandlers.OptLong: the org.json reader is taken to be release 20180813, the one lavaplayer depends on. Exponent notation (`1e3`), Java float suffixes and surrounding whitespace in a string give the default in the model, although `stringToNumber` may accept them. A decimal string is truncated exactly, without the rounding to `Double` that happens first for strings of at most 14 characters.
- OperationHandlers.GetString: a decimal whose `Double` is infinite is kept as its text, which `getString` returns. A `JDecimal` holds only its value, so the model reads it as a JSON exception.
- OperationHandlers.GetLong: `Long.parseLong` and `BigInteger` also accept non-ASCII decimal digits. The model accepts the ASCII digits only.
- Uuid.FromString: `Long.parseLong` reads digits with `Character.digit`, which also accepts non-ASCII decimal digits and full-width Latin letters. The model accepts the ASCII hexadecimal digits only.
- Thread safety. `synchronized` blocks, atomics and concurrent maps are modelled as sequential updates.

## Findings

| source | as written | input that shows it | evidently intended | confidence | as-written member | corrected member |
|---|---|---|---|---|---|---|
| Server/src/main/kotlin/obsidian/server/util/ByteRingBuffer.kt:81-138 | `sub` and `inc` return their result only when it is greater than `mod`, else 0, so every in-range index maps to slot 0 | put 1, 2, 3 into a cleared buffer of capacity 3: `get(2)` returns 1 and the iterator yields 1, 1, 1 | indices modulo the capacity, so `get(2)` returns 3 and the iterator yields 1, 2, 3 | not executed | ByteRingBuffer.WrittenReadsDisagreeWithWindow | ByteRingBuffer.PutAllKeepsLastValues |
| Server/src/main/kotlin/obsidian/server/player/filter/FilterChain.kt:68-73 | `removeLastOrNull()` pops the previous stage before `build` runs, and a filter that fails to build `continue`s without pushing it back | an enabled timescale that builds followed by an enabled tremolo that does not: the chain comes out empty | a filter that fails to build is skipped and the stages built so far stay | not executed | FilterChain.DroppedStage | FilterChain.BuildChain |
| Server/src/main/kotlin/obsidian/server/io/OperationHandlers.kt:43-53 | the guard checks for the key "track" but the track is read from the key "data" | `{"guild_id": 1, "track": "QAAA"}` fails with a JSON exception | the track is read from the key the guard checks | not executed | OperationHandlers.TrackKeyIsIgnored | OperationHandlers.PlayTrack |
| Server/src/main/kotlin/obsidian/server/io/StatsBuilder.kt:42-43 | `processLoad` is given the system's recent CPU usage and `systemLoad` the process's (the same swap is at `io/ws/StatsTask.kt` lines 64-65) | a process at 0.25 load on a system at 0.75 is reported with a process load of 0.75 | each load is reported under its own name | not executed | CpuStats.LoadsSwapped | CpuStats.CpuReport |
