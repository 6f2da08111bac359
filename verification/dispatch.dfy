/** JVM throwables as far as the event code reads them: a message and a
    cause chain. A Dafny datatype value is finite, so every chain ends. */
module Throwables {
  import opened Wrappers

  datatype Throwable = Throwable(message: Option<string>, cause: Option<Throwable>)

  /** lavaplayer's `FriendlyException.Severity`. */
  datatype Severity = COMMON | SUSPICIOUS | FAULT

  datatype FriendlyException = FriendlyException(exc: Throwable, severity: Severity)

  /** The throwable followed by its causes, outermost first. */
  function Chain(t: Throwable): (c: seq<Throwable>)
    ensures |c| >= 1 && c[0] == t
    ensures forall i :: 0 <= i < |c| - 1 ==> c[i].cause == Some(c[i + 1])
    ensures c[|c| - 1].cause.None?
  {
    match t.cause
    case None => [t]
    case Some(next) => [t] + Chain(next)
  }

  /** `Throwable.rootCause`: the `while (cause != null)` walk of
      `PlayerEvents`, from the throwable to the last link of its chain. */
  method RootCause(t: Throwable) returns (r: Throwable)
    ensures r == Chain(t)[|Chain(t)| - 1]
    ensures r.cause.None?
    ensures t.cause.None? ==> r == t
  {
    r := t;
    while r.cause.Some?
      invariant Chain(r)[|Chain(r)| - 1] == Chain(t)[|Chain(t)| - 1]
      decreases r
    {
      r := r.cause.value;
    }
  }
}

/** `obsidian.server.io.ws.Dispatch`: server-to-client messages of the
    current protocol. The payload JSON each data class writes is the
    parameter `encode`; the envelope is `op` first, then `d`. */
module WsDispatch {
  import opened Wrappers
  import opened KotlinInt
  import opened Json
  import opened Throwables
  import Envelope
  import WsOp
  import WsOperation

  datatype PlayerEventType = WEBSOCKET_OPEN | WEBSOCKET_CLOSED | TRACK_START | TRACK_END | TRACK_STUCK | TRACK_EXCEPTION

  /** `TrackExceptionEvent.Exception`. */
  datatype ExceptionInfo = ExceptionInfo(message: Option<string>, severity: Severity, cause: Option<string>)

  /** The player events; tracks are their encoded strings. */
  datatype PlayerEvent =
    | WebSocketOpenEvent(guildId: Long, ssrc: Int, target: string)
    | WebSocketClosedEvent(guildId: Long, reason: Option<string>, code: Int, byRemote: bool)
    | TrackStartEvent(guildId: Long, startedTrack: string)
    | TrackEndEvent(guildId: Long, track: Option<string>, endReason: string)
    | TrackStuckEvent(guildId: Long, thresholdMs: Long, track: Option<string>)
    | TrackExceptionEvent(guildId: Long, track: Option<string>, exception: ExceptionInfo)

  /** Each event's `type` names its own class. */
  function EventType(e: PlayerEvent): (t: PlayerEventType)
    ensures t == WEBSOCKET_OPEN <==> e.WebSocketOpenEvent?
    ensures t == WEBSOCKET_CLOSED <==> e.WebSocketClosedEvent?
    ensures t == TRACK_START <==> e.TrackStartEvent?
    ensures t == TRACK_END <==> e.TrackEndEvent?
    ensures t == TRACK_STUCK <==> e.TrackStuckEvent?
    ensures t == TRACK_EXCEPTION <==> e.TrackExceptionEvent?
  {
    match e
    case WebSocketOpenEvent(_, _, _) => WEBSOCKET_OPEN
    case WebSocketClosedEvent(_, _, _, _) => WEBSOCKET_CLOSED
    case TrackStartEvent(_, _) => TRACK_START
    case TrackEndEvent(_, _, _) => TRACK_END
    case TrackStuckEvent(_, _, _) => TRACK_STUCK
    case TrackExceptionEvent(_, _, _) => TRACK_EXCEPTION
  }

  /** Stats and PlayerUpdate payloads are JSON trees here; their numbers are
      the subject of the stats and player-update models. */
  datatype Dispatch = Stats(stats: Json) | PlayerUpdate(guildId: Long, update: Json) | Event(event: PlayerEvent)

  /** The op each dispatch is sent with. */
  function OpOf(d: Dispatch): (op: WsOp.Op)
    ensures op == WsOp.PLAYER_EVENT <==> d.Event?
    ensures op == WsOp.STATS <==> d.Stats?
    ensures op == WsOp.PLAYER_UPDATE <==> d.PlayerUpdate?
  {
    match d
    case Stats(_) => WsOp.STATS
    case PlayerUpdate(_, _) => WsOp.PLAYER_UPDATE
    case Event(_) => WsOp.PLAYER_EVENT
  }

  /** `serialize`: element 0 is the op, element 1 the payload. */
  function Serialize(d: Dispatch, encode: Dispatch -> Json): (es: seq<Envelope.Element>)
    ensures |es| == 2 && es[0].index == Envelope.OP_INDEX && es[1].index == Envelope.DATA_INDEX
    ensures es[1].value == encode(d)
  {
    [Envelope.Element(Envelope.OP_INDEX, JNumber(WsOp.Serialize(OpOf(d)))),
     Envelope.Element(Envelope.DATA_INDEX, encode(d))]
  }

  /** A client reading the `op` of any dispatch with the opcode table gets
      STATS, PLAYER_UPDATE or PLAYER_EVENT, matching the dispatch's kind. */
  lemma OpReadsBack(d: Dispatch, encode: Dispatch -> Json)
    ensures WsOperation.ReadOp(Serialize(d, encode)[0].value) == Ok(OpOf(d))
  {
    WsOperation.QuotedOpReadsBack(OpOf(d));
  }

  /** `Exception.fromFriendlyException`: the message and severity of the
      exception and the message of its direct cause. */
  function FromFriendlyException(e: FriendlyException): (info: ExceptionInfo)
    ensures info.message == e.exc.message && info.severity == e.severity
    ensures info.cause.Some? ==> e.exc.cause.Some? && e.exc.cause.value.message == info.cause
    ensures e.exc.cause.None? ==> info.cause.None?
  {
    ExceptionInfo(e.exc.message, e.severity,
                  match e.exc.cause case Some(c) => c.message case None => None)
  }
}

/** `obsidian.server.io.Dispatch`: the legacy server-to-client messages,
    which have no stats dispatch and no websocket-open event. */
module LegacyDispatch {
  import opened Wrappers
  import opened KotlinInt
  import opened Json
  import opened Throwables
  import Envelope
  import LegacyOp
  import LegacyOperation

  datatype PlayerEventType = WEBSOCKET_CLOSED | TRACK_START | TRACK_END | TRACK_STUCK | TRACK_EXCEPTION

  datatype ExceptionInfo = ExceptionInfo(message: Option<string>, severity: Severity, cause: Option<string>)

  datatype PlayerEvent =
    | WebSocketClosedEvent(guildId: Long, byRemote: bool, reason: Option<string>, code: Int)
    | TrackStartEvent(guildId: Long, startedTrack: string)
    | TrackEndEvent(guildId: Long, track: Option<string>)
    | TrackStuckEvent(guildId: Long, thresholdMs: Long, track: Option<string>)
    | TrackExceptionEvent(guildId: Long, track: Option<string>, exception: ExceptionInfo)

  function EventType(e: PlayerEvent): (t: PlayerEventType)
    ensures t == WEBSOCKET_CLOSED <==> e.WebSocketClosedEvent?
    ensures t == TRACK_START <==> e.TrackStartEvent?
    ensures t == TRACK_END <==> e.TrackEndEvent?
    ensures t == TRACK_STUCK <==> e.TrackStuckEvent?
    ensures t == TRACK_EXCEPTION <==> e.TrackExceptionEvent?
  {
    match e
    case WebSocketClosedEvent(_, _, _, _) => WEBSOCKET_CLOSED
    case TrackStartEvent(_, _) => TRACK_START
    case TrackEndEvent(_, _) => TRACK_END
    case TrackStuckEvent(_, _, _) => TRACK_STUCK
    case TrackExceptionEvent(_, _, _) => TRACK_EXCEPTION
  }

  datatype Dispatch = PlayerUpdate(guildId: Long, update: Json) | Event(event: PlayerEvent)

  function OpOf(d: Dispatch): (op: LegacyOp.Op)
    ensures op == LegacyOp.PlayerEvent <==> d.Event?
    ensures op == LegacyOp.PlayerUpdate <==> d.PlayerUpdate?
  {
    match d
    case PlayerUpdate(_, _) => LegacyOp.PlayerUpdate
    case Event(_) => LegacyOp.PlayerEvent
  }

  function Serialize(d: Dispatch, encode: Dispatch -> Json): (es: seq<Envelope.Element>)
    ensures |es| == 2 && es[0].index == Envelope.OP_INDEX && es[1].index == Envelope.DATA_INDEX
    ensures es[1].value == encode(d)
  {
    [Envelope.Element(Envelope.OP_INDEX, JNumber(LegacyOp.Serialize(OpOf(d)))),
     Envelope.Element(Envelope.DATA_INDEX, encode(d))]
  }

  /** The legacy table reads every dispatch's op back. */
  lemma OpReadsBack(d: Dispatch, encode: Dispatch -> Json)
    ensures LegacyOperation.ReadOp(Serialize(d, encode)[0].value) == Ok(OpOf(d))
  {
    LegacyOp.RoundTripExceptConfigure(OpOf(d));
    QuotedLongReadsBack(LegacyOp.Serialize(OpOf(d)));
  }
}

/** `obsidian.server.player.PlayerEvents`: lavaplayer callbacks turned into
    legacy events for the link's guild. */
module PlayerEvents {
  import opened Wrappers
  import opened KotlinInt
  import opened Throwables
  import opened LegacyDispatch
  import WsDispatch

  /** `onTrackException`: the event's cause is the message of the root of the
      exception's cause chain. */
  method OnTrackException(guildId: Long, track: Option<string>, e: FriendlyException) returns (ev: PlayerEvent)
    ensures ev.TrackExceptionEvent? && ev.guildId == guildId && ev.track == track
    ensures ev.exception.message == e.exc.message && ev.exception.severity == e.severity
    ensures ev.exception.cause == Chain(e.exc)[|Chain(e.exc)| - 1].message
    ensures e.exc.cause.None? ==> ev.exception.cause == e.exc.message
  {
    var root := RootCause(e.exc);
    ev := TrackExceptionEvent(guildId, track, ExceptionInfo(e.exc.message, e.severity, root.message));
  }

  /** The legacy event reports the root cause while the current protocol's
      `fromFriendlyException` reports the direct cause: the two agree exactly
      when the direct cause exists and has no cause of its own, or both are
      silent about it. */
  lemma RootCauseVersusDirectCause(guildId: Long, track: Option<string>, e: FriendlyException)
    requires e.exc.cause.Some? && e.exc.cause.value.cause.None?
    ensures WsDispatch.FromFriendlyException(e).cause == Chain(e.exc)[|Chain(e.exc)| - 1].message
  {
  }

  /** `onTrackStart`, `onTrackEnd` and `onTrackStuck`: one event each, tagged
      with the link's guild id. */
  function OnTrackStart(guildId: Long, track: string): (ev: PlayerEvent)
    ensures ev.guildId == guildId && EventType(ev) == TRACK_START
  {
    TrackStartEvent(guildId, track)
  }

  function OnTrackEnd(guildId: Long, track: Option<string>): (ev: PlayerEvent)
    ensures ev.guildId == guildId && EventType(ev) == TRACK_END
  {
    TrackEndEvent(guildId, track)
  }

  function OnTrackStuck(guildId: Long, track: Option<string>, thresholdMs: Long): (ev: PlayerEvent)
    ensures ev.guildId == guildId && EventType(ev) == TRACK_STUCK && ev.thresholdMs == thresholdMs
  {
    TrackStuckEvent(guildId, thresholdMs, track)
  }
}

/** `obsidian.bedrock.gateway.event.Command`: client-to-gateway messages. */
module GatewayCommand {
  import opened Wrappers
  import opened KotlinInt
  import opened Json
  import Envelope
  import GatewayEventOp
  import GatewayEvent

  datatype Command =
    | SelectProtocol(payload: Json)
    | Heartbeat(nonce: Long)
    | ClientConnect(audioSsrc: Int, videoSsrc: Int, rtxSsrc: Int)
    | Identify(payload: Json)
    | Speaking(speaking: Int, delay: Int, ssrc: Int)

  /** The op each command is sent with: SelectProtocol 1, Heartbeat 3,
      ClientConnect 12, Identify 0, Speaking 5. */
  function OpOf(c: Command): (op: GatewayEventOp.Op)
    ensures GatewayEventOp.Code(op) == match c
                                       case SelectProtocol(_) => 1
                                       case Heartbeat(_) => 3
                                       case ClientConnect(_, _, _) => 12
                                       case Identify(_) => 0
                                       case Speaking(_, _, _) => 5
  {
    match c
    case SelectProtocol(_) => GatewayEventOp.SelectProtocol
    case Heartbeat(_) => GatewayEventOp.Heartbeat
    case ClientConnect(_, _, _) => GatewayEventOp.ClientConnect
    case Identify(_) => GatewayEventOp.Identify
    case Speaking(_, _, _) => GatewayEventOp.Speaking
  }

  /** `serialize`: op first, then d. A heartbeat's d is written by
      `Heartbeat.serializer()`, the serializer the plugin generates for the
      class, as the object `{"nonce": n}`; other payloads come from `encode`. */
  function Serialize(c: Command, encode: Command -> Json): (es: seq<Envelope.Element>)
    ensures |es| == 2 && es[0].index == Envelope.OP_INDEX && es[1].index == Envelope.DATA_INDEX
    ensures c.Heartbeat? ==> es[1].value == JObject(map["nonce" := JNumber(c.nonce)])
    ensures !c.Heartbeat? ==> es[1].value == encode(c)
  {
    [Envelope.Element(Envelope.OP_INDEX, JNumber(GatewayEventOp.Serialize(OpOf(c)))),
     Envelope.Element(Envelope.DATA_INDEX, if c.Heartbeat? then JObject(map["nonce" := JNumber(c.nonce)]) else encode(c))]
  }

  /** Distinct commands kinds go out under distinct ops, and the gateway's
      heartbeat acknowledgement format reads a heartbeat's nonce back. */
  lemma HeartbeatEchoes(c: Command, c': Command, nonce: Long, encode: Command -> Json)
    ensures OpOf(c) == OpOf(c') <==> (c.SelectProtocol? && c'.SelectProtocol?) || (c.Heartbeat? && c'.Heartbeat?) ||
                                     (c.ClientConnect? && c'.ClientConnect?) || (c.Identify? && c'.Identify?) ||
                                     (c.Speaking? && c'.Speaking?)
    ensures GatewayEvent.DecodeHeartbeatAck(Serialize(Heartbeat(nonce), encode)[1].value) == Ok(nonce)
  {
    QuotedLongReadsBack(nonce);
  }
}

/** `UUIDSerializer`: a UUID travels as its canonical text. The UUID is held
    as the five hyphen-separated fields of that text. */
module Uuid {
  import opened Wrappers
  import opened KotlinInt

  datatype Uuid = Uuid(timeLow: nat, timeMid: nat, timeHigh: nat, clockSeq: nat, node: nat)
  {
    predicate Valid()
    {
      timeLow < Pow16(8) && timeMid < Pow16(4) && timeHigh < Pow16(4) && clockSeq < Pow16(4) && node < Pow16(12)
    }
  }

  function Pow16(n: nat): (p: nat)
    ensures p >= 1
  {
    if n == 0 then 1 else 16 * Pow16(n - 1)
  }

  function HexDigit(d: nat): (c: char)
    requires d < 16
  {
    "0123456789abcdef"[d]
  }

  /** The value of a hexadecimal digit, either case; -1 for any other char. */
  function DigitValue(c: char): (v: int)
    ensures -1 <= v < 16
    ensures v >= 0 ==> HexDigit(v) == c || ('A' <= c <= 'F' && v == c as int - 'A' as int + 10)
  {
    if '0' <= c <= '9' then c as int - '0' as int
    else if 'a' <= c <= 'f' then c as int - 'a' as int + 10
    else if 'A' <= c <= 'F' then c as int - 'A' as int + 10
    else -1
  }

  /** The low `w` hexadecimal digits of `n`, lower case, zero padded. */
  function Hex(n: nat, w: nat): (s: string)
    ensures |s| == w
    ensures forall i :: 0 <= i < |s| ==> DigitValue(s[i]) >= 0
  {
    if w == 0 then [] else Hex(n / 16, w - 1) + [HexDigit(n % 16)]
  }

  predicate IsHex(s: string)
  {
    forall i :: 0 <= i < |s| ==> DigitValue(s[i]) >= 0
  }

  function ParseHex(s: string): (n: nat)
    requires IsHex(s)
    ensures n < Pow16(|s|)
  {
    if s == [] then 0 else ParseHex(s[..|s| - 1]) * 16 + DigitValue(s[|s| - 1])
  }

  /** Reading back `w` digits of a number below 16^w gives the number. */
  lemma {:induction false} ParseHexInverts(n: nat, w: nat)
    requires n < Pow16(w)
    ensures ParseHex(Hex(n, w)) == n
    decreases w
  {
    if w > 0 {
      var s := Hex(n, w);
      assert s[..|s| - 1] == Hex(n / 16, w - 1);
      ParseHexInverts(n / 16, w - 1);
    }
  }

  /** `UUID.toString`: 8-4-4-4-12 lower-case hexadecimal digits. */
  function ToString(u: Uuid): (s: string)
    ensures |s| == 36 && s[8] == '-' && s[13] == '-' && s[18] == '-' && s[23] == '-'
  {
    Hex(u.timeLow, 8) + "-" + Hex(u.timeMid, 4) + "-" + Hex(u.timeHigh, 4) + "-" +
    Hex(u.clockSeq, 4) + "-" + Hex(u.node, 12)
  }

  /** The text between hyphens, every empty field kept: "a-" is ["a", ""]. */
  function Fields(s: string): (r: seq<string>)
    ensures |r| >= 1
    decreases |s|
  {
    if s == [] then [[]]
    else
      var rest := Fields(s[1..]);
      if s[0] == '-' then [[]] + rest else [[s[0]] + rest[0]] + rest[1..]
  }

  /** The fields joined back with hyphens. */
  function Join(fs: seq<string>): (s: string)
    requires |fs| >= 1
    decreases |fs|
  {
    if |fs| == 1 then fs[0] else fs[0] + "-" + Join(fs[1..])
  }

  /** Splitting loses nothing: joining the fields gives the text back. */
  lemma {:induction false} JoinFields(s: string)
    ensures Join(Fields(s)) == s
    decreases |s|
  {
    if s != [] {
      var rest := Fields(s[1..]);
      var fs := Fields(s);
      JoinFields(s[1..]);
      assert s == [s[0]] + s[1..];
      if s[0] == '-' {
        assert fs[1..] == rest;
        assert Join(fs) == [] + "-" + Join(rest);
      } else if |rest| == 1 {
        assert Join(fs) == [s[0]] + Join(rest);
      } else {
        assert fs == [[s[0]] + rest[0]] + rest[1..];
        assert fs[1..] == rest[1..];
        assert Join(fs) == ([s[0]] + rest[0]) + "-" + Join(rest[1..]);
        assert Join(rest) == rest[0] + "-" + Join(rest[1..]);
      }
    }
  }

  /** No field holds a hyphen. */
  lemma {:induction false} FieldsHaveNoHyphen(s: string)
    ensures forall i :: 0 <= i < |Fields(s)| ==> '-' !in Fields(s)[i]
    decreases |s|
  {
    if s != [] {
      var rest := Fields(s[1..]);
      var fs := Fields(s);
      FieldsHaveNoHyphen(s[1..]);
      forall i | 0 <= i < |fs|
        ensures '-' !in fs[i]
      {
        if s[0] == '-' {
          if i > 0 {
            assert fs[i] == rest[i - 1];
          }
        } else if i == 0 {
          assert fs[0] == [s[0]] + rest[0];
        } else {
          assert fs[i] == rest[i];
        }
      }
    }
  }

  /** A piece without hyphens is the first field of whatever follows it. */
  lemma {:induction false} FieldsPrefix(a: string, t: string)
    requires '-' !in a
    ensures Fields(a + t) == [a + Fields(t)[0]] + Fields(t)[1..]
    decreases |a|
  {
    var ft := Fields(t);
    if a != [] {
      assert (a + t)[1..] == a[1..] + t;
      assert a[0] != '-' && '-' !in a[1..];
      FieldsPrefix(a[1..], t);
      assert [a[0]] + (a[1..] + ft[0]) == a + ft[0];
    } else {
      assert a + t == t;
      assert a + ft[0] == ft[0];
      assert ft == [ft[0]] + ft[1..];
    }
  }

  /** A hyphen ends a field. */
  lemma FieldsSplit(a: string, t: string)
    requires '-' !in a
    ensures Fields(a + "-" + t) == [a] + Fields(t)
  {
    var h := "-" + t;
    assert a + "-" + t == a + h;
    FieldsPrefix(a, h);
    assert h[0] == '-' && h[1..] == t;
    assert Fields(h) == [[]] + Fields(t);
    assert a + [] == a;
  }

  /** A piece without hyphens is one field. */
  lemma FieldsWhole(a: string)
    requires '-' !in a
    ensures Fields(a) == [a]
  {
    FieldsPrefix(a, []);
    assert a + [] == a;
  }

  /** A field without the leading '+' that `Long.parseLong` accepts. */
  function Unsigned(f: string): (d: string)
    ensures d == f || (f != [] && f[0] == '+' && d == f[1..])
  {
    if f != [] && f[0] == '+' then f[1..] else f
  }

  /** `Long.parseLong(name, begin, end, 16)` on one field, which holds no
      '-' (a minus sign would have counted as a separator): an optional '+',
      then at least one hexadecimal digit, worth at most Long.MAX_VALUE. */
  function ParseField(f: string): (r: Result<nat, Failure>)
    ensures r.Ok? <==> Unsigned(f) != [] && IsHex(Unsigned(f)) && ParseHex(Unsigned(f)) <= LONG_MAX
    ensures r.Ok? ==> r.value == ParseHex(Unsigned(f)) && r.value < Pow16(|Unsigned(f)|)
    ensures r.Err? ==> r.error == NumberFormat
  {
    var d := Unsigned(f);
    if d != [] && IsHex(d) && ParseHex(d) <= LONG_MAX then Ok(ParseHex(d)) else Err(NumberFormat)
  }

  /** `UUID.fromString`: at most 36 characters, exactly five hyphen-separated
      fields, each a hexadecimal `Long` masked to its width (32, 16, 16, 16
      and 48 bits). A bad layout is IllegalArgumentException, a bad field
      its subclass NumberFormatException. */
  function FromString(s: string): (r: Result<Uuid, Failure>)
    ensures |s| > 36 ==> r == Err(IllegalArgument)
    ensures |s| <= 36 && |Fields(s)| != 5 ==> r == Err(IllegalArgument)
    ensures r.Ok? <==> |s| <= 36 && |Fields(s)| == 5 && AllParse(Fields(s))
    ensures r.Ok? ==> r.value.Valid() && r.value == Masked(Fields(s))
    ensures r.Err? ==> r.error == IllegalArgument || r.error == NumberFormat
  {
    if |s| > 36 then Err(IllegalArgument)
    else
      var f := Fields(s);
      if |f| != 5 then Err(IllegalArgument)
      else if !AllParse(f) then Err(NumberFormat)
      else Ok(Masked(f))
  }

  /** Every one of the five fields is a valid hexadecimal `Long`. */
  predicate AllParse(f: seq<string>)
    requires |f| == 5
  {
    ParseField(f[0]).Ok? && ParseField(f[1]).Ok? && ParseField(f[2]).Ok? &&
    ParseField(f[3]).Ok? && ParseField(f[4]).Ok?
  }

  /** The five values masked to 32, 16, 16, 16 and 48 bits. */
  function Masked(f: seq<string>): (u: Uuid)
    requires |f| == 5 && AllParse(f)
    ensures u.Valid()
  {
    Uuid(ParseField(f[0]).value % Pow16(8), ParseField(f[1]).value % Pow16(4),
         ParseField(f[2]).value % Pow16(4), ParseField(f[3]).value % Pow16(4),
         ParseField(f[4]).value % Pow16(12))
  }

  lemma Pow16Values()
    ensures Pow16(4) == 0x1_0000 && Pow16(8) == 0x1_0000_0000 && Pow16(12) == 0x1_0000_0000_0000
  {
    assert Pow16(4) == 0x1_0000;
    assert Pow16(8) == 0x1_0000 * Pow16(4) by {
      assert Pow16(8) == 16 * 16 * 16 * 16 * Pow16(4);
    }
    assert Pow16(12) == 0x1_0000 * Pow16(8) by {
      assert Pow16(12) == 16 * 16 * 16 * 16 * Pow16(8);
    }
  }

  /** A field written with exactly its width in digits reads back as itself. */
  lemma HexFieldReads(n: nat, w: nat)
    requires 0 < w <= 12 && n < Pow16(w)
    ensures '-' !in Hex(n, w)
    ensures ParseField(Hex(n, w)) == Ok(n)
  {
    var h := Hex(n, w);
    assert DigitValue(h[0]) >= 0;
    assert Unsigned(h) == h;
    ParseHexInverts(n, w);
    PowMonotone(w, 12);
    Pow16Values();
  }

  lemma {:induction false} PowMonotone(a: nat, b: nat)
    requires a <= b
    ensures Pow16(a) <= Pow16(b)
    decreases b
  {
    if a < b {
      PowMonotone(a, b - 1);
    }
  }

  /** Five pieces joined by hyphens. */
  function Join5(a: string, b: string, c: string, d: string, e: string): (s: string)
    ensures |s| == |a| + |b| + |c| + |d| + |e| + 4
  {
    a + "-" + (b + "-" + (c + "-" + (d + "-" + e)))
  }

  /** Five valid fields, short enough together, give the UUID of their
      masked values. */
  lemma FromFiveFields(a: string, b: string, c: string, d: string, e: string)
    requires '-' !in a && '-' !in b && '-' !in c && '-' !in d && '-' !in e
    requires |Join5(a, b, c, d, e)| <= 36
    requires ParseField(a).Ok? && ParseField(b).Ok? && ParseField(c).Ok? && ParseField(d).Ok? && ParseField(e).Ok?
    ensures FromString(Join5(a, b, c, d, e)) ==
            Ok(Uuid(ParseField(a).value % Pow16(8), ParseField(b).value % Pow16(4), ParseField(c).value % Pow16(4),
                    ParseField(d).value % Pow16(4), ParseField(e).value % Pow16(12)))
  {
    FiveFields(a, b, c, d, e);
    var f := [a, b, c, d, e];
    assert f[0] == a && f[1] == b && f[2] == c && f[3] == d && f[4] == e;
    assert AllParse(f);
  }

  /** Splitting five hyphen-free pieces joined by hyphens gives them back. */
  lemma FiveFields(a: string, b: string, c: string, d: string, e: string)
    requires '-' !in a && '-' !in b && '-' !in c && '-' !in d && '-' !in e
    ensures Fields(Join5(a, b, c, d, e)) == [a, b, c, d, e]
  {
    FieldsWhole(e);
    FieldsSplit(d, e);
    FieldsSplit(c, d + "-" + e);
    FieldsSplit(b, c + "-" + (d + "-" + e));
    FieldsSplit(a, b + "-" + (c + "-" + (d + "-" + e)));
  }

  /** The JDK's layout check: every string of the canonical 8-4-4-4-12 shape
      parses to the values of its five digit groups. */
  lemma CanonicalLayoutParses(s: string)
    requires |s| == 36 && s[8] == '-' && s[13] == '-' && s[18] == '-' && s[23] == '-'
    requires IsHex(s[0..8]) && IsHex(s[9..13]) && IsHex(s[14..18]) && IsHex(s[19..23]) && IsHex(s[24..36])
    ensures FromString(s) == Ok(Uuid(ParseHex(s[0..8]), ParseHex(s[9..13]), ParseHex(s[14..18]),
                                     ParseHex(s[19..23]), ParseHex(s[24..36])))
  {
    var a, b, c, d, e := s[0..8], s[9..13], s[14..18], s[19..23], s[24..36];
    assert s == Join5(a, b, c, d, e);
    GroupReads(a);
    GroupReads(b);
    GroupReads(c);
    GroupReads(d);
    GroupReads(e);
    FromFiveFields(a, b, c, d, e);
  }

  /** A digit group of at most twelve digits is a field worth its digits,
      unchanged by masking to its own width. */
  lemma GroupReads(a: string)
    requires IsHex(a) && 0 < |a| <= 12
    ensures '-' !in a
    ensures ParseField(a) == Ok(ParseHex(a))
    ensures ParseHex(a) % Pow16(|a|) == ParseHex(a)
  {
    HexNoHyphen(a);
    GroupBound(a);
    ModSmall(ParseHex(a), Pow16(|a|));
  }

  /** Digits hold no hyphen and no sign. */
  lemma HexNoHyphen(a: string)
    requires IsHex(a) && a != []
    ensures '-' !in a && Unsigned(a) == a
  {
    assert DigitValue(a[0]) >= 0;
  }

  /** Twelve digits fit a `Long`. */
  lemma GroupBound(a: string)
    requires IsHex(a) && |a| <= 12
    ensures ParseHex(a) <= LONG_MAX
  {
    PowMonotone(|a|, 12);
    Pow16Values();
  }

  lemma ModSmall(x: nat, m: nat)
    requires x < m
    ensures x % m == x
  {
  }

  /** Short fields are accepted: "1-2-3-4-5" is 00000001-0002-0003-0004-000000000005. */
  lemma ShortFieldsAccepted()
    ensures FromString("1-2-3-4-5") == Ok(Uuid(1, 2, 3, 4, 5))
  {
    assert "1-2-3-4-5" == Join5("1", "2", "3", "4", "5");
    DigitReads('1');
    DigitReads('2');
    DigitReads('3');
    DigitReads('4');
    DigitReads('5');
    FromFiveFields("1", "2", "3", "4", "5");
    Pow16Values();
    ModSmall(1, Pow16(8));
    ModSmall(2, Pow16(4));
    ModSmall(3, Pow16(4));
    ModSmall(4, Pow16(4));
    ModSmall(5, Pow16(12));
  }

  /** A single hexadecimal digit is a field worth that digit. */
  lemma DigitReads(c: char)
    requires DigitValue(c) >= 0
    ensures '-' !in [c] && ParseField([c]) == Ok(DigitValue(c))
  {
    assert [c][..0] == [];
  }

  /** Digits written after others shift them up: `a + b` is worth `a`
      times 16 to the length of `b`, plus `b`. */
  lemma {:induction false} ParseHexConcat(a: string, b: string)
    requires IsHex(a) && IsHex(b)
    ensures IsHex(a + b)
    ensures ParseHex(a + b) == ParseHex(a) * Pow16(|b|) + ParseHex(b)
    decreases |b|
  {
    if b == [] {
      assert a + b == a;
    } else {
      var b' := b[..|b| - 1];
      assert IsHex(b');
      assert (a + b)[..|a + b| - 1] == a + b';
      assert (a + b)[|a + b| - 1] == b[|b| - 1];
      ParseHexConcat(a, b');
      ShiftStep(ParseHex(a), Pow16(|b'|), ParseHex(b'), DigitValue(b[|b| - 1]));
    }
  }

  lemma ShiftStep(x: int, y: int, z: int, d: int)
    ensures (x * y + z) * 16 + d == x * (16 * y) + (z * 16 + d)
  {
    assert (x * y + z) * 16 == (x * y) * 16 + z * 16;
    assert (x * y) * 16 == x * (16 * y);
  }

  /** A field longer than its width is cut to its low digits: a ninth digit
      in front of the first group is dropped. */
  lemma LongFieldMasked(n: nat)
    requires n < Pow16(8)
    ensures FromString(Join5("1" + Hex(n, 8), "0", "0", "0", "0")) == Ok(Uuid(n, 0, 0, 0, 0))
  {
    var a := "1" + Hex(n, 8);
    NineDigitField(n);
    DigitReads('0');
    FromFiveFields(a, "0", "0", "0", "0");
    ModShift(n, Pow16(8));
    ModSmall(0, Pow16(4));
    ModSmall(0, Pow16(12));
  }

  /** "1" before eight digits is a field worth 16^8 more than those digits. */
  lemma NineDigitField(n: nat)
    requires n < Pow16(8)
    ensures var a := "1" + Hex(n, 8);
            |a| == 9 && '-' !in a && ParseField(a) == Ok(Pow16(8) + n)
  {
    var a := "1" + Hex(n, 8);
    ParseHexInverts(n, 8);
    ParseHexConcat("1", Hex(n, 8));
    assert ParseHex("1") == 1;
    HexNoHyphen(a);
    NineDigitBound(n);
  }

  lemma NineDigitBound(n: nat)
    requires n < Pow16(8)
    ensures Pow16(8) + n <= LONG_MAX
  {
    Pow16Values();
  }

  lemma ModShift(x: nat, m: nat)
    requires x < m
    ensures (m + x) % m == x
  {
  }

  /** The serializer's two directions are inverse: every UUID survives. */
  lemma RoundTrip(u: Uuid)
    requires u.Valid()
    ensures FromString(ToString(u)) == Ok(u)
  {
    var a, b, c, d, e := Hex(u.timeLow, 8), Hex(u.timeMid, 4), Hex(u.timeHigh, 4), Hex(u.clockSeq, 4), Hex(u.node, 12);
    assert ToString(u) == Join5(a, b, c, d, e);
    HexFieldReads(u.timeLow, 8);
    HexFieldReads(u.timeMid, 4);
    HexFieldReads(u.timeHigh, 4);
    HexFieldReads(u.clockSeq, 4);
    HexFieldReads(u.node, 12);
    FromFiveFields(a, b, c, d, e);
    ModSmall(u.timeLow, Pow16(8));
    ModSmall(u.timeMid, Pow16(4));
    ModSmall(u.timeHigh, Pow16(4));
    ModSmall(u.clockSeq, Pow16(4));
    ModSmall(u.node, Pow16(12));
  }

}
