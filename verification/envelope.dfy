/** The hand-written `op`/`d` decoders shared in shape by the server
    operations and the voice-gateway events.

    The JSON object is seen as the decoder sees it: the sequence of element
    indices `decodeElementIndex` returns (0 for `op`, 1 for `d`) with the
    value at each. The `when (op)` that picks a payload serializer is the
    parameter `payload`; how `op` itself is read is `readOp`. */
module Envelope {
  import opened Wrappers
  import opened Json

  const OP_INDEX: int := 0
  const DATA_INDEX: int := 1

  datatype Element = Element(index: int, value: Json)

  /** What the `when (op)` does with a `d` element: decode it with a payload
      serializer, or fall to the `else` branch. */
  datatype Branch<T> = Decoded(result: Result<T, Failure>) | Unmatched

  /** What the `else` branch does while no data has been decoded: raise
      (`error(...)`, an IllegalStateException) or skip the element. */
  datatype Orphan = Reject | Skip

  /** The locals `op` and `data`. */
  datatype State<O, T> = State(op: Option<O>, data: Option<T>)

  /** One turn of the decoding loop. */
  function Step<O, T>(s: State<O, T>, e: Element, readOp: Json -> Result<O, Failure>,
                      payload: (Option<O>, Json) -> Branch<T>, orphan: Orphan): Result<State<O, T>, Failure>
  {
    if e.index == OP_INDEX then
      match readOp(e.value)
      case Ok(op) => Ok(s.(op := Some(op)))
      case Err(f) => Err(f)
    else if e.index == DATA_INDEX then
      match payload(s.op, e.value)
      case Decoded(Ok(t)) => Ok(s.(data := Some(t)))
      case Decoded(Err(f)) => Err(f)
      case Unmatched => if orphan == Reject && s.data.None? then Err(IllegalState) else Ok(s)
    else Ok(s)
  }

  /** The loop up to `DECODE_DONE`, over all elements in order. */
  function Run<O, T>(es: seq<Element>, readOp: Json -> Result<O, Failure>,
                     payload: (Option<O>, Json) -> Branch<T>, orphan: Orphan): Result<State<O, T>, Failure>
    decreases |es|
  {
    if es == [] then Ok(State(None, None))
    else
      match Run(es[..|es| - 1], readOp, payload, orphan)
      case Ok(s) => Step(s, es[|es| - 1], readOp, payload, orphan)
      case Err(f) => Err(f)
  }

  /** `deserialize`: the final `data`. */
  function Deserialize<O, T>(es: seq<Element>, readOp: Json -> Result<O, Failure>,
                             payload: (Option<O>, Json) -> Branch<T>, orphan: Orphan): Result<Option<T>, Failure>
  {
    match Run(es, readOp, payload, orphan)
    case Ok(s) => Ok(s.data)
    case Err(f) => Err(f)
  }

  /** A message without a `d` element decodes to null, and it fails exactly
      when one of its `op` values cannot be read. */
  lemma {:induction false} MissingDataIsNull<O, T>(es: seq<Element>, readOp: Json -> Result<O, Failure>,
                                                   payload: (Option<O>, Json) -> Branch<T>, orphan: Orphan)
    requires forall i :: 0 <= i < |es| ==> es[i].index != DATA_INDEX
    ensures Deserialize(es, readOp, payload, orphan).Ok? <==>
              forall i :: 0 <= i < |es| && es[i].index == OP_INDEX ==> readOp(es[i].value).Ok?
    ensures Deserialize(es, readOp, payload, orphan).Ok? ==> Deserialize(es, readOp, payload, orphan).value.None?
    decreases |es|
  {
    if es != [] {
      var init := es[..|es| - 1];
      MissingDataIsNull(init, readOp, payload, orphan);
      assert forall i :: 0 <= i < |init| ==> init[i] == es[i];
    }
  }

  /** The `d` element is decoded by the serializer the most recently read
      `op` selects, whatever came before; without a payload serializer the
      data decoded earlier is kept, or the message is rejected. */
  lemma LatestOpSelectsDecoder<O, T>(es: seq<Element>, x: Json, v: Json, readOp: Json -> Result<O, Failure>,
                                     payload: (Option<O>, Json) -> Branch<T>, orphan: Orphan)
    requires Run(es, readOp, payload, orphan).Ok? && readOp(x).Ok?
    ensures var s := Run(es, readOp, payload, orphan).value;
            var r := Deserialize(es + [Element(OP_INDEX, x), Element(DATA_INDEX, v)], readOp, payload, orphan);
            match payload(Some(readOp(x).value), v)
            case Decoded(Ok(t)) => r == Ok(Some(t))
            case Decoded(Err(f)) => r == Err(f)
            case Unmatched => r == (if orphan == Reject && s.data.None? then Err(IllegalState) else Ok(s.data))
  {
    var s := Run(es, readOp, payload, orphan).value;
    var mid := es + [Element(OP_INDEX, x)];
    var all := es + [Element(OP_INDEX, x), Element(DATA_INDEX, v)];
    assert mid[..|mid| - 1] == es;
    assert Run(mid, readOp, payload, orphan) == Ok(s.(op := Some(readOp(x).value)));
    assert all[..|all| - 1] == mid;
    assert Run(all, readOp, payload, orphan) ==
           Step(s.(op := Some(readOp(x).value)), Element(DATA_INDEX, v), readOp, payload, orphan);
  }

  /** Decoding continues from the state reached so far: two prefixes that
      end in the same state decode every continuation alike. */
  lemma {:induction false} RunContinues<O, T>(p: seq<Element>, q: seq<Element>, rest: seq<Element>,
                                              readOp: Json -> Result<O, Failure>,
                                              payload: (Option<O>, Json) -> Branch<T>, orphan: Orphan)
    requires Run(p, readOp, payload, orphan) == Run(q, readOp, payload, orphan)
    ensures Run(p + rest, readOp, payload, orphan) == Run(q + rest, readOp, payload, orphan)
    decreases |rest|
  {
    if rest == [] {
      assert p + rest == p && q + rest == q;
    } else {
      var init := rest[..|rest| - 1];
      RunContinues(p, q, init, readOp, payload, orphan);
      assert (p + rest)[..|p + rest| - 1] == p + init;
      assert (q + rest)[..|q + rest| - 1] == q + init;
    }
  }

  /** Once the loop has raised, nothing after it is read. */
  lemma {:induction false} ErrorStops<O, T>(p: seq<Element>, rest: seq<Element>, readOp: Json -> Result<O, Failure>,
                                            payload: (Option<O>, Json) -> Branch<T>, orphan: Orphan)
    requires Run(p, readOp, payload, orphan).Err?
    ensures Run(p + rest, readOp, payload, orphan) == Run(p, readOp, payload, orphan)
    decreases |rest|
  {
    if rest == [] {
      assert p + rest == p;
    } else {
      var init := rest[..|rest| - 1];
      ErrorStops(p, init, readOp, payload, orphan);
      assert (p + rest)[..|p + rest| - 1] == p + init;
    }
  }

  /** A `d` element read before any `op` falls to the `else` branch when the
      payload choice sends a null op there: the operation decoders then
      raise, whatever follows, and the event decoder ignores it. */
  lemma DataBeforeOp<O, T>(v: Json, rest: seq<Element>, readOp: Json -> Result<O, Failure>,
                           payload: (Option<O>, Json) -> Branch<T>, orphan: Orphan)
    requires payload(None, v) == Unmatched
    ensures orphan == Reject ==>
              Deserialize([Element(DATA_INDEX, v)] + rest, readOp, payload, orphan) == Err(IllegalState)
    ensures orphan == Skip ==>
              Deserialize([Element(DATA_INDEX, v)] + rest, readOp, payload, orphan) ==
              Deserialize(rest, readOp, payload, orphan)
  {
    var d := [Element(DATA_INDEX, v)];
    assert d[..0] == [];
    if orphan == Reject {
      ErrorStops(d, rest, readOp, payload, orphan);
    } else {
      RunContinues(d, [], rest, readOp, payload, orphan);
      assert [] + rest == rest;
    }
  }
}

/** `obsidian.server.io.ws.Operation`: client operations of the current
    protocol. The payload classes' own decoders are the parameter `decode`;
    the payloads whose defaults matter are decoded concretely below. */
module WsOperation {
  import opened Wrappers
  import opened KotlinInt
  import opened Json
  import LongAsString
  import Envelope
  import WsOp

  /** The ops the `when (op)` has a payload serializer for. */
  predicate HasPayload(op: WsOp.Op)
  {
    op in {WsOp.SUBMIT_VOICE_UPDATE, WsOp.PLAY_TRACK, WsOp.STOP_TRACK, WsOp.PAUSE, WsOp.FILTERS,
           WsOp.SEEK, WsOp.DESTROY, WsOp.SETUP_RESUMING, WsOp.SETUP_DISPATCH_BUFFER, WsOp.CONFIGURE}
  }

  /** `Op.deserialize`: `decodeShort`, a numeric literal, bare or quoted,
      whose Long value fits a short. */
  function ReadOp(j: Json): (r: Result<WsOp.Op, Failure>)
    ensures r.Err? ==> r.error == SerializationError
    ensures r.Ok? ==> j.JNumber? || j.JString?
    ensures ReadLong(j).Err? ==> r.Err?
    ensures ReadLong(j).Ok? ==> r == WsOp.Deserialize(ReadLong(j).value)
  {
    match ReadLong(j)
    case Ok(code) => WsOp.Deserialize(code)
    case Err(f) => Err(f)
  }

  /** Every op reads back from its code, bare or in quotes. */
  lemma QuotedOpReadsBack(op: WsOp.Op)
    ensures ReadOp(JNumber(WsOp.Serialize(op))) == Ok(op)
    ensures ReadOp(JString(LongAsString.ToDecimal(WsOp.Serialize(op)))) == Ok(op)
  {
    WsOp.RoundTrip(op);
    QuotedLongReadsBack(WsOp.Serialize(op));
  }

  function Payloads<T>(decode: (WsOp.Op, Json) -> Result<T, Failure>): (Option<WsOp.Op>, Json) -> Envelope.Branch<T>
  {
    (op: Option<WsOp.Op>, v: Json) =>
      if op.Some? && HasPayload(op.value) then Envelope.Decoded(decode(op.value, v)) else Envelope.Unmatched
  }

  function Deserialize<T>(es: seq<Envelope.Element>, decode: (WsOp.Op, Json) -> Result<T, Failure>): Result<Option<T>, Failure>
  {
    Envelope.Deserialize(es, ReadOp, Payloads(decode), Envelope.Reject)
  }

  /** The two-element envelope for `op` and `v`. */
  function Pair(op: WsOp.Op, v: Json): (es: seq<Envelope.Element>)
    ensures |es| == 2 && es[1] == Envelope.Element(Envelope.DATA_INDEX, v)
  {
    [Envelope.Element(Envelope.OP_INDEX, JNumber(WsOp.Serialize(op))), Envelope.Element(Envelope.DATA_INDEX, v)]
  }

  /** The ops the `when (op)` has no payload serializer for. */
  lemma NoPayloadOps(op: WsOp.Op)
    ensures !HasPayload(op) <==> op in {WsOp.UNKNOWN, WsOp.STATS, WsOp.PLAYER_EVENT, WsOp.PLAYER_UPDATE}
  {
  }

  /** The envelope's payload goes to the op's serializer, or is orphaned. */
  lemma PairSelectsPayload<T>(op: WsOp.Op, v: Json, decode: (WsOp.Op, Json) -> Result<T, Failure>)
    ensures var r := Deserialize(Pair(op, v), decode);
            r == match Payloads(decode)(Some(op), v)
                 case Decoded(Ok(t)) => Ok(Some(t))
                 case Decoded(Err(f)) => Err(f)
                 case Unmatched => Err(IllegalState)
  {
    QuotedOpReadsBack(op);
    var x := JNumber(WsOp.Serialize(op));
    Envelope.LatestOpSelectsDecoder([], x, v, ReadOp, Payloads(decode), Envelope.Reject);
    assert [] + Pair(op, v) == Pair(op, v);
  }

  /** `{"op": code(op), "d": v}` decodes `v` with the op's payload serializer,
      and is rejected for the four ops that carry no client payload. */
  lemma EnvelopeRoundTrip<T>(op: WsOp.Op, v: Json, decode: (WsOp.Op, Json) -> Result<T, Failure>)
    ensures var r := Deserialize([Envelope.Element(Envelope.OP_INDEX, JNumber(WsOp.Serialize(op))),
                                  Envelope.Element(Envelope.DATA_INDEX, v)], decode);
            (HasPayload(op) ==> r == match decode(op, v) case Ok(t) => Ok(Some(t)) case Err(f) => Err(f)) &&
            (!HasPayload(op) <==> r == Err(IllegalState) && op in {WsOp.UNKNOWN, WsOp.STATS, WsOp.PLAYER_EVENT, WsOp.PLAYER_UPDATE})
  {
    PairSelectsPayload(op, v, decode);
    NoPayloadOps(op);
  }

  /** A `d` before any `op` is an error, whatever follows. */
  lemma DataFirstIsRejected<T>(v: Json, rest: seq<Envelope.Element>, decode: (WsOp.Op, Json) -> Result<T, Failure>)
    ensures Deserialize([Envelope.Element(Envelope.DATA_INDEX, v)] + rest, decode) == Err(IllegalState)
  {
    Envelope.DataBeforeOp(v, rest, ReadOp, Payloads(decode), Envelope.Reject);
  }

  datatype PlayTrack = PlayTrack(track: string, guildId: Long, noReplace: bool, startTime: Long, endTime: Long)

  /** The generated `PlayTrack` decoder: `track` and `guild_id` are required;
      `no_replace`, `start_time` and `end_time` default to false, 0 and 0.
      Every field is read leniently. */
  function DecodePlayTrack(j: Json): (r: Result<PlayTrack, Failure>)
    ensures r.Ok? ==> Has(j, "track") && ReadString(j.fields["track"]) == Ok(r.value.track) &&
                      Has(j, "guild_id") && ReadLong(j.fields["guild_id"]) == Ok(r.value.guildId)
    ensures r.Ok? ==> (if Has(j, "no_replace") then ReadBool(j.fields["no_replace"]) == Ok(r.value.noReplace)
                       else !r.value.noReplace)
    ensures r.Ok? ==> (if Has(j, "start_time") then ReadLong(j.fields["start_time"]) == Ok(r.value.startTime)
                       else r.value.startTime == 0)
    ensures r.Ok? ==> (if Has(j, "end_time") then ReadLong(j.fields["end_time"]) == Ok(r.value.endTime)
                       else r.value.endTime == 0)
    ensures !Has(j, "track") || !Has(j, "guild_id") ==> r == Err(SerializationError)
    ensures (Has(j, "track") && ReadString(j.fields["track"]).Ok? && Has(j, "guild_id") && ReadLong(j.fields["guild_id"]).Ok? &&
             (Has(j, "no_replace") ==> ReadBool(j.fields["no_replace"]).Ok?) &&
             (Has(j, "start_time") ==> ReadLong(j.fields["start_time"]).Ok?) &&
             (Has(j, "end_time") ==> ReadLong(j.fields["end_time"]).Ok?)) ==> r.Ok?
  {
    var track :- Required(j, "track", ReadString);
    var guildId :- Required(j, "guild_id", ReadLong);
    var noReplace :- Optional(j, "no_replace", ReadBool, false);
    var startTime :- Optional(j, "start_time", ReadLong, 0);
    var endTime :- Optional(j, "end_time", ReadLong, 0);
    Ok(PlayTrack(track, guildId, noReplace, startTime, endTime))
  }

  /** The JSON object a client writes for a PlayTrack, every field present. */
  function EncodePlayTrack(p: PlayTrack): Json
  {
    JObject(map["track" := JString(p.track), "guild_id" := JNumber(p.guildId),
                "no_replace" := JBool(p.noReplace), "start_time" := JNumber(p.startTime),
                "end_time" := JNumber(p.endTime)])
  }

  /** Decoding a fully written PlayTrack gives it back, and the three
      optional fields fall back to their defaults when left out. */
  lemma PlayTrackRoundTrip(p: PlayTrack)
    ensures DecodePlayTrack(EncodePlayTrack(p)) == Ok(p)
    ensures DecodePlayTrack(JObject(map["track" := JString(p.track), "guild_id" := JNumber(p.guildId)])) ==
            Ok(PlayTrack(p.track, p.guildId, false, 0, 0))
  {
    var j := EncodePlayTrack(p);
    assert j.fields.Keys == {"track", "guild_id", "no_replace", "start_time", "end_time"};
    assert ReadLong(j.fields["guild_id"]) == Ok(p.guildId) by { QuotedLongReadsBack(p.guildId); }
    assert ReadLong(j.fields["start_time"]) == Ok(p.startTime) by { QuotedLongReadsBack(p.startTime); }
    assert ReadLong(j.fields["end_time"]) == Ok(p.endTime) by { QuotedLongReadsBack(p.endTime); }
    FieldsReadAsPlayTrack(j, p);
    RequiredFieldsOnly(p);
  }

  /** The object with only `track` and `guild_id` takes the defaults. */
  lemma RequiredFieldsOnly(p: PlayTrack)
    ensures DecodePlayTrack(JObject(map["track" := JString(p.track), "guild_id" := JNumber(p.guildId)])) ==
            Ok(PlayTrack(p.track, p.guildId, false, 0, 0))
  {
    var j := JObject(map["track" := JString(p.track), "guild_id" := JNumber(p.guildId)]);
    assert j.fields.Keys == {"track", "guild_id"};
    assert !Has(j, "no_replace") && !Has(j, "start_time") && !Has(j, "end_time");
    assert ReadLong(j.fields["guild_id"]) == Ok(p.guildId) by { QuotedLongReadsBack(p.guildId); }
  }

  /** A client that quotes every literal is understood just the same. */
  lemma QuotedPlayTrackReads(p: PlayTrack)
    ensures DecodePlayTrack(JObject(map["track" := JString(p.track),
                                        "guild_id" := JString(LongAsString.ToDecimal(p.guildId)),
                                        "no_replace" := JString(if p.noReplace then "true" else "false"),
                                        "start_time" := JString(LongAsString.ToDecimal(p.startTime)),
                                        "end_time" := JString(LongAsString.ToDecimal(p.endTime))])) == Ok(p)
  {
    var j := JObject(map["track" := JString(p.track),
                         "guild_id" := JString(LongAsString.ToDecimal(p.guildId)),
                         "no_replace" := JString(if p.noReplace then "true" else "false"),
                         "start_time" := JString(LongAsString.ToDecimal(p.startTime)),
                         "end_time" := JString(LongAsString.ToDecimal(p.endTime))]);
    assert j.fields.Keys == {"track", "guild_id", "no_replace", "start_time", "end_time"};
    assert ReadLong(j.fields["guild_id"]) == Ok(p.guildId) by { QuotedLongReadsBack(p.guildId); }
    assert ReadLong(j.fields["start_time"]) == Ok(p.startTime) by { QuotedLongReadsBack(p.startTime); }
    assert ReadLong(j.fields["end_time"]) == Ok(p.endTime) by { QuotedLongReadsBack(p.endTime); }
    assert ReadBool(j.fields["no_replace"]) == Ok(p.noReplace) by { QuotedBoolReadsBack(p.noReplace); }
    FieldsReadAsPlayTrack(j, p);
  }

  /** An object whose five fields all read as `p`'s values decodes to `p`. */
  lemma FieldsReadAsPlayTrack(j: Json, p: PlayTrack)
    requires Has(j, "track") && ReadString(j.fields["track"]) == Ok(p.track)
    requires Has(j, "guild_id") && ReadLong(j.fields["guild_id"]) == Ok(p.guildId)
    requires Has(j, "no_replace") && ReadBool(j.fields["no_replace"]) == Ok(p.noReplace)
    requires Has(j, "start_time") && ReadLong(j.fields["start_time"]) == Ok(p.startTime)
    requires Has(j, "end_time") && ReadLong(j.fields["end_time"]) == Ok(p.endTime)
    ensures DecodePlayTrack(j) == Ok(p)
  {
  }

  datatype Pause = Pause(guildId: Long, state: bool)

  /** The generated `Pause` decoder: `state` defaults to true. */
  function DecodePause(j: Json): (r: Result<Pause, Failure>)
    ensures r.Ok? ==> Has(j, "guild_id") && ReadLong(j.fields["guild_id"]) == Ok(r.value.guildId)
    ensures r.Ok? ==> (if Has(j, "state") then ReadBool(j.fields["state"]) == Ok(r.value.state) else r.value.state)
    ensures !Has(j, "guild_id") ==> r == Err(SerializationError)
    ensures (Has(j, "guild_id") && ReadLong(j.fields["guild_id"]).Ok? &&
             (Has(j, "state") ==> ReadBool(j.fields["state"]).Ok?)) ==> r.Ok?
  {
    var guildId :- Required(j, "guild_id", ReadLong);
    var state :- Optional(j, "state", ReadBool, true);
    Ok(Pause(guildId, state))
  }

  /** `{"guild_id": "<id>", "state": "FALSE"}` pauses: quotes and letter
      case do not matter. */
  lemma QuotedStatePauses(guildId: Long)
    ensures DecodePause(JObject(map["guild_id" := JString(LongAsString.ToDecimal(guildId)),
                                    "state" := JString("FALSE")])) == Ok(Pause(guildId, false))
  {
    QuotedLongReadsBack(guildId);
    assert LowerAscii("FALSE") == "false";
  }

  datatype SetupResuming = SetupResuming(key: string, timeout: Option<Long>)

  /** The generated `SetupResuming` decoder: `timeout` must be present but
      may be null. */
  function DecodeSetupResuming(j: Json): (r: Result<SetupResuming, Failure>)
    ensures r.Ok? ==> Has(j, "key") && ReadString(j.fields["key"]) == Ok(r.value.key)
    ensures r.Ok? ==> Has(j, "timeout") && (r.value.timeout.None? <==> j.fields["timeout"] == JNull)
    ensures r.Ok? && r.value.timeout.Some? ==> ReadLong(j.fields["timeout"]) == Ok(r.value.timeout.value)
    ensures Has(j, "key") && ReadString(j.fields["key"]).Ok? && Has(j, "timeout") && j.fields["timeout"] == JNull ==>
              r == Ok(SetupResuming(ReadString(j.fields["key"]).value, None))
  {
    var key :- Required(j, "key", ReadString);
    var timeout :- Nullable(j, "timeout", ReadLong, false);
    Ok(SetupResuming(key, timeout))
  }
}

/** `obsidian.server.io.Operation`: the legacy operations, decoded against
    the legacy opcode table, in which Configure shares code 10 with
    SetupResuming. */
module LegacyOperation {
  import opened Wrappers
  import opened KotlinInt
  import opened Json
  import Envelope
  import LegacyOp

  predicate HasPayload(op: LegacyOp.Op)
  {
    op in {LegacyOp.SubmitVoiceUpdate, LegacyOp.PlayTrack, LegacyOp.StopTrack, LegacyOp.Pause,
           LegacyOp.Filters, LegacyOp.Seek, LegacyOp.Destroy, LegacyOp.SetupResuming,
           LegacyOp.SetupDispatchBuffer, LegacyOp.Configure}
  }

  /** `Op.deserialize`: `decodeInt`, a numeric literal, bare or quoted; it
      never reads as Configure. */
  function ReadOp(j: Json): (r: Result<LegacyOp.Op, Failure>)
    ensures r != Ok(LegacyOp.Configure)
    ensures ReadLong(j).Err? ==> r.Err?
    ensures ReadLong(j).Ok? ==> r == LegacyOp.Deserialize(ReadLong(j).value)
  {
    LegacyOp.ConfigureReadsAsSetupResuming();
    match ReadLong(j)
    case Ok(code) => LegacyOp.Deserialize(code)
    case Err(f) => Err(f)
  }

  function Payloads<T>(decode: (LegacyOp.Op, Json) -> Result<T, Failure>): (Option<LegacyOp.Op>, Json) -> Envelope.Branch<T>
  {
    (op: Option<LegacyOp.Op>, v: Json) =>
      if op.Some? && HasPayload(op.value) then Envelope.Decoded(decode(op.value, v)) else Envelope.Unmatched
  }

  function Deserialize<T>(es: seq<Envelope.Element>, decode: (LegacyOp.Op, Json) -> Result<T, Failure>): Result<Option<T>, Failure>
  {
    Envelope.Deserialize(es, ReadOp, Payloads(decode), Envelope.Reject)
  }

  /** The Configure branch is dead: two payload decoders that differ only on
      Configure decode every message alike. */
  lemma {:induction false} ConfigureBranchUnreachable<T>(es: seq<Envelope.Element>,
                                                        d1: (LegacyOp.Op, Json) -> Result<T, Failure>,
                                                        d2: (LegacyOp.Op, Json) -> Result<T, Failure>)
    requires forall op, v :: op != LegacyOp.Configure ==> d1(op, v) == d2(op, v)
    ensures Envelope.Run(es, ReadOp, Payloads(d1), Envelope.Reject) == Envelope.Run(es, ReadOp, Payloads(d2), Envelope.Reject)
    ensures Envelope.Run(es, ReadOp, Payloads(d1), Envelope.Reject).Ok? ==>
              Envelope.Run(es, ReadOp, Payloads(d1), Envelope.Reject).value.op != Some(LegacyOp.Configure)
    ensures Deserialize(es, d1) == Deserialize(es, d2)
    decreases |es|
  {
    if es != [] {
      ConfigureBranchUnreachable(es[..|es| - 1], d1, d2);
    }
  }

  /** A `d` before any `op` is an error, whatever follows. */
  lemma DataFirstIsRejected<T>(v: Json, rest: seq<Envelope.Element>, decode: (LegacyOp.Op, Json) -> Result<T, Failure>)
    ensures Deserialize([Envelope.Element(Envelope.DATA_INDEX, v)] + rest, decode) == Err(IllegalState)
  {
    Envelope.DataBeforeOp(v, rest, ReadOp, Payloads(decode), Envelope.Reject);
  }

  /** The legacy Filters payload. The filter settings are DSP objects whose
      decoders lie outside the model and stay JSON trees. */
  datatype Filters = Filters(
    guildId: Long, volume: Option<Json>, tremolo: Option<Json>, equalizer: Option<Json>,
    timescale: Option<Json>, karaoke: Option<Json>, channelMix: Option<Json>, vibrato: Option<Json>,
    rotation: Option<Json>, lowPass: Option<Json>)

  /** The generated decoder: every filter field defaults to null. */
  function DecodeFilters(j: Json): (r: Result<Filters, Failure>)
    ensures r.Ok? ==> Has(j, "guild_id") && ReadLong(j.fields["guild_id"]) == Ok(r.value.guildId)
    ensures r.Ok? && !Has(j, "volume") ==> r.value.volume.None?
    ensures r.Ok? && !Has(j, "channel_mix") ==> r.value.channelMix.None?
    ensures r.Ok? && !Has(j, "low_pass") ==> r.value.lowPass.None?
    ensures j.JObject? && j.fields.Keys == {"guild_id"} && ReadLong(j.fields["guild_id"]).Ok? ==>
              r == Ok(Filters(ReadLong(j.fields["guild_id"]).value, None, None, None, None, None, None, None, None, None))
  {
    var guildId :- Required(j, "guild_id", ReadLong);
    var volume := OptionalTree(j, "volume");
    var tremolo := OptionalTree(j, "tremolo");
    var equalizer := OptionalTree(j, "equalizer");
    var timescale := OptionalTree(j, "timescale");
    var karaoke := OptionalTree(j, "karaoke");
    var channelMix := OptionalTree(j, "channel_mix");
    var vibrato := OptionalTree(j, "vibrato");
    var rotation := OptionalTree(j, "rotation");
    var lowPass := OptionalTree(j, "low_pass");
    Ok(Filters(guildId, volume, tremolo, equalizer, timescale, karaoke, channelMix, vibrato, rotation, lowPass))
  }
}

/** `obsidian.bedrock.gateway.event.Event`: voice-gateway events. A `d` for an
    op without a payload serializer is skipped and the earlier data kept. */
module GatewayEvent {
  import opened Wrappers
  import opened KotlinInt
  import opened Json
  import LongAsString
  import Envelope
  import GatewayEventOp

  predicate HasPayload(op: GatewayEventOp.Op)
  {
    op in {GatewayEventOp.Hello, GatewayEventOp.Ready, GatewayEventOp.HeartbeatAck,
           GatewayEventOp.SessionDescription, GatewayEventOp.ClientConnect}
  }

  /** `Op.deserialize`: `decodeInt`, a numeric literal, bare or quoted. */
  function ReadOp(j: Json): (r: Result<GatewayEventOp.Op, Failure>)
    ensures r.Err? ==> r.error == SerializationError
    ensures r.Ok? ==> j.JNumber? || j.JString?
    ensures ReadLong(j).Err? ==> r.Err?
    ensures ReadLong(j).Ok? ==> r == GatewayEventOp.Deserialize(ReadLong(j).value)
  {
    match ReadLong(j)
    case Ok(code) => GatewayEventOp.Deserialize(code)
    case Err(f) => Err(f)
  }

  /** Every op reads back from its code, bare or in quotes. */
  lemma QuotedOpReadsBack(op: GatewayEventOp.Op)
    ensures ReadOp(JNumber(GatewayEventOp.Serialize(op))) == Ok(op)
    ensures ReadOp(JString(LongAsString.ToDecimal(GatewayEventOp.Serialize(op)))) == Ok(op)
  {
    GatewayEventOp.RoundTrip(op);
    QuotedLongReadsBack(GatewayEventOp.Serialize(op));
  }

  function Payloads<T>(decode: (GatewayEventOp.Op, Json) -> Result<T, Failure>): (Option<GatewayEventOp.Op>, Json) -> Envelope.Branch<T>
  {
    (op: Option<GatewayEventOp.Op>, v: Json) =>
      if op.Some? && HasPayload(op.value) then Envelope.Decoded(decode(op.value, v)) else Envelope.Unmatched
  }

  function Deserialize<T>(es: seq<Envelope.Element>, decode: (GatewayEventOp.Op, Json) -> Result<T, Failure>): Result<Option<T>, Failure>
  {
    Envelope.Deserialize(es, ReadOp, Payloads(decode), Envelope.Skip)
  }

  /** After any prefix that decodes, `{"op": code(op), "d": v}` decodes `v`
      with the op's serializer, and for the other ops keeps the earlier
      data without error. */
  lemma OtherOpsKeepData<T>(es: seq<Envelope.Element>, op: GatewayEventOp.Op, v: Json,
                            decode: (GatewayEventOp.Op, Json) -> Result<T, Failure>)
    requires Envelope.Run(es, ReadOp, Payloads(decode), Envelope.Skip).Ok?
    ensures var r := Deserialize(es + [Envelope.Element(Envelope.OP_INDEX, JNumber(GatewayEventOp.Serialize(op))),
                                       Envelope.Element(Envelope.DATA_INDEX, v)], decode);
            (HasPayload(op) ==> r == match decode(op, v) case Ok(t) => Ok(Some(t)) case Err(f) => Err(f)) &&
            (!HasPayload(op) ==> r == Deserialize(es, decode))
  {
    QuotedOpReadsBack(op);
    Envelope.LatestOpSelectsDecoder(es, JNumber(GatewayEventOp.Serialize(op)), v, ReadOp, Payloads(decode), Envelope.Skip);
  }

  /** A `d` before any `op` is ignored. */
  lemma DataFirstIsSkipped<T>(v: Json, rest: seq<Envelope.Element>, decode: (GatewayEventOp.Op, Json) -> Result<T, Failure>)
    ensures Deserialize([Envelope.Element(Envelope.DATA_INDEX, v)] + rest, decode) == Deserialize(rest, decode)
  {
    Envelope.DataBeforeOp(v, rest, ReadOp, Payloads(decode), Envelope.Skip);
  }

  /** `HeartbeatAck.serializer()`, the decoder the plugin generates for the
      class: `d` is an object whose required `nonce` is a Long. The bare-long
      strategy the companion object declares is not the one selected, so a
      bare number as `d` is a decoding error. */
  function DecodeHeartbeatAck(j: Json): (r: Result<Long, Failure>)
    ensures r.Ok? <==> Has(j, "nonce") && ReadLong(j.fields["nonce"]).Ok?
    ensures r.Ok? ==> ReadLong(j.fields["nonce"]) == Ok(r.value)
    ensures !j.JObject? ==> r == Err(SerializationError)
  {
    Required(j, "nonce", ReadLong)
  }

  datatype ClientConnect = ClientConnect(userId: string, audioSsrc: Int, videoSsrc: Int, rtxSsrc: Int)

  /** The generated `ClientConnect` decoder: the three SSRCs default to 0. */
  function DecodeClientConnect(j: Json): (r: Result<ClientConnect, Failure>)
    ensures r.Ok? ==> Has(j, "user_id") && ReadString(j.fields["user_id"]) == Ok(r.value.userId)
    ensures r.Ok? && !Has(j, "audio_ssrc") ==> r.value.audioSsrc == 0
    ensures r.Ok? && !Has(j, "video_ssrc") ==> r.value.videoSsrc == 0
    ensures r.Ok? && !Has(j, "rtx_ssrc") ==> r.value.rtxSsrc == 0
    ensures r.Ok? && Has(j, "audio_ssrc") ==> ReadInt(j.fields["audio_ssrc"]) == Ok(r.value.audioSsrc)
    ensures j.JObject? && j.fields.Keys == {"user_id"} && ReadString(j.fields["user_id"]).Ok? ==>
              r == Ok(ClientConnect(ReadString(j.fields["user_id"]).value, 0, 0, 0))
  {
    var userId :- Required(j, "user_id", ReadString);
    var audio :- Optional(j, "audio_ssrc", ReadInt, 0);
    var video :- Optional(j, "video_ssrc", ReadInt, 0);
    var rtx :- Optional(j, "rtx_ssrc", ReadInt, 0);
    Ok(ClientConnect(userId, audio, video, rtx))
  }
}
