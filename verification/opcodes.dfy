/** `values().firstOrNull { it.code == code }`, the lookup every opcode enum uses. */
module Enums {
  import opened Wrappers

  /** The first of `values`, in declaration order, whose code is `c`. */
  function FirstWith<T>(values: seq<T>, code: T -> int, c: int): (r: Option<T>)
    ensures r.None? <==> forall i :: 0 <= i < |values| ==> code(values[i]) != c
    ensures r.Some? ==> exists i :: 0 <= i < |values| && values[i] == r.value && code(r.value) == c &&
                          forall j :: 0 <= j < i ==> code(values[j]) != c
  {
    if values == [] then None
    else if code(values[0]) == c then Some(values[0])
    else
      var r := FirstWith(values[1..], code, c);
      assert forall i :: 1 <= i < |values| ==> values[i] == values[1..][i - 1];
      r
  }

  /** A value no earlier value shares a code with is found by its code. */
  lemma FirstWithAt<T>(values: seq<T>, code: T -> int, i: nat)
    requires i < |values|
    requires forall j :: 0 <= j < i ==> code(values[j]) != code(values[i])
    ensures FirstWith(values, code, code(values[i])) == Some(values[i])
  {
    var r := FirstWith(values, code, code(values[i]));
    var k :| 0 <= k < |values| && values[k] == r.value && code(r.value) == code(values[i]) &&
             forall j :: 0 <= j < k ==> code(values[j]) != code(values[i]);
  }
}

/** The websocket opcodes of the current protocol (`obsidian.server.io.ws.Op`),
    carried on the wire as a JSON short. */
module WsOp {
  import opened Wrappers
  import opened KotlinInt
  import opened Enums

  datatype Op =
    | SUBMIT_VOICE_UPDATE | STATS | SETUP_RESUMING | SETUP_DISPATCH_BUFFER
    | PLAYER_EVENT | PLAYER_UPDATE | PLAY_TRACK | STOP_TRACK | PAUSE | FILTERS
    | SEEK | DESTROY | CONFIGURE | UNKNOWN

  function Code(op: Op): int
  {
    match op
    case SUBMIT_VOICE_UPDATE => 0
    case STATS => 1
    case SETUP_RESUMING => 2
    case SETUP_DISPATCH_BUFFER => 3
    case PLAYER_EVENT => 4
    case PLAYER_UPDATE => 5
    case PLAY_TRACK => 6
    case STOP_TRACK => 7
    case PAUSE => 8
    case FILTERS => 9
    case SEEK => 10
    case DESTROY => 11
    case CONFIGURE => 12
    case UNKNOWN => -1
  }

  /** `values()`, in declaration order. */
  const VALUES: seq<Op> := [SUBMIT_VOICE_UPDATE, STATS, SETUP_RESUMING, SETUP_DISPATCH_BUFFER,
                            PLAYER_EVENT, PLAYER_UPDATE, PLAY_TRACK, STOP_TRACK, PAUSE, FILTERS,
                            SEEK, DESTROY, CONFIGURE, UNKNOWN]

  /** Where `op` sits in `values()`: every op is listed. */
  function Index(op: Op): (i: nat)
    ensures i < |VALUES| && VALUES[i] == op
  {
    match op
    case SUBMIT_VOICE_UPDATE => 0
    case STATS => 1
    case SETUP_RESUMING => 2
    case SETUP_DISPATCH_BUFFER => 3
    case PLAYER_EVENT => 4
    case PLAYER_UPDATE => 5
    case PLAY_TRACK => 6
    case STOP_TRACK => 7
    case PAUSE => 8
    case FILTERS => 9
    case SEEK => 10
    case DESTROY => 11
    case CONFIGURE => 12
    case UNKNOWN => 13
  }

  /** No two ops share a code. */
  lemma CodeInjective(a: Op, b: Op)
    ensures Code(a) == Code(b) ==> a == b
  {
  }

  /** `serialize`: the op's code as a short. */
  function Serialize(op: Op): (code: int)
    ensures SHORT_MIN <= code <= SHORT_MAX
    ensures op == UNKNOWN <==> code == -1
  {
    Code(op)
  }

  /** `deserialize`: a JSON number outside the short range is a decoding
      error; a short no op has decodes to UNKNOWN. */
  function Deserialize(code: int): (r: Result<Op, Failure>)
    ensures !(SHORT_MIN <= code <= SHORT_MAX) <==> r == Err(SerializationError)
    ensures r.Ok? ==> Code(r.value) == code || (r.value == UNKNOWN && forall op :: Code(op) != code)
  {
    if !(SHORT_MIN <= code <= SHORT_MAX) then Err(SerializationError)
    else
      match FirstWith(VALUES, Code, code)
      case Some(op) => Ok(op)
      case None =>
        assert forall op :: Code(op) != code by {
          forall op ensures Code(op) != code {
            assert VALUES[Index(op)] == op;
          }
        }
        Ok(UNKNOWN)
  }

  /** Every op survives the wire: decode(encode(op)) == op. */
  lemma RoundTrip(op: Op)
    ensures Deserialize(Serialize(op)) == Ok(op)
  {
    var r := FirstWith(VALUES, Code, Code(op));
    assert VALUES[Index(op)] == op;
    CodeInjective(r.value, op);
  }
}

/** The legacy Magma opcodes (`obsidian.server.io.Op`), carried as a JSON int.
    `SetupResuming` and `Configure` share code 10. */
module LegacyOp {
  import opened Wrappers
  import opened KotlinInt
  import opened Enums

  datatype Op =
    | Unknown | SubmitVoiceUpdate | Stats | SetupResuming | SetupDispatchBuffer
    | PlayerEvent | PlayerUpdate | PlayTrack | StopTrack | Pause | Filters | Seek
    | Destroy | Configure

  function Code(op: Op): int
  {
    match op
    case Unknown => INT_MIN
    case SubmitVoiceUpdate => 0
    case Stats => 1
    case SetupResuming => 10
    case SetupDispatchBuffer => 11
    case PlayerEvent => 2
    case PlayerUpdate => 3
    case PlayTrack => 4
    case StopTrack => 5
    case Pause => 6
    case Filters => 7
    case Seek => 8
    case Destroy => 9
    case Configure => 10
  }

  /** `values()`, in declaration order. */
  const VALUES: seq<Op> := [Unknown, SubmitVoiceUpdate, Stats, SetupResuming, SetupDispatchBuffer,
                            PlayerEvent, PlayerUpdate, PlayTrack, StopTrack, Pause, Filters, Seek,
                            Destroy, Configure]

  function Index(op: Op): (i: nat)
    ensures i < |VALUES| && VALUES[i] == op
  {
    match op
    case Unknown => 0
    case SubmitVoiceUpdate => 1
    case Stats => 2
    case SetupResuming => 3
    case SetupDispatchBuffer => 4
    case PlayerEvent => 5
    case PlayerUpdate => 6
    case PlayTrack => 7
    case StopTrack => 8
    case Pause => 9
    case Filters => 10
    case Seek => 11
    case Destroy => 12
    case Configure => 13
  }

  /** `Op[code]`: the first op in declaration order with that code, or null. */
  function Get(code: int): (r: Option<Op>)
    ensures r.None? <==> forall op :: Code(op) != code
    ensures r.Some? ==> Code(r.value) == code
  {
    var r := FirstWith(VALUES, Code, code);
    assert r.None? ==> forall op :: Code(op) != code by {
      if r.None? {
        forall op ensures Code(op) != code {
          assert VALUES[Index(op)] == op;
        }
      }
    }
    r
  }

  function Serialize(op: Op): (code: Int)
    ensures op == Unknown <==> code == INT_MIN
  {
    Code(op)
  }

  /** `deserialize`: `Op[decodeInt()] ?: Unknown`. */
  function Deserialize(code: int): (r: Result<Op, Failure>)
    ensures !(INT_MIN <= code <= INT_MAX) <==> r == Err(SerializationError)
    ensures r.Ok? ==> Code(r.value) == code || (r.value == Unknown && forall op :: Code(op) != code)
  {
    if !(INT_MIN <= code <= INT_MAX) then Err(SerializationError)
    else
      match Get(code)
      case Some(op) => Ok(op)
      case None => Ok(Unknown)
  }

  /** Only SetupResuming and Configure share a code. */
  lemma SharedCode(a: Op, b: Op)
    ensures Code(a) == Code(b) && a != b <==> {a, b} == {SetupResuming, Configure}
  {
  }

  /** Every op except Configure survives the wire. */
  lemma RoundTripExceptConfigure(op: Op)
    requires op != Configure
    ensures Deserialize(Serialize(op)) == Ok(op)
  {
    var i := Index(op);
    forall j | 0 <= j < i
      ensures Code(VALUES[j]) != Code(VALUES[i])
    {
      SharedCode(VALUES[j], op);
    }
    FirstWithAt(VALUES, Code, i);
  }

  /** Code 10 decodes to SetupResuming, so Configure does not survive the wire. */
  lemma ConfigureReadsAsSetupResuming()
    ensures Deserialize(Serialize(Configure)) == Ok(SetupResuming)
  {
    FirstWithAt(VALUES, Code, Index(SetupResuming));
  }
}

/** The voice-gateway opcodes used by the event codecs
    (`obsidian.bedrock.gateway.event.Op`). */
module GatewayEventOp {
  import opened Wrappers
  import opened KotlinInt
  import opened Enums

  datatype Op =
    | Unknown | Identify | SelectProtocol | Ready | Heartbeat | SessionDescription
    | Speaking | HeartbeatAck | Hello | ClientConnect

  function Code(op: Op): int
  {
    match op
    case Unknown => INT_MIN
    case Identify => 0
    case SelectProtocol => 1
    case Ready => 2
    case Heartbeat => 3
    case SessionDescription => 4
    case Speaking => 5
    case HeartbeatAck => 6
    case Hello => 8
    case ClientConnect => 12
  }

  /** `values()`, in declaration order. */
  const VALUES: seq<Op> := [Unknown, Identify, SelectProtocol, Ready, Heartbeat, SessionDescription,
                            Speaking, HeartbeatAck, Hello, ClientConnect]

  function Index(op: Op): (i: nat)
    ensures i < |VALUES| && VALUES[i] == op
  {
    match op
    case Unknown => 0
    case Identify => 1
    case SelectProtocol => 2
    case Ready => 3
    case Heartbeat => 4
    case SessionDescription => 5
    case Speaking => 6
    case HeartbeatAck => 7
    case Hello => 8
    case ClientConnect => 9
  }

  lemma CodeInjective(a: Op, b: Op)
    ensures Code(a) == Code(b) ==> a == b
  {
  }

  /** `Op[code]`: null for a code no op has. */
  function Get(code: int): (r: Option<Op>)
    ensures r.None? <==> forall op :: Code(op) != code
    ensures r.Some? ==> Code(r.value) == code
  {
    var r := FirstWith(VALUES, Code, code);
    assert r.None? ==> forall op :: Code(op) != code by {
      if r.None? {
        forall op ensures Code(op) != code {
          assert VALUES[Index(op)] == op;
        }
      }
    }
    r
  }

  function Serialize(op: Op): (code: Int)
    ensures op == Unknown <==> code == INT_MIN
  {
    Code(op)
  }

  /** `deserialize`: `Op[decodeInt()] ?: Unknown`. */
  function Deserialize(code: int): (r: Result<Op, Failure>)
    ensures !(INT_MIN <= code <= INT_MAX) <==> r == Err(SerializationError)
    ensures r.Ok? ==> Code(r.value) == code || (r.value == Unknown && forall op :: Code(op) != code)
  {
    if !(INT_MIN <= code <= INT_MAX) then Err(SerializationError)
    else
      match Get(code)
      case Some(op) => Ok(op)
      case None => Ok(Unknown)
  }

  /** Every op survives the wire, and 7 (an unassigned code) reads as Unknown. */
  lemma RoundTrip(op: Op)
    ensures Deserialize(Serialize(op)) == Ok(op)
    ensures Deserialize(7) == Ok(Unknown)
  {
    var r := Get(Code(op));
    assert r.Some?;
    CodeInjective(r.value, op);
    forall o: Op ensures Code(o) != 7 {
    }
  }
}

/** The voice-gateway opcode lookup (`obsidian.bedrock.gateway.Op`); it has no
    Unknown member, so absence is null. */
module GatewayOp {
  import opened Wrappers
  import opened Enums

  datatype Op =
    | IDENTIFY | SELECT_PROTOCOL | READY | HEARTBEAT | SESSION_DESCRIPTION
    | SPEAKING | HEARTBEAT_ACK | HELLO | CLIENT_CONNECT

  function Code(op: Op): int
  {
    match op
    case IDENTIFY => 0
    case SELECT_PROTOCOL => 1
    case READY => 2
    case HEARTBEAT => 3
    case SESSION_DESCRIPTION => 4
    case SPEAKING => 5
    case HEARTBEAT_ACK => 6
    case HELLO => 8
    case CLIENT_CONNECT => 12
  }

  /** `values()`, in declaration order. */
  const VALUES: seq<Op> := [IDENTIFY, SELECT_PROTOCOL, READY, HEARTBEAT, SESSION_DESCRIPTION,
                            SPEAKING, HEARTBEAT_ACK, HELLO, CLIENT_CONNECT]

  function Index(op: Op): (i: nat)
    ensures i < |VALUES| && VALUES[i] == op
  {
    match op
    case IDENTIFY => 0
    case SELECT_PROTOCOL => 1
    case READY => 2
    case HEARTBEAT => 3
    case SESSION_DESCRIPTION => 4
    case SPEAKING => 5
    case HEARTBEAT_ACK => 6
    case HELLO => 7
    case CLIENT_CONNECT => 8
  }

  lemma CodeInjective(a: Op, b: Op)
    ensures Code(a) == Code(b) ==> a == b
  {
  }

  /** `Op[code]`. */
  function Get(code: int): (r: Option<Op>)
    ensures r.None? <==> forall op :: Code(op) != code
    ensures r.Some? ==> Code(r.value) == code
  {
    var r := FirstWith(VALUES, Code, code);
    assert r.None? ==> forall op :: Code(op) != code by {
      if r.None? {
        forall op ensures Code(op) != code {
          assert VALUES[Index(op)] == op;
        }
      }
    }
    r
  }

  /** Codes 7 and 9 to 11 have no op. */
  lemma UnassignedCodes()
    ensures Get(7).None? && Get(9).None? && Get(10).None? && Get(11).None?
  {
    forall op: Op ensures Code(op) != 7 && Code(op) != 9 && Code(op) != 10 && Code(op) != 11 {
    }
  }

  /** `Op[op.code] == op` for every op. */
  lemma GetInvertsCode(op: Op)
    ensures Get(Code(op)) == Some(op)
  {
    var r := FirstWith(VALUES, Code, Code(op));
    assert VALUES[Index(op)] == op;
    CodeInjective(r.value, op);
  }
}

/** The oldest Magma operation lookup (`obsidian.server.io.MagmaOperation`). */
module MagmaOperation {
  import opened Wrappers
  import opened Enums

  datatype Operation = SUBMIT_VOICE_UPDATE | PLAYER_EVENT | PLAY_TRACK

  function Code(op: Operation): int
  {
    match op
    case SUBMIT_VOICE_UPDATE => 0
    case PLAYER_EVENT => 1
    case PLAY_TRACK => 2
  }

  /** `values()`, in declaration order. */
  const VALUES: seq<Operation> := [SUBMIT_VOICE_UPDATE, PLAYER_EVENT, PLAY_TRACK]

  /** `MagmaOperation[code]`: exactly the codes 0, 1 and 2 are known. */
  function Get(code: int): (r: Option<Operation>)
    ensures r.None? <==> !(0 <= code <= 2)
    ensures r.Some? ==> Code(r.value) == code
  {
    FirstWith(VALUES, Code, code)
  }

  /** Every operation is found by its own code. */
  lemma GetInvertsCode(op: Operation)
    ensures Get(Code(op)) == Some(op)
  {
    var i := match op case SUBMIT_VOICE_UPDATE => 0 case PLAYER_EVENT => 1 case PLAY_TRACK => 2;
    FirstWithAt(VALUES, Code, i);
  }
}
