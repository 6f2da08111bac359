/** `obsidian.bedrock.media.IntReference`: a mutable Kotlin `Int` cell. */
module IntReference {
  import opened KotlinInt

  datatype IntReference = IntReference(value: Int)

  /** A new reference holds 0. */
  function New(): (r: IntReference)
    ensures Get(r) == 0
  {
    IntReference(0)
  }

  function Get(r: IntReference): Int
  {
    r.value
  }

  /** `set(v)`: a later `get` returns `v`. */
  function Set(r: IntReference, v: Int): (r': IntReference)
    ensures Get(r') == v
  {
    IntReference(v)
  }

  /** `add(amount)`: `value += amount` in 32-bit arithmetic. */
  function Add(r: IntReference, amount: Int): (r': IntReference)
    ensures (Get(r') - (Get(r) + amount)) % 0x1_0000_0000 == 0
    ensures INT_MIN <= Get(r) + amount <= INT_MAX ==> Get(r') == Get(r) + amount
  {
    IntReference(WrapInt(r.value + amount))
  }

  /** Wrapping is a congruence: wrapping the exact sum of an already wrapped
      value gives the same Int as wrapping the whole exact sum. */
  lemma WrapIntAbsorbs(x: int, y: int)
    ensures WrapInt(WrapInt(x) + y) == WrapInt(x + y)
  {
    var k := (x - WrapInt(x)) / 0x1_0000_0000;
    assert x == WrapInt(x) + k * 0x1_0000_0000;
    assert (WrapInt(x) + y + 0x8000_0000) % 0x1_0000_0000 == (x + y + 0x8000_0000) % 0x1_0000_0000 by {
      ModShift(WrapInt(x) + y + 0x8000_0000, k);
    }
  }

  lemma ModShift(a: int, k: int)
    ensures (a + k * 0x1_0000_0000) % 0x1_0000_0000 == a % 0x1_0000_0000
  {
    var m := 0x1_0000_0000;
    var q := a / m;
    var r := a % m;
    assert a + k * m == (q + k) * m + r;
  }

  /** Adding `amount` `n` times. */
  function AddTimes(r: IntReference, amount: Int, n: nat): (r': IntReference)
    decreases n
  {
    if n == 0 then r else AddTimes(Add(r, amount), amount, n - 1)
  }

  /** `n` additions of `amount` land where one exact addition of `n * amount`
      would, wrapped to 32 bits. */
  lemma {:induction false} AddTimesWraps(r: IntReference, amount: Int, n: nat)
    ensures Get(AddTimes(r, amount, n)) == WrapInt(Get(r) + n * amount)
    decreases n
  {
    if n > 0 {
      AddTimesWraps(Add(r, amount), amount, n - 1);
      WrapIntAbsorbs(r.value + amount, (n - 1) * amount);
    }
  }
}

/** The send side of bedrock's `OpusAudioFrameProvider`: silence padding,
    speaking-state updates and the RTP timestamp advance.

    `canProvide()` and `retrieveOpusFrame` are supplied by the subclass; the
    model receives their answers as parameters (`provide`, `frame`). The
    clock is the parameter `now`, and `updateSpeakingState` calls are
    returned as a list of the masks sent. `SpeakingFlags.NORMAL` is defined
    outside this source, so the mask is a field set at construction. */
module OpusAudioFrameProvider {
  import opened Wrappers
  import opened KotlinInt
  import opened Codec
  import opened IntReference

  const SILENCE_FRAME_COUNT: int := 5
  const TIMESTAMP_STEP: Int := 960

  datatype Provider = Provider(
    speakingMask: Int, counter: int, lastProvide: bool, lastSpeaking: bool,
    lastFramePolled: Long, speaking: bool)
  {
    /** The silence counter only ever holds 0..5, and `setSpeaking` leaves
        `speaking` and `lastSpeaking` equal. */
    predicate Valid()
    {
      0 <= counter <= SILENCE_FRAME_COUNT && speaking == lastSpeaking
    }
  }

  function New(speakingMask: Int): (p: Provider)
    ensures p.Valid() && p.counter == 0 && !p.speaking
  {
    Provider(speakingMask, 0, false, false, 0, false)
  }

  /** `setSpeaking(state)`: an update is sent only when the state differs from
      the last one sent: the mask for speaking, 0 for silent. */
  function SetSpeaking(p: Provider, state: bool): (r: (Provider, seq<Int>))
    ensures r.0.speaking == state && r.0.lastSpeaking == state
    ensures r.0.counter == p.counter && r.0.lastProvide == p.lastProvide &&
            r.0.lastFramePolled == p.lastFramePolled && r.0.speakingMask == p.speakingMask
    ensures state == p.lastSpeaking ==> r.1 == []
    ensures state != p.lastSpeaking ==> r.1 == [if state then p.speakingMask else 0]
  {
    var p' := p.(speaking := state);
    if p'.speaking != p'.lastSpeaking then
      (p'.(lastSpeaking := state), [if state then p.speakingMask else 0])
    else (p', [])
  }

  /** `canSendFrame(codec)`. `provide` is what `canProvide()` would answer;
      it is only asked when no silence frames are pending. */
  function CanSendFrame(p: Provider, payloadType: Byte, provide: bool): (r: (Provider, bool))
    requires p.Valid()
    ensures r.0.Valid()
    ensures payloadType != OPUS_PAYLOAD_TYPE ==> r == (p, false)
    ensures payloadType == OPUS_PAYLOAD_TYPE && p.counter > 0 ==> r == (p, true)
    ensures payloadType == OPUS_PAYLOAD_TYPE && p.counter == 0 && p.lastProvide && !provide ==>
              r.1 && r.0.counter == SILENCE_FRAME_COUNT && !r.0.lastProvide
    ensures payloadType == OPUS_PAYLOAD_TYPE && p.counter == 0 && (provide || !p.lastProvide) ==>
              r == (p.(lastProvide := provide), provide)
  {
    if payloadType != OPUS_PAYLOAD_TYPE then (p, false)
    else if p.counter > 0 then (p, true)
    else if p.lastProvide != provide then
      var p' := p.(lastProvide := provide);
      if !provide then (p'.(counter := SILENCE_FRAME_COUNT), true) else (p', provide)
    else (p, provide)
  }

  /** What one `retrieve` call did. */
  datatype Retrieved = Retrieved(provider: Provider, written: seq<Byte>, timestamp: IntReference, updates: seq<Int>)

  /** `retrieve(codec, buf, timestamp)`. `payloadType` is the codec's (None
      for a null codec), `frame` the bytes `retrieveOpusFrame` would write and
      `now` the clock. The return value is always false. */
  function Retrieve(p: Provider, payloadType: Option<Byte>, frame: seq<Byte>, now: Long, ts: IntReference): (r: Retrieved)
    requires p.Valid()
    ensures r.provider.Valid() && r.provider.speakingMask == p.speakingMask
    ensures payloadType != Some(OPUS_PAYLOAD_TYPE) ==> r == Retrieved(p, [], ts, [])
    ensures payloadType == Some(OPUS_PAYLOAD_TYPE) ==> r.timestamp == Add(ts, TIMESTAMP_STEP)
    ensures payloadType == Some(OPUS_PAYLOAD_TYPE) && p.counter > 0 ==>
              r.written == SILENCE_FRAME && r.provider.counter == p.counter - 1 && !r.provider.speaking
    ensures payloadType == Some(OPUS_PAYLOAD_TYPE) && p.counter == 0 ==>
              r.written == frame && r.provider.lastFramePolled == now &&
              (frame == [] <==> r.provider.counter == SILENCE_FRAME_COUNT) &&
              (frame != [] ==> r.provider.speaking && r.provider.counter == 0)
  {
    if payloadType != Some(OPUS_PAYLOAD_TYPE) then Retrieved(p, [], ts, [])
    else if p.counter > 0 then
      var p1 := p.(counter := p.counter - 1);
      var (p2, u) := if p1.speaking then SetSpeaking(p1, false) else (p1, []);
      Retrieved(p2, SILENCE_FRAME, Add(ts, TIMESTAMP_STEP), u)
    else
      var written := frame != [];
      var (p1, u1) := if written && !p.speaking then SetSpeaking(p, true) else (p, []);
      var p2 := if !written then p1.(counter := SILENCE_FRAME_COUNT) else p1;
      var changeTalking := WrapLong(now - p2.lastFramePolled) > OPUS_FRAME_DURATION;
      var p3 := p2.(lastFramePolled := now);
      var (p4, u2) := if changeTalking then SetSpeaking(p3, written) else (p3, []);
      Retrieved(p4, frame, Add(ts, TIMESTAMP_STEP), u1 + u2)
  }

  /** `Op12HackListener.userConnected`: the mask is re-sent while speaking. */
  function UserConnected(p: Provider): (updates: seq<Int>)
    ensures p.speaking <==> updates == [p.speakingMask]
    ensures !p.speaking ==> updates == []
  {
    if p.speaking then [p.speakingMask] else []
  }

  /** Every speaking update is a real change: it differs from the state the
      previous update announced. */
  lemma UpdatesAreChanges(p: Provider, payloadType: Option<Byte>, frame: seq<Byte>, now: Long, ts: IntReference)
    requires p.Valid() && p.speakingMask != 0
    ensures var r := Retrieve(p, payloadType, frame, now, ts);
            |r.updates| <= 1 &&
            (r.updates != [] ==> (r.updates[0] != 0 <==> !p.speaking) &&
                                 (r.updates[0] != 0 <==> r.provider.speaking))
  {
  }

  /** `k` retrieves with Opus, fed the given frames and clock readings. */
  function RetrieveRun(p: Provider, frames: seq<seq<Byte>>, now: seq<Long>, ts: IntReference): (r: Retrieved)
    requires p.Valid() && |now| == |frames|
    ensures r.provider.Valid()
    decreases |frames|
  {
    if frames == [] then Retrieved(p, [], ts, [])
    else
      var first := Retrieve(p, Some(OPUS_PAYLOAD_TYPE), frames[0], now[0], ts);
      var rest := RetrieveRun(first.provider, frames[1..], now[1..], first.timestamp);
      Retrieved(rest.provider, first.written + rest.written, rest.timestamp, first.updates + rest.updates)
  }

  /** Once armed, the provider sends its pending silence frames one per
      retrieve, whatever the subclass would supply, and the timestamp moves
      960 per frame. */
  lemma {:induction false} PendingSilenceIsSent(p: Provider, frames: seq<seq<Byte>>, now: seq<Long>, ts: IntReference)
    requires p.Valid() && |now| == |frames| && |frames| <= p.counter
    ensures var r := RetrieveRun(p, frames, now, ts);
            r.provider.counter == p.counter - |frames| &&
            r.written == Repeat(SILENCE_FRAME, |frames|) &&
            r.timestamp == AddTimes(ts, TIMESTAMP_STEP, |frames|)
    decreases |frames|
  {
    if frames != [] {
      var first := Retrieve(p, Some(OPUS_PAYLOAD_TYPE), frames[0], now[0], ts);
      PendingSilenceIsSent(first.provider, frames[1..], now[1..], first.timestamp);
      AddTimesFirst(ts, TIMESTAMP_STEP, |frames|);
    }
  }

  /** `n` copies of `s`, concatenated. */
  function Repeat(s: seq<Byte>, n: nat): (r: seq<Byte>)
    ensures |r| == n * |s|
  {
    if n == 0 then [] else s + Repeat(s, n - 1)
  }

  lemma AddTimesFirst(r: IntReference, amount: Int, n: nat)
    requires n > 0
    ensures AddTimes(r, amount, n) == AddTimes(Add(r, amount), amount, n - 1)
  {
  }
}
