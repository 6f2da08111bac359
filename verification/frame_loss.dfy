/** The per-second frame-loss tracker (`obsidian.server.player.FrameLossTracker`).
    Every Kotlin `System.nanoTime()` call is the explicit `now` argument. The
    Double thresholds `1e9` and `1e8` are compared as integers. The conversion
    of a Long difference to Double can round once the difference passes 2^53
    (as those against the `LONG_MAX` sentinels do), but a difference that
    large stays far from both thresholds, on the same side, so every
    comparison has the same outcome as on the exact values. */
module FrameLossTracker {
  import opened KotlinInt
  import opened ByteRingBuffer

  const ONE_SECOND: int := 1_000_000_000
  const ACCEPTABLE_TRACK_SWITCH_TIME: int := 100_000_000
  const EXPECTED_PACKET_COUNT_PER_MIN: int := 60 * 1000 / 20
  const BUFFER_SECONDS: Int := 60

  datatype Tracker = Tracker(
    success: Ring, loss: Ring,
    curSuccess: Byte, curLoss: Byte,
    lastUpdate: Long, playingSince: Long,
    lastTrackEnded: Long, lastTrackStarted: Long)
  {
    predicate Valid()
    {
      success.Valid() && loss.Valid() && |success.arr| == 60 && |loss.arr| == 60
    }
  }

  /** The `Frames` payload of a player update. */
  datatype Frames = Frames(sent: Int, lost: Int, usable: bool)

  /** A fresh tracker: two rings of 60 and the field initialisers. */
  function Init(): (t: Tracker)
    ensures t.Valid()
    ensures t.curSuccess == 0 && t.curLoss == 0 && t.lastUpdate == 0
    ensures t.playingSince == LONG_MAX && t.lastTrackEnded == LONG_MAX
    ensures t.lastTrackStarted == LONG_MAX / 2
  {
    var ring := Ring(Zeros(60), 0, 60);
    assert ring == New(BUFFER_SECONDS).value;
    Tracker(ring, ring, 0, 0, 0, LONG_MAX, LONG_MAX, LONG_MAX / 2)
  }

  /** Whether more than a second has passed since the last rollover. */
  predicate SecondElapsed(t: Tracker, now: Long)
  {
    WrapLong(now - t.lastUpdate) > ONE_SECOND
  }

  /** `checkTime`: once a second, push the current counts into the rings and
      restart counting. */
  function CheckTime(t: Tracker, now: Long): (r: Tracker)
    requires t.Valid()
    ensures r.Valid()
    ensures SecondElapsed(t, now) ==>
              r == t.(success := Put(t.success, t.curSuccess), loss := Put(t.loss, t.curLoss),
                      curSuccess := 0, curLoss := 0, lastUpdate := now)
    ensures !SecondElapsed(t, now) ==> r == t
  {
    if WrapLong(now - t.lastUpdate) > ONE_SECOND then
      t.(lastUpdate := now,
         success := Put(t.success, t.curSuccess),
         loss := Put(t.loss, t.curLoss),
         curSuccess := 0, curLoss := 0)
    else t
  }

  /** `success()`: one more frame sent in the current second (a wrapping Byte). */
  function Success(t: Tracker, now: Long): (r: Tracker)
    requires t.Valid()
    ensures r.Valid()
    ensures !SecondElapsed(t, now) ==> r == t.(curSuccess := WrapByte(t.curSuccess + 1))
    ensures SecondElapsed(t, now) ==>
              r.curSuccess == 1 && r.curLoss == 0 && r.lastUpdate == now &&
              Contents(r.success) == Last(60, Contents(t.success) + [t.curSuccess]) &&
              Contents(r.loss) == Last(60, Contents(t.loss) + [t.curLoss])
    ensures r == t.(lastUpdate := r.lastUpdate, success := r.success, loss := r.loss,
                    curSuccess := r.curSuccess, curLoss := r.curLoss)
  {
    var c := CheckTime(t, now);
    PutKeepsLastValues(t.success, t.curSuccess);
    PutKeepsLastValues(t.loss, t.curLoss);
    c.(curSuccess := WrapByte(c.curSuccess + 1))
  }

  /** `loss()`: one more frame lost in the current second (a wrapping Byte). */
  function Loss(t: Tracker, now: Long): (r: Tracker)
    requires t.Valid()
    ensures r.Valid()
    ensures !SecondElapsed(t, now) ==> r == t.(curLoss := WrapByte(t.curLoss + 1))
    ensures SecondElapsed(t, now) ==>
              r.curSuccess == 0 && r.curLoss == 1 && r.lastUpdate == now &&
              Contents(r.success) == Last(60, Contents(t.success) + [t.curSuccess]) &&
              Contents(r.loss) == Last(60, Contents(t.loss) + [t.curLoss])
    ensures r == t.(lastUpdate := r.lastUpdate, success := r.success, loss := r.loss,
                    curSuccess := r.curSuccess, curLoss := r.curLoss)
  {
    var c := CheckTime(t, now);
    PutKeepsLastValues(t.success, t.curSuccess);
    PutKeepsLastValues(t.loss, t.curLoss);
    c.(curLoss := WrapByte(c.curLoss + 1))
  }

  /** `success()` at each of the instants in `times`. */
  function SuccessAll(t: Tracker, times: seq<Long>): (r: Tracker)
    requires t.Valid()
    ensures r.Valid()
    decreases |times|
  {
    if times == [] then t else SuccessAll(Success(t, times[0]), times[1..])
  }

  /** Within one second the rings are untouched and the Byte counter moves by
      the number of calls, modulo 256. */
  lemma {:induction false} SuccessesWithinOneSecond(t: Tracker, times: seq<Long>)
    requires t.Valid()
    requires forall k :: 0 <= k < |times| ==> !SecondElapsed(t, times[k])
    ensures SuccessAll(t, times) == t.(curSuccess := WrapByte(t.curSuccess + |times|))
    decreases |times|
  {
    if times != [] {
      var t' := Success(t, times[0]);
      assert t' == t.(curSuccess := WrapByte(t.curSuccess + 1));
      forall k | 0 <= k < |times[1..]|
        ensures !SecondElapsed(t', times[1..][k])
      {
        assert times[1..][k] == times[k + 1];
      }
      SuccessesWithinOneSecond(t', times[1..]);
      var m := 0x100;
      assert (t.curSuccess + 1 - t'.curSuccess) % m == 0;
      var a := t'.curSuccess + |times[1..]|;
      var b := t.curSuccess + |times|;
      assert a - b == t'.curSuccess - (t.curSuccess + 1);
      WrapByteCongruent(a, b);
    }
  }

  lemma WrapByteCongruent(a: int, b: int)
    requires (a - b) % 0x100 == 0
    ensures WrapByte(a) == WrapByte(b)
  {
    var k := (a - b) / 0x100;
    assert a == b + k * 0x100;
    assert (b + k * 0x100 + 0x80) % 0x100 == (b + 0x80) % 0x100;
  }

  /** Playback counts as (re)started: the first start, or one more than the
      switch time after `playingSince`. */
  predicate StartResets(t: Tracker, now: Long)
  {
    WrapLong(now - t.playingSince) > ACCEPTABLE_TRACK_SWITCH_TIME || t.playingSince == LONG_MAX
  }

  /** `start()`, on track start and on resume. */
  function Start(t: Tracker, now: Long): (r: Tracker)
    requires t.Valid()
    ensures r.Valid() && r.lastTrackStarted == now && r.lastTrackEnded == t.lastTrackEnded
    ensures r.curSuccess == t.curSuccess && r.curLoss == t.curLoss && r.lastUpdate == t.lastUpdate
    ensures StartResets(t, now) ==>
              r.playingSince == now && Contents(r.success) == [] && Contents(r.loss) == [] &&
              SumOf(r.success.arr) == 0 && SumOf(r.loss.arr) == 0
    ensures !StartResets(t, now) ==> r == t.(lastTrackStarted := now)
  {
    var started := t.(lastTrackStarted := now);
    if WrapLong(started.lastTrackStarted - started.playingSince) > ACCEPTABLE_TRACK_SWITCH_TIME
       || started.playingSince == LONG_MAX then
      ClearSumsToZero(t.success);
      ClearSumsToZero(t.loss);
      started.(playingSince := now, success := Clear(t.success), loss := Clear(t.loss))
    else started
  }

  /** `end()`, on track end and on pause: only the end instant is recorded. */
  function End(t: Tracker, now: Long): (r: Tracker)
    ensures r.lastTrackEnded == now
    ensures r.(lastTrackEnded := t.lastTrackEnded) == t
  {
    t.(lastTrackEnded := now)
  }

  /** The audio-event listeners: pause is `end`, resume is `start`. */
  datatype PlayerEvent = TrackEnd | TrackStart | PlayerPause | PlayerResume

  function OnEvent(t: Tracker, e: PlayerEvent, now: Long): (r: Tracker)
    requires t.Valid()
    ensures r.Valid()
    ensures (e == TrackEnd || e == PlayerPause) ==> r == End(t, now)
    ensures (e == TrackStart || e == PlayerResume) ==> r == Start(t, now)
    ensures r.lastTrackEnded == now || r.lastTrackStarted == now
  {
    match e
    case TrackEnd => End(t, now)
    case PlayerPause => End(t, now)
    case TrackStart => Start(t, now)
    case PlayerResume => Start(t, now)
  }

  /** Kotlin's `TimeUnit.NANOSECONDS.toSeconds`. */
  function NanosToSeconds(d: Long): int
  {
    TDiv(d, ONE_SECOND)
  }

  /** A track ended and the following start came too late to count as a switch. */
  predicate PlaybackGap(t: Tracker)
  {
    WrapLong(t.lastTrackStarted - t.lastTrackEnded) > ACCEPTABLE_TRACK_SWITCH_TIME &&
    t.lastTrackEnded != LONG_MAX
  }

  /** `dataUsable`: no playback gap, and a full minute of playing behind `now`. */
  function DataUsable(t: Tracker, now: Long): (r: bool)
    ensures PlaybackGap(t) ==> !r
    ensures !PlaybackGap(t) ==> (r <==> WrapLong(now - t.playingSince) >= 60 * ONE_SECOND)
  {
    if PlaybackGap(t) then false
    else NanosToSeconds(WrapLong(now - t.playingSince)) >= 60
  }

  /** `payload`: the ring sums (which cannot wrap: 60 bytes) and `dataUsable`. */
  function Payload(t: Tracker, now: Long): (f: Frames)
    requires t.Valid()
    ensures f.sent == SumOf(t.success.arr) && f.lost == SumOf(t.loss.arr)
    ensures f.usable == DataUsable(t, now)
  {
    SumIsExact(t.success);
    SumIsExact(t.loss);
    Frames(WrapInt(SumOf(t.success.arr)), WrapInt(SumOf(t.loss.arr)), DataUsable(t, now))
  }

  /** Right after the first start, the payload reports nothing sent, nothing
      lost, and data that is not yet usable for the next minute. */
  lemma FirstStartResetsPayload(now: Long, later: Long)
    requires 0 <= now <= later < now + 60 * ONE_SECOND
    ensures var f := Payload(Start(Init(), now), later);
            f.sent == 0 && f.lost == 0 && !f.usable
  {
  }
}

/** The per-minute frame-loss counter (`obsidian.server.player.FrameLossCounter`).
    Every `System.currentTimeMillis()` call is an explicit argument;
    `onTrackStart` reads the clock twice, so it takes two instants. */
module FrameLossCounter {
  import opened KotlinInt

  const MINUTE_MILLIS: int := 60000
  const EXPECTED_PACKET_COUNT_PER_MIN: int := 60 * 1000 / 20
  const ACCEPTABLE_TRACK_SWITCH_TIME: int := 100

  datatype Counter = Counter(
    lastTrackStarted: Long, lastTrackEnded: Long,
    curSuccess: Int, curLoss: Int, lastSuccess: Int, lastLoss: Int,
    curMinute: Long, playingSince: Long)

  function Init(): (c: Counter)
    ensures c.lastTrackStarted == LONG_MAX / 2 && c.lastTrackEnded == LONG_MAX
    ensures c.curSuccess == 0 && c.curLoss == 0 && c.lastSuccess == 0 && c.lastLoss == 0
    ensures c.curMinute == 0 && c.playingSince == LONG_MAX
  {
    Counter(LONG_MAX / 2, LONG_MAX, 0, 0, 0, 0, 0, LONG_MAX)
  }

  /** The minute a millisecond instant falls in (Long division truncates). */
  function MinuteOf(now: Long): Long
  {
    TDiv(now, MINUTE_MILLIS)
  }

  /** `checkTime`: on entering a new minute, the current counts become the
      last ones and counting restarts. */
  function CheckTime(c: Counter, now: Long): (r: Counter)
    ensures r.curMinute == MinuteOf(now)
    ensures c.curMinute != MinuteOf(now) ==>
              r.lastSuccess == c.curSuccess && r.lastLoss == c.curLoss &&
              r.curSuccess == 0 && r.curLoss == 0
    ensures c.curMinute == MinuteOf(now) ==> r == c
    ensures r.playingSince == c.playingSince && r.lastTrackStarted == c.lastTrackStarted &&
            r.lastTrackEnded == c.lastTrackEnded
  {
    var actualMinute := MinuteOf(now);
    if c.curMinute != actualMinute then
      c.(lastLoss := c.curLoss, lastSuccess := c.curSuccess,
         curLoss := 0, curSuccess := 0, curMinute := actualMinute)
    else c
  }

  function Success(c: Counter, now: Long): (r: Counter)
    ensures c.curMinute == MinuteOf(now) ==> r == c.(curSuccess := WrapInt(c.curSuccess + 1))
    ensures c.curMinute != MinuteOf(now) ==>
              r == c.(curSuccess := 1, curLoss := 0, lastSuccess := c.curSuccess,
                      lastLoss := c.curLoss, curMinute := MinuteOf(now))
  {
    var k := CheckTime(c, now);
    k.(curSuccess := WrapInt(k.curSuccess + 1))
  }

  function Loss(c: Counter, now: Long): (r: Counter)
    ensures c.curMinute == MinuteOf(now) ==> r == c.(curLoss := WrapInt(c.curLoss + 1))
    ensures c.curMinute != MinuteOf(now) ==>
              r == c.(curSuccess := 0, curLoss := 1, lastSuccess := c.curSuccess,
                      lastLoss := c.curLoss, curMinute := MinuteOf(now))
  {
    var k := CheckTime(c, now);
    k.(curLoss := WrapInt(k.curLoss + 1))
  }

  /** One frame outcome at one instant. */
  datatype Outcome = Sent(at: Long) | Lost(at: Long)

  function Record(c: Counter, o: Outcome): Counter
  {
    match o
    case Sent(at) => Success(c, at)
    case Lost(at) => Loss(c, at)
  }

  function RecordAll(c: Counter, os: seq<Outcome>): Counter
    decreases |os|
  {
    if os == [] then c else RecordAll(Record(c, os[0]), os[1..])
  }

  function CountSent(os: seq<Outcome>): (n: nat)
    ensures n <= |os|
  {
    if os == [] then 0 else CountSent(os[1..]) + (if os[0].Sent? then 1 else 0)
  }

  function CountLost(os: seq<Outcome>): (n: nat)
    ensures n <= |os|
  {
    if os == [] then 0 else CountLost(os[1..]) + (if os[0].Lost? then 1 else 0)
  }

  /** Outcomes that all fall in minute `m`, few enough not to overflow an Int. */
  predicate WithinMinute(os: seq<Outcome>, m: Long)
  {
    |os| < INT_MAX && forall k :: 0 <= k < |os| ==> MinuteOf(os[k].at) == m
  }

  /** Recording outcomes of the counter's current minute adds them to the
      current counts and touches nothing else. */
  lemma {:induction false} RecordWithinMinute(c: Counter, os: seq<Outcome>)
    requires WithinMinute(os, c.curMinute)
    requires 0 <= c.curSuccess && 0 <= c.curLoss && c.curSuccess + c.curLoss + |os| <= INT_MAX
    ensures RecordAll(c, os) ==
            c.(curSuccess := c.curSuccess + CountSent(os), curLoss := c.curLoss + CountLost(os))
    decreases |os|
  {
    if os != [] {
      var c' := Record(c, os[0]);
      assert MinuteOf(os[0].at) == c.curMinute;
      assert WithinMinute(os[1..], c'.curMinute) by {
        forall k | 0 <= k < |os[1..]| ensures MinuteOf(os[1..][k].at) == c'.curMinute {
          assert os[1..][k] == os[k + 1];
        }
      }
      RecordWithinMinute(c', os[1..]);
    }
  }

  /** A minute's outcomes, followed by the first outcome of a later minute:
      the last-minute counts are exactly what that minute recorded. */
  lemma MinuteRollover(c: Counter, os: seq<Outcome>, next: Outcome)
    requires c.curSuccess == 0 && c.curLoss == 0
    requires WithinMinute(os, c.curMinute) && MinuteOf(next.at) != c.curMinute
    ensures var r := RecordAll(c, os + [next]);
            r.lastSuccess == CountSent(os) && r.lastLoss == CountLost(os) &&
            r.curMinute == MinuteOf(next.at) &&
            r.curSuccess == (if next.Sent? then 1 else 0) &&
            r.curLoss == (if next.Lost? then 1 else 0)
  {
    RecordWithinMinute(c, os);
    RecordAllAppend(c, os, next);
  }

  lemma {:induction false} RecordAllAppend(c: Counter, os: seq<Outcome>, next: Outcome)
    ensures RecordAll(c, os + [next]) == Record(RecordAll(c, os), next)
    decreases |os|
  {
    if os == [] {
      assert os + [next] == [next];
    } else {
      assert (os + [next])[1..] == os[1..] + [next];
      RecordAllAppend(Record(c, os[0]), os[1..], next);
    }
  }

  function OnTrackEnd(c: Counter, now: Long): (r: Counter)
    ensures r.lastTrackEnded == now && r.(lastTrackEnded := c.lastTrackEnded) == c
  {
    c.(lastTrackEnded := now)
  }

  /** Playback counts as restarted: the first start, or a start more than the
      switch time after the last end. */
  predicate StartResets(c: Counter, now: Long)
  {
    WrapLong(now - c.lastTrackEnded) > ACCEPTABLE_TRACK_SWITCH_TIME || c.playingSince == LONG_MAX
  }

  /** `onTrackStart`: `now` is the first clock reading, `again` the second one
      that becomes `playingSince`. */
  function OnTrackStart(c: Counter, now: Long, again: Long): (r: Counter)
    ensures r.lastTrackStarted == now
    ensures StartResets(c, now) ==>
              r == c.(lastTrackStarted := now, playingSince := again, lastTrackEnded := LONG_MAX)
    ensures !StartResets(c, now) ==> r == c.(lastTrackStarted := now)
  {
    var s := c.(lastTrackStarted := now);
    if WrapLong(s.lastTrackStarted - s.lastTrackEnded) > ACCEPTABLE_TRACK_SWITCH_TIME
       || s.playingSince == LONG_MAX then
      s.(playingSince := again, lastTrackEnded := LONG_MAX)
    else s
  }

  predicate PlaybackGap(c: Counter)
  {
    WrapLong(c.lastTrackStarted - c.lastTrackEnded) > ACCEPTABLE_TRACK_SWITCH_TIME &&
    c.lastTrackEnded != LONG_MAX
  }

  /** `dataUsable`: no playback gap, and playing since before the start of
      the previous whole minute. */
  function DataUsable(c: Counter, now: Long): (r: bool)
    ensures PlaybackGap(c) ==> !r
    ensures !PlaybackGap(c) && 0 <= now ==>
              (r <==> c.playingSince < (now / MINUTE_MILLIS - 1) * MINUTE_MILLIS)
  {
    if PlaybackGap(c) then false
    else
      var lastMin := MinuteOf(now) - 1;
      c.playingSince < WrapLong(lastMin * MINUTE_MILLIS)
  }

  /** A start that resets playback always clears the gap, so the data is
      usable as soon as the previous whole minute lies after the start. */
  lemma ResetStartClearsGap(c: Counter, now: Long, again: Long, later: Long)
    requires c.playingSince == LONG_MAX
    requires 0 <= again && 0 <= later && again < (later / MINUTE_MILLIS - 1) * MINUTE_MILLIS
    ensures DataUsable(OnTrackStart(c, now, again), later)
  {
  }

  /** Pause and resume are the track end and start listeners. */
  function OnPlayerPause(c: Counter, now: Long): (r: Counter)
    ensures r == OnTrackEnd(c, now)
    ensures r.lastTrackEnded == now
  {
    OnTrackEnd(c, now)
  }

  function OnPlayerResume(c: Counter, now: Long, again: Long): (r: Counter)
    ensures r == OnTrackStart(c, now, again)
    ensures r.lastTrackStarted == now
  {
    OnTrackStart(c, now, again)
  }
}
