/** The lavaplayer state the node reads and writes: the playing track and
    the pause flag. A track is the part of `AudioTrack` the handlers touch. */
module AudioPlayer {
  import opened Wrappers
  import opened KotlinInt

  datatype Track = Track(encoded: string, duration: Long, position: Long, seekable: bool, endMarker: Option<Long>)

  datatype AudioPlayer = AudioPlayer(playingTrack: Option<Track>, paused: bool)

  /** A player that has played nothing yet. */
  function New(): (p: AudioPlayer)
    ensures p.playingTrack.None? && !p.paused
  {
    AudioPlayer(None, false)
  }

  /** `playing` of both `Player` and `Link`: a track is loaded and the
      player is not paused. */
  predicate Playing(p: AudioPlayer)
  {
    p.playingTrack.Some? && !p.paused
  }

  /** `playTrack`: the track becomes the playing one; the pause flag stays. */
  function Play(p: AudioPlayer, t: Track): (r: AudioPlayer)
    ensures r.playingTrack == Some(t) && r.paused == p.paused
    ensures Playing(r) <==> !p.paused
  {
    p.(playingTrack := Some(t))
  }

  /** `stopTrack`. */
  function Stop(p: AudioPlayer): (r: AudioPlayer)
    ensures r.playingTrack.None? && r.paused == p.paused
    ensures !Playing(r)
  {
    p.(playingTrack := None)
  }

  /** Whether `position` lies in Kotlin's closed range `0..duration`. */
  predicate InTrack(position: Long, t: Track)
  {
    0 <= position <= t.duration
  }

  /** `seekTo` of `Player` and of `Link`: three `require`s (a playing track,
      a seekable one, a position within it), then the position is set. */
  function SeekTo(p: AudioPlayer, position: Long): (r: Result<AudioPlayer, Failure>)
    ensures r.Ok? <==> p.playingTrack.Some? && p.playingTrack.value.seekable && InTrack(position, p.playingTrack.value)
    ensures r.Err? ==> r.error == IllegalArgument
    ensures r.Ok? ==> r.value.playingTrack.Some? && r.value.playingTrack.value.position == position
    ensures r.Ok? ==> r.value.paused == p.paused &&
                      r.value.playingTrack.value.(position := p.playingTrack.value.position) == p.playingTrack.value
  {
    if p.playingTrack.None? then Err(IllegalArgument)
    else if !p.playingTrack.value.seekable then Err(IllegalArgument)
    else if !(0 <= position <= p.playingTrack.value.duration) then Err(IllegalArgument)
    else Ok(p.(playingTrack := Some(p.playingTrack.value.(position := position))))
  }

  /** Seeking keeps whether the player is playing, a second seek overrides
      the first, and seeking back to the current position changes nothing. */
  lemma SeekLastWins(p: AudioPlayer, x: Long, y: Long)
    requires SeekTo(p, x).Ok?
    ensures Playing(SeekTo(p, x).value) == Playing(p)
    ensures SeekTo(SeekTo(p, x).value, y) == SeekTo(p, y)
    ensures SeekTo(p, p.playingTrack.value.position) == Ok(p) || !InTrack(p.playingTrack.value.position, p.playingTrack.value)
  {
  }
}

/** The frame providers of `Player` and `Link`: each asks lavaplayer for a
    frame and books the outcome in its frame-loss statistics. */
module PlayerFrames {
  import opened KotlinInt
  import FrameLossTracker
  import FrameLossCounter

  /** `Player.OpusFrameProvider.canProvide`: a frame that lavaplayer could
      not provide is one loss of the current second. */
  function CanProvide(t: FrameLossTracker.Tracker, provided: bool, now: Long): (r: (FrameLossTracker.Tracker, bool))
    requires t.Valid()
    ensures r.1 == provided && r.0.Valid()
    ensures provided ==> r.0 == t
    ensures !provided && !FrameLossTracker.SecondElapsed(t, now) ==>
              r.0 == t.(curLoss := WrapByte(t.curLoss + 1))
    ensures !provided && FrameLossTracker.SecondElapsed(t, now) ==>
              r.0.curLoss == 1 && r.0.curSuccess == 0 && r.0.lastUpdate == now
  {
    if provided then (t, true) else (FrameLossTracker.Loss(t, now), false)
  }

  /** `Link.LinkFrameProvider.canProvide`: a failed provide counts one loss. */
  function LinkCanProvide(c: FrameLossCounter.Counter, provided: bool, now: Long): (r: (FrameLossCounter.Counter, bool))
    ensures r.1 == provided
    ensures provided ==> r.0 == c
    ensures !provided && c.curMinute == FrameLossCounter.MinuteOf(now) ==>
              r.0 == c.(curLoss := WrapInt(c.curLoss + 1))
  {
    if provided then (c, true) else (FrameLossCounter.Loss(c, now), false)
  }

  /** `Link.LinkFrameProvider.retrieveOpusFrame`: every retrieved frame
      counts one success. */
  function LinkRetrieve(c: FrameLossCounter.Counter, now: Long): (r: FrameLossCounter.Counter)
    ensures c.curMinute == FrameLossCounter.MinuteOf(now) ==> r == c.(curSuccess := WrapInt(c.curSuccess + 1))
  {
    FrameLossCounter.Success(c, now)
  }

  /** One poll of the link's provider: a frame is retrieved only after
      `canProvide` said yes. */
  function Poll(c: FrameLossCounter.Counter, o: FrameLossCounter.Outcome): FrameLossCounter.Counter
  {
    var (c', ok) := LinkCanProvide(c, o.Sent?, o.at);
    if ok then LinkRetrieve(c', o.at) else c'
  }

  function PollAll(c: FrameLossCounter.Counter, os: seq<FrameLossCounter.Outcome>): FrameLossCounter.Counter
    decreases |os|
  {
    if os == [] then c else PollAll(Poll(c, os[0]), os[1..])
  }

  /** Polling books exactly the outcomes it sees: within one minute the
      success count grows by the frames sent and the loss count by the frames
      that could not be provided. */
  lemma {:induction false} PollsCountOutcomes(c: FrameLossCounter.Counter, os: seq<FrameLossCounter.Outcome>)
    requires FrameLossCounter.WithinMinute(os, c.curMinute)
    requires 0 <= c.curSuccess && 0 <= c.curLoss && c.curSuccess + c.curLoss + |os| <= INT_MAX
    ensures PollAll(c, os) == c.(curSuccess := c.curSuccess + FrameLossCounter.CountSent(os),
                                 curLoss := c.curLoss + FrameLossCounter.CountLost(os))
  {
    PollAllIsRecordAll(c, os);
    FrameLossCounter.RecordWithinMinute(c, os);
  }

  lemma {:induction false} PollAllIsRecordAll(c: FrameLossCounter.Counter, os: seq<FrameLossCounter.Outcome>)
    ensures PollAll(c, os) == FrameLossCounter.RecordAll(c, os)
    decreases |os|
  {
    if os != [] {
      assert Poll(c, os[0]) == FrameLossCounter.Record(c, os[0]);
      PollAllIsRecordAll(Poll(c, os[0]), os[1..]);
    }
  }
}

/** `obsidian.server.player.TrackEndMarkerHandler`: the handler of the end
    marker `playTrack` installs. */
module TrackEndMarkerHandler {
  import opened AudioPlayer

  /** lavaplayer's `TrackMarkerHandler.MarkerState`. */
  datatype MarkerState = REACHED | REMOVED | OVERWRITTEN | BYPASSED | STOPPED | LATE | ENDED

  /** Whether a marker state stops the link. */
  predicate Stops(state: MarkerState)
  {
    state == REACHED || state == BYPASSED
  }

  /** `handle`: the returned count of stops is one for a reached or bypassed
      marker and zero for any other state. */
  function Handle(p: AudioPlayer, state: MarkerState): (r: (AudioPlayer, nat))
    ensures r.1 <= 1
    ensures r.1 == 1 <==> state == REACHED || state == BYPASSED
    ensures r.1 == 1 ==> r.0 == Stop(p)
    ensures r.1 == 0 ==> r.0 == p
  {
    if state == REACHED || state == BYPASSED then (Stop(p), 1) else (p, 0)
  }

  /** Handling a sequence of marker notifications: the track is stopped
      exactly when one of them was a reached or bypassed marker. */
  function HandleAll(p: AudioPlayer, states: seq<MarkerState>): AudioPlayer
    decreases |states|
  {
    if states == [] then p else HandleAll(Handle(p, states[0]).0, states[1..])
  }

  lemma {:induction false} HandleAllStopsOnce(p: AudioPlayer, states: seq<MarkerState>)
    ensures (exists k :: 0 <= k < |states| && Stops(states[k])) ==> HandleAll(p, states) == Stop(p)
    ensures (forall k :: 0 <= k < |states| ==> !Stops(states[k])) ==> HandleAll(p, states) == p
    decreases |states|
  {
    if states != [] {
      var q := Handle(p, states[0]).0;
      HandleAllStopsOnce(q, states[1..]);
      HandleAllStopsOnce(Stop(p), states[1..]);
      assert Stop(Stop(p)) == Stop(p);
      assert forall k :: 0 <= k < |states[1..]| ==> states[1..][k] == states[k + 1];
      if exists k :: 0 <= k < |states| && Stops(states[k]) {
        if !Stops(states[0]) {
          var k :| 0 <= k < |states| && Stops(states[k]);
          assert Stops(states[1..][k - 1]);
        }
      }
    }
  }
}

/** `obsidian.server.player.PlayerUpdates`: the periodic player-update
    interval of a player. */
module PlayerUpdates {
  import opened Wrappers
  import opened KotlinInt
  import opened AudioPlayer
  import FrameLossTracker
  import ByteRingBuffer

  /** `enabled` and whether the interval is started. */
  datatype Updates = Updates(enabled: bool, started: bool)

  function New(): (u: Updates)
    ensures u.enabled && !u.started
  {
    Updates(true, false)
  }

  /** `start`: starts the interval unless it runs already or updates are off. */
  function Start(u: Updates): (r: Updates)
    ensures r.enabled == u.enabled
    ensures r.started <==> u.started || u.enabled
    ensures u.started || !u.enabled ==> r == u
  {
    if !u.started && u.enabled then u.(started := true) else u
  }

  /** `stop`: stops the interval when it runs. */
  function Stop(u: Updates): (r: Updates)
    ensures r.enabled == u.enabled && !r.started
    ensures !u.started ==> r == u
  {
    if u.started then u.(started := false) else u
  }

  /** The `enabled` setter: store the flag, then start or stop. */
  function SetEnabled(u: Updates, value: bool): (r: Updates)
    ensures r.enabled == value
    ensures r.started <==> value
  {
    var v := u.(enabled := value);
    if value then Start(v) else Stop(v)
  }

  /** The track listeners: a start starts updates, an end stops them. */
  function OnTrackStart(u: Updates): (r: Updates)
    ensures r.started <==> u.started || u.enabled
  {
    Start(u)
  }

  function OnTrackEnd(u: Updates): (r: Updates)
    ensures !r.started
  {
    Stop(u)
  }

  /** Starting and stopping are idempotent, and updates run after a track
      start exactly when they are enabled or were already running. */
  lemma StartStopIdempotent(u: Updates)
    ensures Start(Start(u)) == Start(u)
    ensures Stop(Stop(u)) == Stop(u)
    ensures OnTrackEnd(OnTrackStart(u)) == u.(started := false)
  {
  }

  datatype CurrentTrack = CurrentTrack(track: string, paused: bool, position: Long)

  datatype PlayerUpdate = PlayerUpdate(guildId: Long, currentTrack: CurrentTrack, frames: FrameLossTracker.Frames)

  /** `sendUpdate`: the playing track and the frame statistics. Without a
      playing track the track accessors dereference null. */
  function SendUpdate(guildId: Long, p: AudioPlayer, t: FrameLossTracker.Tracker, now: Long): (r: Result<PlayerUpdate, Failure>)
    requires t.Valid()
    ensures r.Err? <==> p.playingTrack.None?
    ensures r.Err? ==> r.error == NullPointer
    ensures r.Ok? ==> r.value.guildId == guildId && r.value.currentTrack.paused == p.paused &&
                      r.value.currentTrack.track == p.playingTrack.value.encoded &&
                      r.value.currentTrack.position == p.playingTrack.value.position
    ensures r.Ok? ==> r.value.frames.sent == ByteRingBuffer.SumOf(t.success.arr) &&
                      r.value.frames.lost == ByteRingBuffer.SumOf(t.loss.arr) &&
                      r.value.frames.usable == FrameLossTracker.DataUsable(t, now)
  {
    match p.playingTrack
    case None => Err(NullPointer)
    case Some(track) =>
      Ok(PlayerUpdate(guildId, CurrentTrack(track.encoded, p.paused, track.position),
                      FrameLossTracker.Payload(t, now)))
  }
}
