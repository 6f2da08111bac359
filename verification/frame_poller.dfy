/** The UDP-queue frame pollers (`moe.kyokobot.koe.codec.udpqueue.UdpQueueFramePoller`
    and `obsidian.bedrock.codec.framePoller.UdpQueueOpusFramePoller`).

    A poller fills the free slots of its queue with Opus packets, then
    re-schedules itself on a 40 ms grid (two 20 ms frames per pass). The two
    classes are the same state machine; they differ in how a missing
    connection handler is treated. The clock is a parameter, and what the
    audio sender does on each attempt of a pass is an oracle `outcome`. */
module FramePoller {
  import opened Wrappers
  import opened KotlinInt
  import opened UdpQueueManager
  import opened QueueManagerPool

  const PASS_INTERVAL: int := 40
  const MAX_LAG: int := 60

  datatype Poller = Poller(polling: bool, lastFrame: Long)

  /** What one iteration of the fill loop did: nothing (no sender, or the
      sender could not send a frame), or it retrieved a frame and asked the
      connection for a packet, which may have come back null. */
  datatype Attempt = Idle | Built(packet: Option<Packet>)

  /** `start()`: a second start fails (`check` / `IllegalStateException`);
      otherwise polling begins and the pacing grid is anchored at `now`. */
  function Start(p: Poller, now: Long): (r: Result<Poller, Failure>)
    ensures p.polling <==> r == Err(IllegalState)
    ensures r.Ok? ==> r.value.polling && r.value.lastFrame == now
  {
    if p.polling then Err(IllegalState) else Ok(Poller(true, now))
  }

  /** `stop()`: polling ends; nothing else changes. */
  function Stop(p: Poller): (r: Poller)
    ensures !r.polling && r.lastFrame == p.lastFrame
    ensures !p.polling ==> r == p
  {
    p.(polling := false)
  }

  /** A stopped poller can always be started again. */
  lemma StopThenStart(p: Poller, now: Long)
    ensures Start(Stop(p), now) == Ok(Poller(true, now))
  {
  }

  /** The packets produced by attempts `i` up to (not including) `n`, in order. */
  function Produced(outcome: nat -> Attempt, i: nat, n: nat): (ps: seq<Packet>)
    ensures |ps| <= n - i || (i >= n && ps == [])
    decreases n - i
  {
    if i >= n then [] else Piece(outcome(i)) + Produced(outcome, i + 1, n)
  }

  /** The packet an attempt hands to the queue, if any. */
  function Piece(a: Attempt): (ps: seq<Packet>)
    ensures |ps| <= 1
    ensures ps != [] <==> a.Built? && a.packet.Some?
  {
    if a.Built? && a.packet.Some? then [a.packet.value] else []
  }

  /** `for (i in 0 until remaining)`: no iteration for a non-positive count. */
  function Slots(remaining: Int): (n: nat)
    ensures remaining > 0 ==> n == remaining
    ensures remaining <= 0 ==> n == 0
  {
    if remaining > 0 then remaining else 0
  }

  /** The wrapper's manager after each of `ps` went through `queuePacket`
      (whose accept flag the pollers ignore). */
  function QueueProduced(pool: Pool, w: Wrapper, ps: seq<Packet>): (r: Result<Pool, Failure>)
    requires pool.Valid() && w.manager < |pool.managers|
    ensures r.Ok? ==> r.value.Valid() && |r.value.managers| == |pool.managers| &&
                      r.value.queueKeySeq == pool.queueKeySeq && r.value.closed == pool.closed
    ensures r.Ok? ==> forall i :: 0 <= i < |pool.managers| && i != w.manager ==>
                        r.value.managers[i] == pool.managers[i]
  {
    match QueueAll(pool.managers[w.manager], w.queueKey, ps)
    case Err(e) => Err(e)
    case Ok((m, _)) => Ok(pool.(managers := pool.managers[w.manager := m]))
  }

  /** The fill loop on one queue: `n` attempts, each packet that was built
      handed to `queuePacket`, an exception ending the loop. */
  method FillQueue(m0: Manager, key: Long, outcome: nat -> Attempt, n: nat) returns (r: Result<Manager, Failure>)
    requires m0.Valid()
    ensures r.Ok? <==> QueueAll(m0, key, Produced(outcome, 0, n)).Ok?
    ensures r.Ok? ==> r.value == QueueAll(m0, key, Produced(outcome, 0, n)).value.0
    ensures r.Err? ==> r.error == QueueAll(m0, key, Produced(outcome, 0, n)).error
  {
    var m := m0;
    ghost var queued: seq<Packet> := [];
    ghost var flags: seq<bool> := [];
    for i := 0 to n
      invariant m.Valid()
      invariant queued + Produced(outcome, i, n) == Produced(outcome, 0, n)
      invariant QueueAll(m0, key, queued) == Ok((m, flags))
    {
      var a := outcome(i);
      ProducedStep(outcome, queued, i, n);
      if a.Built? && a.packet.Some? {
        var pkt := a.packet.value;
        var q := QueuePacket(m, key, pkt);
        FillStep(m0, key, queued, flags, m, pkt, Produced(outcome, i + 1, n), Produced(outcome, 0, n));
        if q.Err? {
          return Err(q.error);
        }
        m := q.value.0;
        flags := flags + [q.value.1];
        queued := queued + [pkt];
      } else {
        assert queued + Piece(a) == queued;
      }
    }
    assert queued == Produced(outcome, 0, n);
    r := Ok(m);
  }

  /** Moving one attempt from the pending part of a pass to the done part. */
  lemma ProducedStep(outcome: nat -> Attempt, queued: seq<Packet>, i: nat, n: nat)
    requires i < n && queued + Produced(outcome, i, n) == Produced(outcome, 0, n)
    ensures (queued + Piece(outcome(i))) + Produced(outcome, i + 1, n) == Produced(outcome, 0, n)
  {
    assert Produced(outcome, i, n) == Piece(outcome(i)) + Produced(outcome, i + 1, n);
  }

  /** One fill pass over the wrapper's queue: as many attempts as it has free slots. */
  method Fill(pool: Pool, w: Wrapper, outcome: nat -> Attempt) returns (r: Result<Pool, Failure>)
    requires pool.Valid() && w.manager < |pool.managers|
    ensures r == QueueProduced(pool, w, Produced(outcome, 0, Slots(WrapperRemainingCapacity(pool, w))))
  {
    var n := Slots(WrapperRemainingCapacity(pool, w));
    var q := FillQueue(pool.managers[w.manager], w.queueKey, outcome, n);
    if q.Err? {
      return Err(q.error);
    }
    r := Ok(pool.(managers := pool.managers[w.manager := q.value]));
  }

  /** One packet of a fill pass: it extends the run so far, and if it fails,
      the whole pass fails with its error. */
  lemma FillStep(m0: Manager, key: Long, queued: seq<Packet>, flags: seq<bool>, m: Manager,
                 pkt: Packet, rest: seq<Packet>, total: seq<Packet>)
    requires m0.Valid() && m.Valid()
    requires QueueAll(m0, key, queued) == Ok((m, flags))
    requires queued + ([pkt] + rest) == total
    ensures QueuePacket(m, key, pkt).Err? ==>
              QueueAll(m0, key, total) == Err(QueuePacket(m, key, pkt).error)
    ensures QueuePacket(m, key, pkt).Ok? ==>
              QueueAll(m0, key, queued + [pkt]) ==
                Ok((QueuePacket(m, key, pkt).value.0, flags + [QueuePacket(m, key, pkt).value.1]))
  {
    QueueAllAppend(m0, key, queued, [pkt]);
    var q := QueuePacket(m, key, pkt);
    assert [pkt][1..] == [];
    if q.Ok? {
      assert QueueAll(q.value.0, key, []) == Ok((q.value.0, []));
      assert [q.value.1] + [] == [q.value.1];
      assert QueueAll(m, key, [pkt]) == Ok((q.value.0, [q.value.1]));
    }
    QueueAllAppend(m0, key, queued + [pkt], rest);
    assert queued + [pkt] + rest == total;
  }

  /** The koe poller's `populateQueue` pass. The connection handler is cast
      to a non-null type, so a missing one throws after the capacity read. */
  method KoePopulate(p: Poller, pool: Pool, w: Wrapper, handler: bool, outcome: nat -> Attempt)
    returns (r: Result<Pool, Failure>)
    requires pool.Valid() && w.manager < |pool.managers|
    ensures !p.polling ==> r == Ok(pool)
    ensures p.polling && !handler ==> r == Err(NullPointer)
    ensures p.polling && handler ==>
              r == QueueProduced(pool, w, Produced(outcome, 0, Slots(WrapperRemainingCapacity(pool, w))))
  {
    if !p.polling {
      return Ok(pool);
    }
    if !handler {
      return Err(NullPointer);
    }
    r := Fill(pool, w, outcome);
  }

  /** The bedrock poller's `populateQueue` pass. A missing handler (or frame
      provider, folded into `outcome`) makes every attempt idle. */
  method BedrockPopulate(p: Poller, pool: Pool, w: Wrapper, handler: bool, outcome: nat -> Attempt)
    returns (r: Result<Pool, Failure>)
    requires pool.Valid() && w.manager < |pool.managers|
    ensures !p.polling || !handler ==> r == Ok(pool)
    ensures p.polling && handler ==>
              r == QueueProduced(pool, w, Produced(outcome, 0, Slots(WrapperRemainingCapacity(pool, w))))
  {
    if !p.polling || !handler {
      // without a handler every iteration fails its `handler != null` test
      return Ok(pool);
    }
    r := Fill(pool, w, outcome);
  }

  /** A pass never offers more packets than the queue has room for, so every
      built packet that fits the packet buffer is accepted and appended, in
      order, behind the packets already waiting. */
  lemma PassQueuesEveryPacket(pool: Pool, w: Wrapper, outcome: nat -> Attempt)
    requires pool.Valid() && w.manager < |pool.managers|
    requires !pool.managers[w.manager].released
    requires FitsBuffer(pool.managers[w.manager],
                        Produced(outcome, 0, Slots(WrapperRemainingCapacity(pool, w))))
    ensures var ps := Produced(outcome, 0, Slots(WrapperRemainingCapacity(pool, w)));
            var r := QueueProduced(pool, w, ps);
            |ps| <= Slots(WrapperRemainingCapacity(pool, w)) &&
            r.Ok? &&
            Waiting(r.value.managers[w.manager], w.queueKey) ==
              Waiting(pool.managers[w.manager], w.queueKey) + ps
  {
    var m := pool.managers[w.manager];
    var ps := Produced(outcome, 0, Slots(WrapperRemainingCapacity(pool, w)));
    if ps == [] {
      assert QueueAll(m, w.queueKey, ps) == Ok((m, []));
      assert Waiting(m, w.queueKey) + ps == Waiting(m, w.queueKey);
    } else {
      QueueAllAppends(m, w.queueKey, ps);
    }
  }

  /** The delay before the next loop: `40 - (now - lastFrame)` ms in Long
      arithmetic; the loop is scheduled only when it is positive. */
  function FrameDelay(p: Poller, now: Long): (d: Long)
    ensures LONG_MIN + PASS_INTERVAL < now - p.lastFrame <= LONG_MAX ==>
              (d > 0 <==> now < p.lastFrame + PASS_INTERVAL) &&
              now + d == p.lastFrame + PASS_INTERVAL
  {
    WrapLong(PASS_INTERVAL - WrapLong(now - p.lastFrame))
  }

  /** `loop()`: advance the grid by one pass unless the poller is 60 ms or
      more behind, in which case re-anchor it at a second clock read `again`. */
  function Loop(p: Poller, now: Long, again: Long): (r: Poller)
    ensures r.polling == p.polling
    ensures p.lastFrame + MAX_LAG <= LONG_MAX ==>
              (now < p.lastFrame + MAX_LAG ==> r.lastFrame == WrapLong(p.lastFrame + PASS_INTERVAL)) &&
              (now >= p.lastFrame + MAX_LAG ==> r.lastFrame == again)
  {
    if now < WrapLong(p.lastFrame + MAX_LAG) then p.(lastFrame := WrapLong(p.lastFrame + PASS_INTERVAL))
    else p.(lastFrame := again)
  }

  /** After a loop the grid is never more than 20 ms behind the clock and has
      moved forward. */
  lemma LoopKeepsUp(p: Poller, now: Long, again: Long)
    requires p.lastFrame <= now <= again && p.lastFrame + MAX_LAG <= LONG_MAX
    ensures Loop(p, now, again).lastFrame > p.lastFrame
    ensures Loop(p, now, again).lastFrame + 20 > now
  {
  }

  /** One full cycle: a pass that read the clock at `now`, then the loop,
      run by the scheduler exactly `FrameDelay` ms later, or at once. */
  function Cycle(p: Poller, now: Long): (r: Poller)
    requires LONG_MIN + PASS_INTERVAL < now - p.lastFrame <= LONG_MAX
    requires p.lastFrame + MAX_LAG <= LONG_MAX
    ensures r.polling == p.polling
  {
    var d := FrameDelay(p, now);
    var fire := if d > 0 then p.lastFrame + PASS_INTERVAL else now;
    Loop(p, fire, fire)
  }

  /** A pass that finishes within 40 ms keeps the poller on its grid: the
      loop fires exactly at the next grid point and moves `lastFrame` there. */
  lemma OnTimeCycleKeepsGrid(p: Poller, elapsed: int)
    requires 0 <= elapsed < PASS_INTERVAL
    requires LONG_MIN <= p.lastFrame && p.lastFrame + MAX_LAG <= LONG_MAX
    ensures Cycle(p, p.lastFrame + elapsed).lastFrame == p.lastFrame + PASS_INTERVAL
  {
  }

  /** Cycles whose passes take the given times. */
  function Cycles(p: Poller, elapsed: seq<int>): (r: Poller)
    requires forall k :: 0 <= k < |elapsed| ==> 0 <= elapsed[k] < PASS_INTERVAL
    requires 0 <= p.lastFrame && p.lastFrame + PASS_INTERVAL * |elapsed| + MAX_LAG <= LONG_MAX
    ensures r.polling == p.polling
    decreases |elapsed|
  {
    if elapsed == [] then p
    else
      var next := Cycle(p, p.lastFrame + elapsed[0]);
      OnTimeCycleKeepsGrid(p, elapsed[0]);
      Cycles(next, elapsed[1..])
  }

  /** Passes that each take under 40 ms keep the grid exact: after `k` cycles
      `lastFrame` is `40 * k` ms past the start, whatever the pass times. */
  lemma {:induction false} OnTimeCyclesStayOnGrid(p: Poller, elapsed: seq<int>)
    requires forall k :: 0 <= k < |elapsed| ==> 0 <= elapsed[k] < PASS_INTERVAL
    requires 0 <= p.lastFrame && p.lastFrame + PASS_INTERVAL * |elapsed| + MAX_LAG <= LONG_MAX
    ensures Cycles(p, elapsed).lastFrame == p.lastFrame + PASS_INTERVAL * |elapsed|
    decreases |elapsed|
  {
    if elapsed != [] {
      var next := Cycle(p, p.lastFrame + elapsed[0]);
      OnTimeCycleKeepsGrid(p, elapsed[0]);
      OnTimeCyclesStayOnGrid(next, elapsed[1..]);
    }
  }
}
