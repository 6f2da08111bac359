/** The Java-side view of the native UDP queue manager
    (`com.sedmelluq.discord.lavaplayer.udpqueue.natives.UdpQueueManager`).

    The native library is a per-key store of bounded FIFO queues. Only what the
    wrapper's documentation promises is modelled: a queue is created by its
    first packet, holds at most `bufferCapacity` packets, rejects packets once
    full and disappears when its last packet has been sent. The sending tick
    itself is the `SendNext` step; its timing and fairness are not modelled. */
module UdpQueueManager {
  import opened Wrappers
  import opened KotlinInt

  /** A packet as handed to `queuePacket`: its remaining bytes and the target address. */
  datatype Packet = Packet(payload: seq<int>, host: string, port: int)

  datatype Manager = Manager(
    capacity: Int, interval: Long, maximumPacketSize: Int,
    queues: map<Long, seq<Packet>>, released: bool)
  {
    /** Every live queue holds between one and `capacity` packets. */
    predicate Valid()
    {
      forall key :: key in queues ==> 0 < |queues[key]| <= capacity
    }
  }

  /** The constructor: a native instance with no queues yet. */
  function New(bufferCapacity: Int, packetInterval: Long, maximumPacketSize: Int): (m: Manager)
    ensures m.Valid() && !m.released && m.queues == map[]
    ensures m.capacity == bufferCapacity && m.interval == packetInterval
    ensures m.maximumPacketSize == maximumPacketSize
  {
    Manager(bufferCapacity, packetInterval, maximumPacketSize, map[], false)
  }

  /** The packets waiting in the queue of `key` (none when it does not exist). */
  function Waiting(m: Manager, key: Long): seq<Packet>
  {
    if key in m.queues then m.queues[key] else []
  }

  /** `getRemainingCapacity(key)`: free slots of the queue, the full capacity
      for a queue that does not exist yet, and 0 once released. */
  function RemainingCapacity(m: Manager, key: Long): (r: Int)
    requires m.Valid()
    ensures m.released ==> r == 0
    ensures !m.released && key !in m.queues ==> r == m.capacity
    ensures !m.released ==> r + |Waiting(m, key)| == m.capacity
    ensures !m.released && 0 <= m.capacity ==> 0 <= r <= m.capacity
  {
    if m.released then 0 else m.capacity - |Waiting(m, key)|
  }

  /** `getCapacity()`. */
  function Capacity(m: Manager): Int
  {
    m.capacity
  }

  /** `queuePacket(key, packet, address)`. The packet's remaining bytes are
      copied into a direct buffer of `maximumPacketSize` bytes, so a longer
      packet makes `ByteBuffer.put` throw; otherwise the native queue accepts
      it unless it is full. */
  function QueuePacket(m: Manager, key: Long, packet: Packet): (r: Result<(Manager, bool), Failure>)
    requires m.Valid()
    ensures m.released ==> r == Ok((m, false))
    ensures !m.released && |packet.payload| > m.maximumPacketSize ==> r == Err(BufferOverflow)
    ensures r.Ok? ==> r.value.0.Valid() && r.value.0.capacity == m.capacity
    ensures r.Ok? && r.value.1 ==>
              !m.released && |Waiting(m, key)| < m.capacity &&
              r.value.0 == m.(queues := m.queues[key := Waiting(m, key) + [packet]])
    ensures r.Ok? && !r.value.1 ==> r.value.0 == m
    ensures !m.released && |packet.payload| <= m.maximumPacketSize ==>
              r.Ok? && (r.value.1 <==> |Waiting(m, key)| < m.capacity)
  {
    if m.released then Ok((m, false))
    else if |packet.payload| > m.maximumPacketSize then Err(BufferOverflow)
    else if |Waiting(m, key)| >= m.capacity then Ok((m, false))
    else Ok((m.(queues := m.queues[key := Waiting(m, key) + [packet]]), true))
  }

  /** The native sender emitting the head of one queue; a queue that becomes
      empty is deleted. */
  function SendNext(m: Manager, key: Long): (r: (Manager, Option<Packet>))
    requires m.Valid()
    ensures r.0.Valid() && r.0.capacity == m.capacity && r.0.released == m.released
    ensures key !in m.queues ==> r == (m, None)
    ensures key in m.queues ==>
              r.1 == Some(m.queues[key][0]) && Waiting(r.0, key) == m.queues[key][1..]
    ensures forall other :: other != key ==> Waiting(r.0, other) == Waiting(m, other)
  {
    if key !in m.queues then (m, None)
    else
      var q := m.queues[key];
      var rest := if |q| == 1 then m.queues - {key} else m.queues[key := q[1..]];
      (m.(queues := rest), Some(q[0]))
  }

  /** `freeResources()`: mark released and destroy the native instance. */
  function FreeResources(m: Manager): (r: Manager)
    ensures r.Valid() && r.released && r.capacity == m.capacity
    ensures forall key :: RemainingCapacity(r, key) == 0
    ensures forall key, p :: QueuePacket(r, key, p) == Ok((r, false))
  {
    m.(released := true, queues := map[])
  }

  /** `queuePacket` of each packet in turn; the results are the accept flags. */
  function QueueAll(m: Manager, key: Long, ps: seq<Packet>): (r: Result<(Manager, seq<bool>), Failure>)
    requires m.Valid()
    ensures r.Ok? ==> r.value.0.Valid() && |r.value.1| == |ps|
    decreases |ps|
  {
    if ps == [] then Ok((m, []))
    else
      match QueuePacket(m, key, ps[0])
      case Err(e) => Err(e)
      case Ok((m', accepted)) =>
        match QueueAll(m', key, ps[1..])
        case Err(e) => Err(e)
        case Ok((m'', flags)) => Ok((m'', [accepted] + flags))
  }

  /** The rest of a run of `queuePacket` calls: `qs` queued after the run `r`. */
  function Continue(r: Result<(Manager, seq<bool>), Failure>, key: Long, qs: seq<Packet>): Result<(Manager, seq<bool>), Failure>
    requires r.Ok? ==> r.value.0.Valid()
  {
    match r
    case Err(e) => Err(e)
    case Ok((m1, fs)) =>
      match QueueAll(m1, key, qs)
      case Err(e) => Err(e)
      case Ok((m2, gs)) => Ok((m2, fs + gs))
  }

  /** Queueing `ps + qs` is queueing `ps`, then `qs` from where that left off;
      a failure in `ps` ends the run. */
  lemma {:induction false} QueueAllAppend(m: Manager, key: Long, ps: seq<Packet>, qs: seq<Packet>)
    requires m.Valid()
    ensures QueueAll(m, key, ps + qs) == Continue(QueueAll(m, key, ps), key, qs)
    decreases |ps|
  {
    if ps == [] {
      assert ps + qs == qs;
      match QueueAll(m, key, qs)
      case Err(e) =>
      case Ok((m2, gs)) => assert [] + gs == gs;
    } else {
      assert (ps + qs)[0] == ps[0];
      assert (ps + qs)[1..] == ps[1..] + qs;
      match QueuePacket(m, key, ps[0])
      case Err(e) =>
      case Ok((m', accepted)) =>
        QueueAllAppend(m', key, ps[1..], qs);
        match QueueAll(m', key, ps[1..])
        case Err(e) =>
        case Ok((m1, fs)) =>
          match QueueAll(m1, key, qs)
          case Err(e) =>
          case Ok((m2, gs)) =>
            assert [accepted] + (fs + gs) == ([accepted] + fs) + gs;
    }
  }

  /** `n` sends from the queue of `key`. */
  function SendAll(m: Manager, key: Long, n: nat): (r: (Manager, seq<Packet>))
    requires m.Valid()
    ensures r.0.Valid()
    decreases n
  {
    if n == 0 then (m, [])
    else
      var (m', sent) := SendNext(m, key);
      var (m'', rest) := SendAll(m', key, n - 1);
      (m'', (if sent.Some? then [sent.value] else []) + rest)
  }

  predicate FitsBuffer(m: Manager, ps: seq<Packet>)
  {
    forall k :: 0 <= k < |ps| ==> |ps[k].payload| <= m.maximumPacketSize
  }

  /** Up to the capacity, packets queued under one key are all accepted and
      appended behind the ones already waiting. */
  lemma {:induction false} QueueAllAppends(m: Manager, key: Long, ps: seq<Packet>)
    requires m.Valid() && !m.released && FitsBuffer(m, ps)
    requires |Waiting(m, key)| + |ps| <= m.capacity
    ensures QueueAll(m, key, ps).Ok?
    ensures var (m', flags) := QueueAll(m, key, ps).value;
            !m'.released && Waiting(m', key) == Waiting(m, key) + ps &&
            (forall k :: 0 <= k < |flags| ==> flags[k]) &&
            (forall other :: other != key ==> Waiting(m', other) == Waiting(m, other))
    decreases |ps|
  {
    if ps != [] {
      var r := QueuePacket(m, key, ps[0]);
      var m1 := r.value.0;
      assert Waiting(m1, key) == Waiting(m, key) + [ps[0]];
      assert FitsBuffer(m1, ps[1..]) by {
        forall k | 0 <= k < |ps[1..]| ensures |ps[1..][k].payload| <= m1.maximumPacketSize {
          assert ps[1..][k] == ps[k + 1];
        }
      }
      QueueAllAppends(m1, key, ps[1..]);
      assert Waiting(m, key) + [ps[0]] + ps[1..] == Waiting(m, key) + ps;
    }
  }

  /** Sending drains a queue in FIFO order and deletes it once empty. */
  lemma {:induction false} SendAllDrains(m: Manager, key: Long)
    requires m.Valid()
    ensures var (m', sent) := SendAll(m, key, |Waiting(m, key)|);
            sent == Waiting(m, key) && key !in m'.queues
    decreases |Waiting(m, key)|
  {
    var n := |Waiting(m, key)|;
    if n > 0 {
      var (m1, s) := SendNext(m, key);
      assert |Waiting(m1, key)| == n - 1;
      SendAllDrains(m1, key);
      assert [s.value] + Waiting(m1, key) == Waiting(m, key);
    }
  }

  /** A fresh queue hands back exactly the packets queued into it, in order,
      and no longer exists afterwards. */
  lemma QueueThenSendIsFifo(m: Manager, key: Long, ps: seq<Packet>)
    requires m.Valid() && !m.released && key !in m.queues && FitsBuffer(m, ps)
    requires |ps| <= m.capacity
    ensures QueueAll(m, key, ps).Ok?
    ensures var m' := QueueAll(m, key, ps).value.0;
            var (m'', sent) := SendAll(m', key, |ps|);
            sent == ps && key !in m''.queues
  {
    QueueAllAppends(m, key, ps);
    var m' := QueueAll(m, key, ps).value.0;
    assert Waiting(m', key) == ps;
    SendAllDrains(m', key);
  }
}

/** The pools of queue managers (`obsidian.bedrock.codec.framePoller.QueueManagerPool`
    and `moe.kyokobot.koe.codec.udpqueue.QueueManagerPool`). Both hand out
    sequential queue keys from an AtomicLong and bind key `k` to manager
    `k % size`; they differ only in how they are constructed. */
module QueueManagerPool {
  import opened Wrappers
  import opened KotlinInt
  import opened UdpQueueManager

  const OPUS_FRAME_DURATION: Int := 20
  const MAXIMUM_PACKET_SIZE: Int := 4096
  const NANOS_PER_MILLI: int := 1_000_000

  datatype Pool = Pool(managers: seq<Manager>, queueKeySeq: Long, closed: bool)
  {
    predicate Valid()
    {
      forall i :: 0 <= i < |managers| ==> managers[i].Valid()
    }
  }

  /** A queue handle: the key and the index of the manager it is bound to. */
  datatype Wrapper = Wrapper(queueKey: Long, manager: nat)

  /** The managers every constructor creates. */
  function Managers(size: nat, bufferDuration: Int, frameDuration: Int): (ms: seq<Manager>)
    requires frameDuration != 0
    ensures |ms| == size
    ensures forall i :: 0 <= i < size ==>
              ms[i] == New(WrapInt(TDiv(bufferDuration, frameDuration)),
                           WrapLong(frameDuration * NANOS_PER_MILLI), MAXIMUM_PACKET_SIZE)
  {
    seq(size, _ => New(WrapInt(TDiv(bufferDuration, frameDuration)),
                       WrapLong(frameDuration * NANOS_PER_MILLI), MAXIMUM_PACKET_SIZE))
  }

  /** The bedrock pool's constructor: a size below 1 is rejected; each manager
      holds `bufferDuration / 20` packets sent 20 ms apart. */
  function NewBedrock(size: Int, bufferDuration: Int): (r: Result<Pool, Failure>)
    ensures size <= 0 <==> r == Err(IllegalArgument)
    ensures r.Ok? ==> r.value.Valid() && |r.value.managers| == size &&
                      r.value.queueKeySeq == 0 && !r.value.closed
    ensures r.Ok? ==> forall i :: 0 <= i < size ==>
              Capacity(r.value.managers[i]) == TDiv(bufferDuration, 20) &&
              r.value.managers[i].interval == 20_000_000 &&
              r.value.managers[i].maximumPacketSize == 4096
  {
    if size <= 0 then Err(IllegalArgument)
    else Ok(Pool(Managers(size, bufferDuration, OPUS_FRAME_DURATION), 0, false))
  }

  /** The koe pool's constructor. It does not check the size: `List(size)`
      rejects a negative size and a size of 0 is accepted. `FRAME_DURATION` is
      koe's Opus frame length, defined outside this source; a zero frame
      duration would divide by zero. */
  function NewKoe(size: Int, bufferDuration: Int, frameDuration: Int): (r: Result<Pool, Failure>)
    ensures size < 0 ==> r == Err(IllegalArgument)
    ensures size > 0 && frameDuration == 0 ==> r == Err(ArithmeticDivByZero)
    ensures size == 0 || (size > 0 && frameDuration != 0) ==> r.Ok?
    ensures r.Ok? ==> r.value.Valid() && |r.value.managers| == size &&
                      r.value.queueKeySeq == 0 && !r.value.closed
    ensures r.Ok? ==> forall i :: 0 <= i < size ==>
              Capacity(r.value.managers[i]) == WrapInt(TDiv(bufferDuration, frameDuration)) &&
              r.value.managers[i].interval == WrapLong(frameDuration * 1_000_000)
  {
    if size < 0 then Err(IllegalArgument)
    else if size == 0 then Ok(Pool([], 0, false))
    else if frameDuration == 0 then Err(ArithmeticDivByZero)
    else Ok(Pool(Managers(size, bufferDuration, frameDuration), 0, false))
  }

  /** `getWrapperForKey(key)`: the manager at `(key % size).toInt()`, where
      Kotlin's `%` keeps the sign of the key. */
  function GetWrapperForKey(p: Pool, key: Long): (r: Result<Wrapper, Failure>)
    ensures |p.managers| == 0 ==> r == Err(ArithmeticDivByZero)
    ensures |p.managers| > 0 && key >= 0 ==> r == Ok(Wrapper(key, key % |p.managers|))
    ensures |p.managers| > 0 && key < 0 ==> r.Ok? ==> r.value == Wrapper(key, 0)
    ensures -|p.managers| < key < 0 ==> r == Err(IndexOutOfBounds)
    ensures r.Err? ==> r.error == ArithmeticDivByZero || r.error == IndexOutOfBounds
  {
    if |p.managers| == 0 then Err(ArithmeticDivByZero)
    else
      var idx := TRem(key, |p.managers|);
      TRemAgrees(key, |p.managers|);
      if 0 <= idx < |p.managers| then Ok(Wrapper(key, idx)) else Err(IndexOutOfBounds)
  }

  /** `getNextWrapper()`: the wrapper for the next key of the AtomicLong. */
  function GetNextWrapper(p: Pool): (r: (Pool, Result<Wrapper, Failure>))
    ensures r.0 == p.(queueKeySeq := WrapLong(p.queueKeySeq + 1))
    ensures r.1.Ok? ==> r.1.value.queueKey == p.queueKeySeq
  {
    (p.(queueKeySeq := WrapLong(p.queueKeySeq + 1)), GetWrapperForKey(p, p.queueKeySeq))
  }

  /** `n` calls of `getNextWrapper`, with the wrappers in call order. */
  function NextWrappers(p: Pool, n: nat): (r: (Pool, seq<Result<Wrapper, Failure>>))
    ensures |r.1| == n
    decreases n
  {
    if n == 0 then (p, [])
    else
      var first := GetNextWrapper(p);
      var rest := NextWrappers(first.0, n - 1);
      (rest.0, [first.1] + rest.1)
  }

  /** Successive wrappers get keys 0, 1, 2, ... and are spread round-robin
      over the managers. */
  lemma {:induction false} NextWrappersRoundRobin(p: Pool, n: nat)
    requires |p.managers| > 0 && 0 <= p.queueKeySeq && p.queueKeySeq + n <= LONG_MAX
    ensures var (p', ws) := NextWrappers(p, n);
            p'.queueKeySeq == p.queueKeySeq + n && p'.managers == p.managers &&
            forall i :: 0 <= i < n ==>
              ws[i] == Ok(Wrapper(p.queueKeySeq + i, (p.queueKeySeq + i) % |p.managers|))
    decreases n
  {
    if n > 0 {
      var first := GetNextWrapper(p);
      var k := p.queueKeySeq;
      assert first.0.queueKeySeq == k + 1;
      assert first.1 == Ok(Wrapper(k, k % |p.managers|));
      NextWrappersRoundRobin(first.0, n - 1);
      var rest := NextWrappers(first.0, n - 1);
      var ws := NextWrappers(p, n).1;
      assert ws == [first.1] + rest.1;
      forall i | 0 <= i < n
        ensures ws[i] == Ok(Wrapper(k + i, (k + i) % |p.managers|))
      {
        if i > 0 {
          assert ws[i] == rest.1[i - 1];
        }
      }
    }
  }

  /** The wrapper's `remainingCapacity`: its manager, asked about its key. */
  function WrapperRemainingCapacity(p: Pool, w: Wrapper): (r: Int)
    requires p.Valid() && w.manager < |p.managers|
    ensures r == RemainingCapacity(p.managers[w.manager], w.queueKey)
  {
    RemainingCapacity(p.managers[w.manager], w.queueKey)
  }

  /** The wrapper's `queuePacket`: only its own manager changes. */
  function WrapperQueuePacket(p: Pool, w: Wrapper, packet: Packet): (r: Result<(Pool, bool), Failure>)
    requires p.Valid() && w.manager < |p.managers|
    ensures r.Ok? ==> r.value.0.Valid() && |r.value.0.managers| == |p.managers|
    ensures r.Ok? ==> forall i :: 0 <= i < |p.managers| && i != w.manager ==>
                        r.value.0.managers[i] == p.managers[i]
    ensures r.Ok? <==> QueuePacket(p.managers[w.manager], w.queueKey, packet).Ok?
    ensures r.Ok? ==> (r.value.0.managers[w.manager], r.value.1) ==
                      QueuePacket(p.managers[w.manager], w.queueKey, packet).value
  {
    match QueuePacket(p.managers[w.manager], w.queueKey, packet)
    case Err(e) => Err(e)
    case Ok((m, accepted)) => Ok((p.(managers := p.managers[w.manager := m]), accepted))
  }

  /** `close()`: the first call releases every manager, later calls do nothing. */
  function Close(p: Pool): (r: Pool)
    requires p.Valid()
    ensures r.Valid() && r.closed && |r.managers| == |p.managers|
    ensures p.closed ==> r == p
    ensures !p.closed ==> forall i :: 0 <= i < |r.managers| ==> r.managers[i].released
  {
    if p.closed then p
    else p.(closed := true, managers := seq(|p.managers|, i requires 0 <= i < |p.managers| =>
                                              FreeResources(p.managers[i])))
  }

  /** A second `close` does nothing. */
  lemma CloseIsIdempotent(p: Pool)
    requires p.Valid()
    ensures Close(Close(p)) == Close(p)
  {
  }

  /** After the first `close`, every wrapper reports no free slots. */
  lemma ClosedPoolHasNoCapacity(p: Pool, w: Wrapper)
    requires p.Valid() && !p.closed && w.manager < |p.managers|
    ensures WrapperRemainingCapacity(Close(p), w) == 0
  {
  }
}
