/** Voice IP discovery (`obsidian.bedrock.handler.HolepunchHandler`).

    The handler sends a 74-byte discovery request once a second until the
    voice server answers with a 74-byte response holding our external IP and
    port, and gives up after eleven sends. Completing the future is the
    `outcome` field; the one-second timer is the caller of `Holepunch`. */
module Holepunch {
  import opened Wrappers
  import opened KotlinInt
  import opened RtpHeader

  const PACKET_LENGTH: int := 74
  const IP_OFFSET: int := 8
  const PORT_OFFSET: int := 72
  const MAX_TRIES: int := 10

  /** The discovery request: type 0x0001, length 0x0046 (70), the SSRC
      big-endian, then zero padding up to 74 bytes. */
  function DiscoveryRequest(ssrc: Int): (r: seq<Octet>)
    ensures |r| == PACKET_LENGTH
    ensures r[..4] == [0x00, 0x01, 0x00, 0x46]
    ensures Unsigned32(r[4..8]) == ssrc % 0x1_0000_0000
    ensures forall i :: 8 <= i < PACKET_LENGTH ==> r[i] == 0
  {
    Unsigned32Inverts(ssrc);
    var r := BigEndian16(1) + BigEndian16(0x46) + BigEndian32(ssrc) + seq(PACKET_LENGTH - 8, _ => 0);
    assert r[4..8] == BigEndian32(ssrc);
    r
  }

  /** `b.toChar()` of a JVM byte: a negative byte becomes a char in U+FF80..U+FFFF. */
  function ByteChar(o: Octet): char
  {
    if o < 0x80 then o as char else (o - 0x100 + 0x1_0000) as char
  }

  /** The index of the first zero byte of `buf` at or after `i`. */
  function FirstZero(buf: seq<Octet>, i: nat): (r: Option<nat>)
    ensures r.None? <==> forall k :: i <= k < |buf| ==> buf[k] != 0
    ensures r.Some? ==> i <= r.value < |buf| && buf[r.value] == 0 &&
                        forall k :: i <= k < r.value ==> buf[k] != 0
    decreases |buf| - i
  {
    if i >= |buf| then None
    else if buf[i] == 0 then Some(i)
    else FirstZero(buf, i + 1)
  }

  /** The bytes of `buf` from `i` up to, not including, the first zero byte,
      as chars; reading past the end throws. */
  function ReadIp(buf: seq<Octet>, i: nat): (r: Result<string, Failure>)
    ensures r.Err? <==> FirstZero(buf, i).None?
    ensures r.Err? ==> r.error == IndexOutOfBounds
    ensures r.Ok? ==> |r.value| == FirstZero(buf, i).value - i &&
                      forall k :: 0 <= k < |r.value| ==> r.value[k] == ByteChar(buf[i + k])
    decreases |buf| - i
  {
    if i >= |buf| then Err(IndexOutOfBounds)
    else if buf[i] == 0 then Ok("")
    else
      match ReadIp(buf, i + 1)
      case Err(e) => Err(e)
      case Ok(rest) => Ok([ByteChar(buf[i])] + rest)
  }

  datatype Address = Address(ip: string, port: nat)

  /** `channelRead0` on a datagram while discovery is pending: a datagram of
      any length but 74 is ignored (None); otherwise the IP starts at byte 8
      and the port is the unsigned big-endian short at byte 72. */
  function ParseResponse(buf: seq<Octet>): (r: Result<Option<Address>, Failure>)
    ensures |buf| != PACKET_LENGTH ==> r == Ok(None)
    ensures |buf| == PACKET_LENGTH ==> r.Err? || r.value.Some?
    ensures r.Ok? && r.value.Some? ==>
              r.value.value.port == buf[PORT_OFFSET] as int * 0x100 + buf[PORT_OFFSET + 1] &&
              ReadIp(buf, IP_OFFSET) == Ok(r.value.value.ip)
  {
    if |buf| != PACKET_LENGTH then Ok(None)
    else
      match ReadIp(buf, IP_OFFSET)
      case Err(e) => Err(e)
      case Ok(ip) => Ok(Some(Address(ip, Unsigned16(buf[PORT_OFFSET..PORT_OFFSET + 2]))))
  }

  /** A discovery response as the voice server lays it out: 8 header bytes,
      the IP as NUL-terminated ASCII padded with zeros, the port at byte 72. */
  function Response(header: seq<Octet>, ip: seq<Octet>, port: nat): (r: seq<Octet>)
    requires |header| == IP_OFFSET && |ip| < PORT_OFFSET - IP_OFFSET && port < 0x1_0000
    ensures |r| == PACKET_LENGTH
  {
    header + ip + seq(PORT_OFFSET - IP_OFFSET - |ip|, _ => 0) + BigEndian16(port)
  }

  /** Parsing a well-formed response gives back the IP (one char per
      non-zero ASCII byte) and the port. */
  lemma ResponseRoundTrip(header: seq<Octet>, ip: seq<Octet>, port: nat)
    requires |header| == IP_OFFSET && |ip| < PORT_OFFSET - IP_OFFSET && port < 0x1_0000
    requires forall k :: 0 <= k < |ip| ==> 0 < ip[k] < 0x80
    ensures ParseResponse(Response(header, ip, port)) ==
              Ok(Some(Address(seq(|ip|, k requires 0 <= k < |ip| => ip[k] as char), port)))
  {
    var r := Response(header, ip, port);
    var z := IP_OFFSET + |ip|;
    assert r[z] == 0;
    assert forall k :: IP_OFFSET <= k < z ==> r[k] == ip[k - IP_OFFSET];
    assert FirstZero(r, IP_OFFSET) == Some(z);
    var got := ReadIp(r, IP_OFFSET).value;
    assert got == seq(|ip|, k requires 0 <= k < |ip| => ip[k] as char);
    assert r[PORT_OFFSET..PORT_OFFSET + 2] == BigEndian16(port);
    Unsigned16Inverts(port);
  }

  /** The handler's state: send attempts so far and the completed future. */
  datatype Handler = Handler(tries: int, outcome: Option<Result<Address, Failure>>)

  function New(): (h: Handler)
    ensures h.tries == 0 && h.outcome.None?
  {
    Handler(0, None)
  }

  /** `holepunch(ctx)`: nothing once the future is complete; the timeout once
      more than ten attempts were made (`tries++ > 10`); otherwise one more
      request is sent (the result's second half). */
  function Punch(h: Handler, ssrc: Int): (r: (Handler, Option<seq<Octet>>))
    ensures h.outcome.Some? ==> r == (h, None)
    ensures h.outcome.None? && h.tries > MAX_TRIES ==> r.1.None? && r.0.outcome == Some(Err(SocketTimeout))
    ensures h.outcome.None? && h.tries <= MAX_TRIES ==>
              r == (h.(tries := h.tries + 1), Some(DiscoveryRequest(ssrc)))
  {
    if h.outcome.Some? then (h, None)
    else if h.tries > MAX_TRIES then (Handler(h.tries + 1, Some(Err(SocketTimeout))), None)
    else (h.(tries := h.tries + 1), Some(DiscoveryRequest(ssrc)))
  }

  /** `channelRead0`: a response completes a pending discovery; a complete
      future ignores everything. A datagram whose IP has no terminator makes
      `readByte` throw, leaving the handler unchanged. */
  function Receive(h: Handler, buf: seq<Octet>): (r: (Handler, Result<(), Failure>))
    ensures h.outcome.Some? ==> r == (h, Ok(()))
    ensures r.1.Err? ==> r.0 == h
    ensures h.outcome.None? && |buf| != PACKET_LENGTH ==> r == (h, Ok(()))
    ensures h.outcome.None? && ParseResponse(buf).Err? ==> r == (h, Err(ParseResponse(buf).error))
    ensures h.outcome.None? && ParseResponse(buf).Ok? && ParseResponse(buf).value.Some? ==>
              r == (h.(outcome := Some(Ok(ParseResponse(buf).value.value))), Ok(()))
  {
    if h.outcome.Some? then (h, Ok(()))
    else
      match ParseResponse(buf)
      case Err(e) => (h, Err(e))
      case Ok(None) => (h, Ok(()))
      case Ok(Some(a)) => (h.(outcome := Some(Ok(a))), Ok(()))
  }

  /** `k` timer firings with no response in between; the number of requests sent. */
  function Punches(h: Handler, ssrc: Int, k: nat): (r: (Handler, nat))
    decreases k
  {
    if k == 0 then (h, 0)
    else
      var (h1, sent) := Punch(h, ssrc);
      var (h2, n) := Punches(h1, ssrc, k - 1);
      (h2, n + (if sent.Some? then 1 else 0))
  }

  /** Without an answer, a fresh handler sends at most eleven requests; the
      twelfth firing fails discovery with a timeout. */
  lemma {:induction false} ElevenAttempts(h: Handler, ssrc: Int, k: nat)
    requires h.outcome.None? && 0 <= h.tries <= MAX_TRIES + 1
    ensures var (h', sent) := Punches(h, ssrc, k);
            sent == Min(k, MAX_TRIES + 1 - h.tries) &&
            (h'.outcome.Some? <==> k > MAX_TRIES + 1 - h.tries) &&
            (h'.outcome.Some? ==> h'.outcome == Some(Err(SocketTimeout)))
    decreases k
  {
    if k > 0 {
      var (h1, sent) := Punch(h, ssrc);
      if h.tries <= MAX_TRIES {
        ElevenAttempts(h1, ssrc, k - 1);
      } else {
        StaysDone(h1, ssrc, k - 1);
      }
    }
  }

  /** Once the future is complete, the timer does nothing. */
  lemma {:induction false} StaysDone(h: Handler, ssrc: Int, k: nat)
    requires h.outcome.Some?
    ensures Punches(h, ssrc, k) == (h, 0)
    decreases k
  {
    if k > 0 {
      StaysDone(h, ssrc, k - 1);
    }
  }

  function Min(a: int, b: int): int
  {
    if a < b then a else b
  }
}
