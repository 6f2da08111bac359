/** The RTP fixed header as bedrock writes it (`obsidian.bedrock.util.writeV2`),
    following section 5.1 of RFC 3550: version 2, no padding, no CSRCs,
    marker bit clear. Wire bytes are octets 0..255. */
module RtpHeader {
  import opened KotlinInt

  type Octet = x: int | 0 <= x < 0x100

  const HEADER_LENGTH: int := 12

  /** `writeChar(v)`: the low 16 bits of `v`, big-endian. */
  function BigEndian16(v: int): (bs: seq<Octet>)
    ensures |bs| == 2
  {
    [(v / 0x100) % 0x100, v % 0x100]
  }

  /** `writeInt(v)`: the low 32 bits of `v`, big-endian. */
  function BigEndian32(v: int): (bs: seq<Octet>)
    ensures |bs| == 4
  {
    [(v / 0x100_0000) % 0x100, (v / 0x1_0000) % 0x100, (v / 0x100) % 0x100, v % 0x100]
  }

  /** The unsigned value of two big-endian bytes. */
  function Unsigned16(bs: seq<Octet>): (v: nat)
    requires |bs| == 2
    ensures v < 0x1_0000
  {
    bs[0] as int * 0x100 + bs[1]
  }

  /** The unsigned value of four big-endian bytes. */
  function Unsigned32(bs: seq<Octet>): (v: nat)
    requires |bs| == 4
    ensures v < 0x1_0000_0000
  {
    ((bs[0] as int * 0x100 + bs[1]) * 0x100 + bs[2]) * 0x100 + bs[3]
  }

  /** Splitting off the low byte: `v mod 256k` is `(v / 256) mod k` bytes above `v mod 256`. */
  lemma SplitLowByte(v: int, k: int)
    requires k == 0x100 || k == 0x1_0000 || k == 0x100_0000
    ensures v % (0x100 * k) == ((v / 0x100) % k) * 0x100 + v % 0x100
  {
    var q := v / 0x100;
    var r := v % 0x100;
    var qq := q / k;
    var qr := q % k;
    assert v == qq * (0x100 * k) + (qr * 0x100 + r);
  }

  /** Reading back what `writeChar` wrote gives the value modulo 2^16. */
  lemma Unsigned16Inverts(v: int)
    ensures Unsigned16(BigEndian16(v)) == v % 0x1_0000
  {
    SplitLowByte(v, 0x100);
  }

  /** Reading back what `writeInt` wrote gives the value modulo 2^32. */
  lemma Unsigned32Inverts(v: int)
    ensures Unsigned32(BigEndian32(v)) == v % 0x1_0000_0000
  {
    var a := v / 0x100;
    var b := a / 0x100;
    SplitLowByte(v, 0x100_0000);
    SplitLowByte(a, 0x1_0000);
    SplitLowByte(b, 0x100);
    assert a / 0x100 / 0x100 == v / 0x100_0000 && a / 0x100 == v / 0x1_0000;
  }

  /** `writeV2(output, payloadType, seq, timestamp, ssrc, extension)`. */
  function WriteV2(output: seq<Octet>, payloadType: Byte, sequence: Int, timestamp: Int, ssrc: Int,
                   extension: bool): (r: seq<Octet>)
    ensures |r| == |output| + HEADER_LENGTH && r[..|output|] == output
    ensures r[|output|] == (if extension then 0x90 else 0x80)
    ensures r[|output| + 1] < 0x80
  {
    output
      + [if extension then 0x90 else 0x80]
      + [payloadType % 0x80]
      + BigEndian16(sequence)
      + BigEndian32(timestamp)
      + BigEndian32(ssrc)
  }

  /** A parsed fixed header: the fields RFC 3550 defines in its first 12 bytes. */
  datatype Header = Header(version: nat, padding: bool, extension: bool, csrcCount: nat,
                           marker: bool, payloadType: nat, sequence: nat, timestamp: nat, ssrc: nat)

  /** Reads the fixed header at the start of `bs`, the reference decoding of
      section 5.1 of RFC 3550. */
  function Parse(bs: seq<Octet>): (h: Header)
    requires |bs| >= HEADER_LENGTH
    ensures h.version < 4 && h.payloadType < 0x80 && h.sequence < 0x1_0000
  {
    Header(bs[0] / 0x40, (bs[0] / 0x20) % 2 == 1, (bs[0] / 0x10) % 2 == 1, bs[0] % 0x10,
           bs[1] / 0x80 == 1, bs[1] % 0x80,
           Unsigned16(bs[2..4]), Unsigned32(bs[4..8]), Unsigned32(bs[8..12]))
  }

  /** What `writeV2` appends reads back as a version-2 header without padding,
      CSRCs or marker, carrying the payload type's low 7 bits and the low 16
      and 32 bits of sequence, timestamp and SSRC. */
  lemma WriteThenParse(output: seq<Octet>, payloadType: Byte, sequence: Int, timestamp: Int, ssrc: Int,
                       extension: bool)
    ensures var r := WriteV2(output, payloadType, sequence, timestamp, ssrc, extension);
            Parse(r[|output|..]) ==
              Header(2, false, extension, 0, false, payloadType % 0x80,
                     sequence % 0x1_0000, timestamp % 0x1_0000_0000, ssrc % 0x1_0000_0000)
  {
    var r := WriteV2(output, payloadType, sequence, timestamp, ssrc, extension);
    var h := r[|output|..];
    assert h[2..4] == BigEndian16(sequence);
    assert h[4..8] == BigEndian32(timestamp);
    assert h[8..12] == BigEndian32(ssrc);
    Unsigned16Inverts(sequence);
    Unsigned32Inverts(timestamp);
    Unsigned32Inverts(ssrc);
  }
}

/** The sending half of bedrock's `DiscordUDPConnection`: the 16-bit
    sequence counter, the secret key from the session description and
    `createPacket`. `Ktor_DiscordUDPConnection` shares the counter and
    `createPacket`, but reads its session description differently. The
    encryption box is foreign code; its outcome is a parameter. */
module DiscordUdpConnection {
  import opened Wrappers
  import opened KotlinInt
  import opened RtpHeader
  import EncryptionMode

  const SEQ_MASK: int := 0xffff

  datatype Connection = Connection(
    ssrc: Int, sequence: int, secretKey: Option<seq<Byte>>,
    encryptionMode: Option<EncryptionMode.Impl>)
  {
    predicate Valid()
    {
      0 <= sequence <= SEQ_MASK
    }
  }

  /** The constructor: `seq` is a random Int masked to 16 bits; `random` is
      that draw. */
  function New(ssrc: Int, random: Int): (c: Connection)
    ensures c.Valid() && c.secretKey.None? && c.encryptionMode.None?
    ensures c.sequence == random % 0x1_0000
  {
    Connection(ssrc, random % 0x1_0000, None, None)
  }

  /** `nextSeq()`: the counter wraps from 0xffff to 0. */
  function NextSeq(c: Connection): (r: (Connection, int))
    requires c.Valid()
    ensures r.0.Valid() && r.0 == c.(sequence := r.1)
    ensures r.1 == (c.sequence + 1) % 0x1_0000
  {
    var s := if c.sequence + 1 > SEQ_MASK then 0 else c.sequence + 1;
    (c.(sequence := s), s)
  }

  /** `n` successive sequence numbers. */
  function Sequences(c: Connection, n: nat): (r: (Connection, seq<int>))
    requires c.Valid()
    ensures r.0.Valid() && |r.1| == n
    decreases n
  {
    if n == 0 then (c, [])
    else
      var first := NextSeq(c);
      var rest := Sequences(first.0, n - 1);
      (rest.0, [first.1] + rest.1)
  }

  /** The `i`-th sequence number handed out is `start + i + 1` modulo 2^16:
      the counter never skips or repeats within a cycle of 65536 packets. */
  lemma {:induction false} SequencesCount(c: Connection, n: nat)
    requires c.Valid()
    ensures var (c', ss) := Sequences(c, n);
            c'.sequence == (c.sequence + n) % 0x1_0000 &&
            forall i :: 0 <= i < n ==> ss[i] == (c.sequence + i + 1) % 0x1_0000
    decreases n
  {
    if n > 0 {
      var first := NextSeq(c);
      SequencesCount(first.0, n - 1);
      var rest := Sequences(first.0, n - 1);
      var ss := Sequences(c, n).1;
      assert ss == [first.1] + rest.1;
      forall i | 0 <= i < n
        ensures ss[i] == (c.sequence + i + 1) % 0x1_0000
      {
        if i > 0 {
          assert ss[i] == rest.1[i - 1];
          ModAdd(c.sequence + 1, i);
        }
      }
      ModAdd(c.sequence + 1, n - 1);
    }
  }

  lemma ModAdd(a: int, b: int)
    ensures (a % 0x1_0000 + b) % 0x1_0000 == (a + b) % 0x1_0000
  {
    var q := a / 0x1_0000;
    assert a == q * 0x1_0000 + a % 0x1_0000;
    assert (a % 0x1_0000 + b) == (a + b) - q * 0x1_0000;
    ShiftMod(a + b, -q);
  }

  lemma ShiftMod(x: int, k: int)
    ensures (x + k * 0x1_0000) % 0x1_0000 == x % 0x1_0000
  {
    var m := 0x1_0000;
    var q := x / m;
    var r := x % m;
    assert x + k * m == (q + k) * m + r;
  }

  /** One secret-key element: `(k and 0xff).toByte()`. */
  function KeyByte(k: Int): (b: Byte)
    ensures (b - k) % 0x100 == 0
  {
    WrapByte(k % 0x100)
  }

  /** `handleSessionDescription`: the mode is looked up first; an unknown one
      leaves the connection without a mode and throws (`checkNotNull`) before
      the key is replaced. Otherwise the key keeps the received length, each
      element reduced to a byte, and frame polling starts. */
  function HandleSessionDescription(c: Connection, mode: string, key: seq<Int>): (r: (Connection, Result<(), Failure>))
    ensures r.0.ssrc == c.ssrc && r.0.sequence == c.sequence
    ensures r.0.encryptionMode == EncryptionMode.Get(mode)
    ensures r.1.Err? <==> !EncryptionMode.Supported(mode)
    ensures r.1.Err? ==> r.1.error == IllegalState && r.0.secretKey == c.secretKey
    ensures r.1.Ok? ==> (r.0.secretKey.Some? && |r.0.secretKey.value| == |key| &&
                         forall i :: 0 <= i < |key| ==> (r.0.secretKey.value[i] - key[i]) % 0x100 == 0)
  {
    var c1 := c.(encryptionMode := EncryptionMode.Get(mode));
    if c1.encryptionMode.None? then (c1, Err(IllegalState))
    else (c1.(secretKey := Some(seq(|key|, i requires 0 <= i < |key| => KeyByte(key[i])))), Ok(()))
  }

  /** `createPacket(payloadType, timestamp, data, len, extension)`. `box` is
      what the encryption mode's `box` appends after the header, or None when
      it fails. Without a key nothing happens; a key without a mode (left by
      a later unsupported session description) fails on `encryptionMode!!`
      after the sequence number was taken. */
  function CreatePacket(c: Connection, payloadType: Byte, timestamp: Int, extension: bool,
                        box: Option<seq<Octet>>): (r: (Connection, Result<Option<seq<Octet>>, Failure>))
    requires c.Valid()
    ensures r.0.Valid() && r.0.ssrc == c.ssrc && r.0.secretKey == c.secretKey
    ensures c.secretKey.None? ==> r == (c, Ok(None))
    ensures c.secretKey.Some? ==> r.0 == NextSeq(c).0
    ensures c.secretKey.Some? && c.encryptionMode.None? ==> r.1 == Err(NullPointer)
    ensures c.secretKey.Some? && c.encryptionMode.Some? && box.None? ==> r.1 == Ok(None)
    ensures r.1.Ok? && r.1.value.Some? ==>
              |r.1.value.value| >= HEADER_LENGTH &&
              Parse(r.1.value.value) ==
                Header(2, false, extension, 0, false, payloadType % 0x80,
                       r.0.sequence, timestamp % 0x1_0000_0000, c.ssrc % 0x1_0000_0000)
  {
    if c.secretKey.None? then (c, Ok(None))
    else
      var (c1, s) := NextSeq(c);
      var header := WriteV2([], payloadType, s, timestamp, c.ssrc, extension);
      WriteThenParse([], payloadType, s, timestamp, c.ssrc, extension);
      assert header[0..] == header;
      if c1.encryptionMode.None? then (c1, Err(NullPointer))
      else if box.None? then (c1, Ok(None))
      else
        var packet := header + box.value;
        assert packet[0] == header[0] && packet[1] == header[1];
        assert packet[2..4] == header[2..4] && packet[4..8] == header[4..8] && packet[8..12] == header[8..12];
        (c1, Ok(Some(packet)))
  }

  /** After an unsupported mode replaces a supported one, every packet
      attempt fails with a NullPointerException instead of being skipped. */
  lemma UnsupportedModeAfterKeyBreaksSending(c: Connection, good: string, bad: string, key: seq<Int>,
                                             payloadType: Byte, timestamp: Int, box: Option<seq<Octet>>)
    requires c.Valid() && EncryptionMode.Supported(good) && !EncryptionMode.Supported(bad)
    ensures var c1 := HandleSessionDescription(c, good, key).0;
            var c2 := HandleSessionDescription(c1, bad, key).0;
            CreatePacket(c2, payloadType, timestamp, false, box).1 == Err(NullPointer)
  {
  }
}
