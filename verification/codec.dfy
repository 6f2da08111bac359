/** Bedrock's codec registry (`obsidian.bedrock.codec.Codec` and `OpusCodec`).

    A codec is a value with a runtime class, a name, an RTP payload type and
    a priority. Only Opus is registered. Equality follows `Codec.equals`:
    same runtime class and same payload type. */
module Codec {
  import opened Wrappers
  import opened KotlinInt

  datatype CodecType = Audio

  /** `CodecDescription`, the JSON form sent in SELECT_PROTOCOL. */
  datatype CodecDescription = CodecDescription(name: string, payloadType: Byte, priority: Int, kind: CodecType)

  /** A codec object; `runtimeClass` is its JVM class name. */
  datatype Codec = Codec(runtimeClass: string, name: string, payloadType: Byte, priority: Int)
  {
    /** `codecType` is fixed for every codec. */
    function CodecKind(): CodecType { Audio }

    /** `rtxPayloadType` is fixed for every codec. */
    function RtxPayloadType(): Byte { 0 }

    function Description(): CodecDescription
    {
      CodecDescription(name, payloadType, priority, CodecKind())
    }
  }

  const OPUS_CLASS: string := "obsidian.bedrock.codec.OpusCodec"
  const OPUS_PAYLOAD_TYPE: Byte := 120
  const OPUS_FRAME_DURATION: Int := 20
  /** Three bytes F8 FF FE, as signed JVM bytes. */
  const SILENCE_FRAME: seq<Byte> := [-8, -1, -2]

  /** `OpusCodec.INSTANCE`. */
  const OPUS: Codec := Codec(OPUS_CLASS, "opus", OPUS_PAYLOAD_TYPE, 1000)

  /** The registered audio codecs, in registration order. */
  const AUDIO_CODECS: seq<Codec> := [OPUS]

  /** `equals(other)`: identity, else false for null or another runtime
      class, else payload types compared. */
  predicate Equals(a: Codec, other: Option<Codec>)
  {
    if other == Some(a) then true
    else if other.None? || other.value.runtimeClass != a.runtimeClass then false
    else a.payloadType == other.value.payloadType
  }

  /** `equals` agrees with a reference definition: same class and same payload type. */
  lemma EqualsIsSameClassAndPayload(a: Codec, b: Codec)
    ensures Equals(a, Some(b)) <==> a.runtimeClass == b.runtimeClass && a.payloadType == b.payloadType
  {
  }

  /** `equals` is an equivalence relation that never holds for null. */
  lemma EqualsIsEquivalence(a: Codec, b: Codec, c: Codec)
    ensures Equals(a, Some(a))
    ensures !Equals(a, None)
    ensures Equals(a, Some(b)) ==> Equals(b, Some(a))
    ensures Equals(a, Some(b)) && Equals(b, Some(c)) ==> Equals(a, Some(c))
  {
  }

  /** `getAudio(name)`: the first registered codec with that name, or null. */
  function GetAudio(name: string): (r: Option<Codec>)
    ensures r.Some? <==> exists i :: 0 <= i < |AUDIO_CODECS| && AUDIO_CODECS[i].name == name
    ensures r.Some? ==> r.value in AUDIO_CODECS && r.value.name == name
  {
    Find(AUDIO_CODECS, name)
  }

  /** `List.find { it.name == name }`. */
  function Find(codecs: seq<Codec>, name: string): (r: Option<Codec>)
    ensures r.Some? <==> exists i :: 0 <= i < |codecs| && codecs[i].name == name
    ensures r.Some? ==> exists i :: 0 <= i < |codecs| && codecs[i] == r.value && r.value.name == name &&
                          forall j :: 0 <= j < i ==> codecs[j].name != name
  {
    if codecs == [] then None
    else if codecs[0].name == name then Some(codecs[0])
    else
      var r := Find(codecs[1..], name);
      assert forall i :: 1 <= i < |codecs| ==> codecs[i] == codecs[1..][i - 1];
      r
  }

  /** Only "opus" is known, and it is the Opus codec with its constants. */
  lemma OnlyOpusIsRegistered(name: string)
    ensures GetAudio(name) == (if name == "opus" then Some(OPUS) else None)
    ensures OPUS.Description() == CodecDescription("opus", 120, 1000, Audio)
  {
  }
}
