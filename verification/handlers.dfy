/** `obsidian.server.io.Handlers`: the current protocol's player operations.
    `TrackUtil.decode` is foreign; the decoded track is an argument. */
module Handlers {
  import opened Wrappers
  import opened KotlinInt
  import opened AudioPlayer
  import Filters
  import PlayerUpdates

  /** `playTrack`: skipped when a track plays and `noReplace` is set;
      otherwise the decoded track is played, starting at `startTime` and
      ending at an `endTime` marker when those lie within the track. */
  function PlayTrack(p: AudioPlayer, decoded: Track, startTime: Option<Long>, endTime: Option<Long>,
                     noReplace: bool): (r: (AudioPlayer, bool))
    ensures !r.1 <==> p.playingTrack.Some? && noReplace
    ensures !r.1 ==> r.0 == p
    ensures r.1 ==> r.0.paused == p.paused && r.0.playingTrack.Some?
    ensures r.1 ==> var t := r.0.playingTrack.value;
                    t.encoded == decoded.encoded && t.duration == decoded.duration && t.seekable == decoded.seekable &&
                    (startTime.Some? && InTrack(startTime.value, decoded) ==> t.position == startTime.value) &&
                    (!(startTime.Some? && InTrack(startTime.value, decoded)) ==> t.position == decoded.position) &&
                    (endTime.Some? && InTrack(endTime.value, decoded) ==> t.endMarker == Some(endTime.value)) &&
                    (!(endTime.Some? && InTrack(endTime.value, decoded)) ==> t.endMarker == decoded.endMarker)
  {
    if p.playingTrack.Some? && noReplace then (p, false)
    else
      var t1 := if startTime.Some? && 0 <= startTime.value <= decoded.duration
                then decoded.(position := startTime.value) else decoded;
      var t2 := if endTime.Some? && 0 <= endTime.value <= decoded.duration
                then t1.(endMarker := Some(endTime.value)) else t1;
      (Play(p, t2), true)
  }

  /** The operation's `end_time` defaults to 0, which always lies within the
      track: a play without `end_time` installs an end marker at 0. */
  lemma DefaultEndTimeInstallsMarker(p: AudioPlayer, decoded: Track, noReplace: bool)
    requires 0 <= decoded.duration && !(p.playingTrack.Some? && noReplace)
    ensures PlayTrack(p, decoded, Some(0), Some(0), noReplace).0.playingTrack.value.endMarker == Some(0)
    ensures PlayTrack(p, decoded, Some(0), Some(0), noReplace).0.playingTrack.value.position == 0
  {
  }

  /** A player of the client: lavaplayer's player, the filters and the
      player-update interval. */
  datatype Player = Player(audio: AudioPlayer, filters: Option<Filters.Filters>, updates: PlayerUpdates.Updates)

  /** `playerFor`: the guild's player, created on first use. */
  function PlayerFor(players: map<Long, Player>, guildId: Long): (q: Player)
    ensures guildId in players ==> q == players[guildId]
    ensures guildId !in players ==> q.audio == New() && q.filters.None? && q.updates == PlayerUpdates.New()
  {
    if guildId in players then players[guildId] else Player(New(), None, PlayerUpdates.New())
  }

  /** `configure`: with nothing to change no player is created; otherwise
      exactly the given settings are applied to the guild's player. */
  function Configure(players: map<Long, Player>, guildId: Long, filters: Option<Filters.Filters>,
                     pause: Option<bool>, sendPlayerUpdates: Option<bool>): (r: map<Long, Player>)
    ensures filters.None? && pause.None? && sendPlayerUpdates.None? ==> r == players
    ensures !(filters.None? && pause.None? && sendPlayerUpdates.None?) ==>
              r.Keys == players.Keys + {guildId} &&
              var q, q' := PlayerFor(players, guildId), r[guildId];
              q'.audio.playingTrack == q.audio.playingTrack &&
              q'.audio.paused == (if pause.Some? then pause.value else q.audio.paused) &&
              q'.filters == (if filters.Some? then filters else q.filters) &&
              q'.updates.enabled == (if sendPlayerUpdates.Some? then sendPlayerUpdates.value else q.updates.enabled)
    ensures forall g :: g in players && g != guildId ==> g in r && r[g] == players[g]
  {
    if filters.None? && pause.None? && sendPlayerUpdates.None? then players
    else
      var q := PlayerFor(players, guildId);
      var q1 := if pause.Some? then q.(audio := q.audio.(paused := pause.value)) else q;
      var q2 := if filters.Some? then q1.(filters := filters) else q1;
      var q3 := if sendPlayerUpdates.Some? then q2.(updates := PlayerUpdates.SetEnabled(q2.updates, sendPlayerUpdates.value)) else q2;
      players[guildId := q3]
  }

  /** Configuring twice with the same settings is configuring once. */
  lemma ConfigureIdempotent(players: map<Long, Player>, guildId: Long, filters: Option<Filters.Filters>,
                            pause: Option<bool>, sendPlayerUpdates: Option<bool>)
    ensures var once := Configure(players, guildId, filters, pause, sendPlayerUpdates);
            Configure(once, guildId, filters, pause, sendPlayerUpdates) == once
  {
    var once := Configure(players, guildId, filters, pause, sendPlayerUpdates);
    if !(filters.None? && pause.None? && sendPlayerUpdates.None?) {
      var q := once[guildId];
      if sendPlayerUpdates.Some? {
        var u := PlayerUpdates.SetEnabled(q.updates, sendPlayerUpdates.value);
        assert u == q.updates;
      }
      assert Configure(once, guildId, filters, pause, sendPlayerUpdates)[guildId] == q;
    }
  }
}

/** The PLAY_TRACK handler of the legacy `MagmaClient`: the same rules as
    the current handler, with start and end times that are never null
    (they default to 0). The client's links map is created on demand. */
module MagmaClientPlay {
  import opened Wrappers
  import opened KotlinInt
  import opened AudioPlayer
  import Handlers

  function PlayTrack(links: map<Long, AudioPlayer>, guildId: Long, decoded: Track, noReplace: bool,
                     startTime: Long, endTime: Long): (r: map<Long, AudioPlayer>)
    ensures r.Keys == links.Keys + {guildId}
    ensures forall g :: g in links && g != guildId ==> r[g] == links[g]
    ensures var p := if guildId in links then links[guildId] else New();
            r[guildId] == Handlers.PlayTrack(p, decoded, Some(startTime), Some(endTime), noReplace).0
  {
    var link := if guildId in links then links[guildId] else New();
    if link.playingTrack.Some? && noReplace then links[guildId := link]
    else
      var track := if 0 <= startTime <= decoded.duration then decoded.(position := startTime) else decoded;
      var marked := if 0 <= endTime <= decoded.duration then track.(endMarker := Some(endTime)) else track;
      links[guildId := link.(playingTrack := Some(marked))]
  }
}

/** `obsidian.server.io.OperationHandlers`: the legacy handlers, which read
    the operation's `JSONObject` directly with org.json's accessors. The
    accessors follow org.json release 20180813, the one lavaplayer pulls in. */
module OperationHandlers {
  import opened Wrappers
  import opened KotlinInt
  import opened Json
  import opened AudioPlayer
  import LongAsString
  import JavaDouble
  import Handlers

  /** The Java object `JSONObject(String)` stores for a JSON value: a
      number in the Long range becomes an `Integer` or a `Long`, a longer
      one stays the string of its digits, a decimal becomes the `Double`
      that `Double.valueOf` rounds it to, and a decimal whose `Double` is
      infinite stays the string of its text (`DecimalText`, which keeps
      only the value that text denotes). */
  datatype Stored =
    | Whole(n: Long)
    | Fraction(d: real)
    | DecimalText(d: real)
    | Text(s: string)
    | Flag(b: bool)
    | Null
    | Nested

  function Store(j: Json): (v: Stored)
  {
    match j
    case JNumber(n) => if LONG_MIN <= n <= LONG_MAX then Whole(n) else Text(LongAsString.ToDecimal(n))
    case JDecimal(d) =>
      (match JavaDouble.ToDouble(d)
       case Some(x) => Fraction(x)
       case None => DecimalText(d))
    case JString(s) => Text(s)
    case JBool(b) => Flag(b)
    case JNull => Null
    case _ => Nested
  }

  /** The integer part of a value, truncated toward zero, as
      `BigDecimal.toBigInteger` gives it. */
  function TowardZero(d: real): (r: int)
    ensures d >= 0.0 ==> r as real <= d < r as real + 1.0
    ensures d <= 0.0 ==> r as real - 1.0 < d <= r as real
  {
    if d >= 0.0 then d.Floor else 0 - (0.0 - d).Floor
  }

  /** `Double.longValue`: truncation toward zero, saturating at the ends of
      the Long range. */
  function TruncateToLong(d: real): (r: Long)
    ensures d >= 0.0 ==> r >= 0
    ensures d <= 0.0 ==> r <= 0
    ensures LONG_MIN as real < d < LONG_MAX as real ==> r as real <= d < r as real + 1.0 || r as real - 1.0 < d <= r as real
    ensures d >= LONG_MAX as real ==> r == LONG_MAX
    ensures d <= LONG_MIN as real ==> r == LONG_MIN
  {
    if d >= LONG_MAX as real then LONG_MAX
    else if d <= LONG_MIN as real then LONG_MIN
    else TowardZero(d)
  }

  /** `getLong`: a stored number's `longValue`, or `Long.parseLong` of the
      value's text, which takes an optional sign and decimal digits. A
      decimal kept as text has a point or an exponent, so it fails. */
  function GetLong(data: Json, key: string): (r: Result<Long, Failure>)
    ensures !Has(data, key) ==> r == Err(JsonException)
    ensures Has(data, key) && data.fields[key].JNumber? ==>
              r == (if LONG_MIN <= data.fields[key].n <= LONG_MAX then Ok(data.fields[key].n) else Err(JsonException))
    ensures Has(data, key) && data.fields[key].JDecimal? ==>
              r == (if JavaDouble.ToDouble(data.fields[key].d).Some?
                    then Ok(TruncateToLong(JavaDouble.ToDouble(data.fields[key].d).value))
                    else Err(JsonException))
    ensures Has(data, key) && data.fields[key].JString? ==>
              r == (if LongAsString.ParseLong(data.fields[key].s).Ok? then Ok(LongAsString.ParseLong(data.fields[key].s).value)
                    else Err(JsonException))
    ensures Has(data, key) &&
            (data.fields[key].JBool? || data.fields[key].JNull? || data.fields[key].JArray? || data.fields[key].JObject?) ==>
              r == Err(JsonException)
  {
    if !Has(data, key) then Err(JsonException)
    else match Store(data.fields[key])
      case Whole(n) => Ok(n)
      case Fraction(d) => Ok(TruncateToLong(d))
      case DecimalText(_) => Err(JsonException)
      case Text(s) =>
        assert data.fields[key].JNumber? ==> LongAsString.ParseLong(s).Err? by {
          if data.fields[key].JNumber? { BigNumberTextFails(data.fields[key].n); }
        }
        if LongAsString.ParseLong(s).Ok? then Ok(LongAsString.ParseLong(s).value) else Err(JsonException)
      case _ => Err(JsonException)
  }

  /** The digits of a number outside the Long range do not parse as a Long. */
  lemma BigNumberTextFails(n: int)
    requires !(LONG_MIN <= n <= LONG_MAX)
    ensures LongAsString.ParseLong(LongAsString.ToDecimal(n)).Err?
  {
    LiteralOfNumber(n);
    var s := LongAsString.ToDecimal(n);
    if n < 0 {
      assert s[0] == '-' && LongAsString.Digits(s[1..]) == 0 - n;
    } else {
      assert LongAsString.IsDigit(s[0]);
    }
  }

  /** A bare decimal is rounded to a `Double` before it is truncated:
      `123456789012345678.0` reads as 123456789012345680 with both
      accessors. */
  lemma DecimalRoundsFirst(default: Long)
    ensures var data := JObject(map["t" := JDecimal(123456789012345678.0)]);
            GetLong(data, "t") == Ok(123456789012345680) && OptLong(data, "t", default) == 123456789012345680
  {
    JavaDouble.LargeIntegerRounds();
  }

  /** `0.99999999999999999` is the `Double` 1.0, so it reads as 1. */
  lemma NearOneDecimalReadsOne(default: Long)
    ensures var data := JObject(map["t" := JDecimal(0.99999999999999999)]);
            GetLong(data, "t") == Ok(1) && OptLong(data, "t", default) == 1
  {
    JavaDouble.NearOneRoundsUp();
  }

  /** A decimal whose value is an integer of magnitude at most 2^53 reads
      as that integer. */
  lemma IntegralDecimalExact(n: int, default: Long)
    requires -JavaDouble.ScaleInt(1, JavaDouble.PRECISION) <= n <= JavaDouble.ScaleInt(1, JavaDouble.PRECISION)
    ensures var data := JObject(map["t" := JDecimal(n as real)]);
            GetLong(data, "t") == Ok(n) && OptLong(data, "t", default) == n
  {
    JavaDouble.ExactIntegers(n);
    JavaDouble.PrecisionPower();
    assert TowardZero(n as real) == n;
  }

  /** `getLong` refuses a decimal exactly when its `Double` is infinite,
      its magnitude reaching the overflow threshold; `optLong` then reads
      the decimal's integer part modulo 2^64. */
  lemma HugeDecimalKeptAsText(d: real, default: Long)
    ensures var data := JObject(map["t" := JDecimal(d)]);
            GetLong(data, "t").Err? <==> d >= JavaDouble.OverflowThreshold() || d <= -JavaDouble.OverflowThreshold()
    ensures var data := JObject(map["t" := JDecimal(d)]);
            d >= JavaDouble.OverflowThreshold() || d <= -JavaDouble.OverflowThreshold() ==>
              OptLong(data, "t", default) == WrapLong(TowardZero(d))
  {
    JavaDouble.InfiniteIff(d);
  }

  /** A fixed-point decimal: an optional minus, the integer digits, a point
      and the fraction digits; a digit must come first when there is no
      minus, and at least one digit must appear. */
  predicate IsPointDecimal(s: string)
  {
    exists k :: 0 <= k < |s| && s[k] == '.' && DecimalAround(s, k)
  }

  predicate DecimalAround(s: string, k: int)
    requires 0 <= k < |s|
  {
    var start := if |s| > 0 && s[0] == '-' then 1 else 0;
    start <= k && LongAsString.AllDigits(s[start..k]) && LongAsString.AllDigits(s[k + 1..]) &&
    |s| - start >= 2 && (start == 0 ==> k >= 1)
  }

  /** The position of the point of a fixed-point decimal. */
  function PointOf(s: string): (k: nat)
    requires IsPointDecimal(s)
    ensures k < |s| && s[k] == '.' && DecimalAround(s, k)
  {
    var k :| 0 <= k < |s| && s[k] == '.' && DecimalAround(s, k);
    k
  }

  /** The integer part of a fixed-point decimal, with its sign: the value
      `Double.longValue` and `BigDecimal.longValue` both truncate it to. */
  function IntegerPart(s: string): int
    requires IsPointDecimal(s)
  {
    var k := PointOf(s);
    if s[0] == '-' then 0 - LongAsString.Digits(s[1..k]) else LongAsString.Digits(s[..k])
  }

  /** org.json's `isDecimalNotation`. */
  predicate IsDecimalNotation(s: string)
  {
    '.' in s || 'e' in s || 'E' in s || s == "-0"
  }

  /** `optNumber(key)` followed by `longValue`, as `optLong` does: a stored
      number's `longValue`; a string through `stringToNumber`, which needs a
      digit or a minus first, reads a decimal as a `Double` or a
      `BigDecimal` and anything else as a `BigInteger`; whatever fails gives
      the default. A decimal kept as text is past the `Double` range, so
      `stringToNumber` makes it a `BigDecimal`, whose `longValue` is its
      integer part modulo 2^64. */
  function OptLong(data: Json, key: string, default: Long): (r: Long)
    ensures !Has(data, key) ==> r == default
    ensures Has(data, key) && data.fields[key].JNumber? ==> r == WrapLong(data.fields[key].n)
    ensures Has(data, key) && data.fields[key].JDecimal? ==>
              r == (if JavaDouble.ToDouble(data.fields[key].d).Some?
                    then TruncateToLong(JavaDouble.ToDouble(data.fields[key].d).value)
                    else WrapLong(TowardZero(data.fields[key].d)))
    ensures Has(data, key) && data.fields[key].JString? && IsIntegerLiteral(data.fields[key].s) ==>
              r == WrapLong(LiteralValue(data.fields[key].s))
    ensures Has(data, key) && data.fields[key].JString? && IsPointDecimal(data.fields[key].s) ==>
              r == WrapLong(IntegerPart(data.fields[key].s))
    ensures Has(data, key) && data.fields[key].JString? &&
            (data.fields[key].s == [] || !(LongAsString.IsDigit(data.fields[key].s[0]) || data.fields[key].s[0] == '-')) ==>
              r == default
    ensures Has(data, key) &&
            (data.fields[key].JBool? || data.fields[key].JNull? || data.fields[key].JArray? || data.fields[key].JObject?) ==>
              r == default
  {
    if !Has(data, key) then default
    else match Store(data.fields[key])
      case Whole(n) => n
      case Fraction(d) => TruncateToLong(d)
      case DecimalText(d) => WrapLong(TowardZero(d))
      case Text(s) =>
        if data.fields[key].JNumber? then
          LiteralOfNumber(data.fields[key].n);
          StringLongValue(s, default)
        else StringLongValue(s, default)
      case _ => default
  }

  /** `stringToNumber(s).longValue()`, or `default` where it throws. An
      exponent is not modelled and gives the default. */
  function StringLongValue(s: string, default: Long): (r: Long)
    ensures IsIntegerLiteral(s) ==> r == WrapLong(LiteralValue(s))
    ensures IsPointDecimal(s) ==> r == WrapLong(IntegerPart(s))
    ensures s == [] || !(LongAsString.IsDigit(s[0]) || s[0] == '-') ==> r == default
  {
    if s == [] || !(LongAsString.IsDigit(s[0]) || s[0] == '-') then default
    else if IsDecimalNotation(s) then
      if IsPointDecimal(s) then WrapLong(IntegerPart(s))
      else if s == "-0" then
        assert s[1..] == "0" && LongAsString.Digits("0") == 0 by { assert "0"[..0] == []; }
        0
      else default
    else if IsIntegerLiteral(s) then WrapLong(LiteralValue(s))
    else default
  }

  /** `optLong` reads whatever `getLong` reads, except a string with a
      leading plus, which `parseLong` accepts and `stringToNumber` refuses. */
  lemma {:induction false} OptLongAgreesWithGetLong(data: Json, key: string, default: Long)
    requires GetLong(data, key).Ok?
    requires !(data.fields[key].JString? && data.fields[key].s[0] == '+')
    ensures OptLong(data, key, default) == GetLong(data, key).value
  {
    var j := data.fields[key];
    if j.JString? {
      var v := LongAsString.ParseLong(j.s).value;
      assert IsIntegerLiteral(j.s) && LiteralValue(j.s) == v by {
        if j.s[0] == '-' {
          assert LongAsString.AllDigits(j.s[1..]);
        } else {
          assert LongAsString.AllDigits(j.s);
        }
      }
    }
  }

  /** `"+5"` reads as 5 with `getLong` and as the default with `optLong`. */
  lemma PlusSignDiffers(default: Long)
    ensures var data := JObject(map["t" := JString("+5")]);
            GetLong(data, "t") == Ok(5) && OptLong(data, "t", default) == default
  {
    var data := JObject(map["t" := JString("+5")]);
    assert LongAsString.Digits("5") == 5 by {
      assert "5"[..0] == [];
    }
    assert "+5"[1..] == "5";
  }

  /** A fractional start time is truncated: `{"start_time": "<n>.<f>"}`
      reads as n with `optLong`, for every Long n and fraction digits f. */
  lemma FractionStringTruncates(n: Long, f: string, default: Long)
    requires LongAsString.AllDigits(f)
    ensures OptLong(JObject(map["start_time" := JString(LongAsString.ToDecimal(n) + "." + f)]), "start_time", default) == n
  {
    var s := LongAsString.ToDecimal(n) + "." + f;
    var t := LongAsString.ToDecimal(n);
    var k := |t|;
    LiteralOfNumber(n);
    assert s[k] == '.';
    assert s[..k] == t && s[k + 1..] == f;
    if n < 0 {
      assert s[1..k] == t[1..];
    }
    assert DecimalAround(s, k);
    assert IsPointDecimal(s);
    PointUnique(s, k);
    assert IntegerPart(s) == n;
  }

  /** A fixed-point decimal has one point. */
  lemma PointUnique(s: string, k: int)
    requires 0 <= k < |s| && s[k] == '.' && DecimalAround(s, k)
    ensures PointOf(s) == k
  {
    var p := PointOf(s);
  }

  /** `optBoolean(key, false)`: a boolean as itself, a string that equals
      "true" ignoring case as true, anything else (and a missing key) as
      false. */
  function OptBoolean(data: Json, key: string): (r: bool)
    ensures !Has(data, key) ==> !r
    ensures Has(data, key) && data.fields[key].JBool? ==> r == data.fields[key].b
    ensures Has(data, key) && data.fields[key].JString? ==> (r <==> LowerAscii(data.fields[key].s) == "true")
    ensures r ==> Has(data, key) && (data.fields[key].JBool? || data.fields[key].JString?)
  {
    if !Has(data, key) then false
    else match Store(data.fields[key])
      case Flag(b) => b
      case Text(s) =>
        SpellsLower(s, "true");
        assert data.fields[key].JNumber? ==> !SpellsIgnoringCase(s, "true") by {
          if data.fields[key].JNumber? {
            LiteralOfNumber(data.fields[key].n);
            assert s[0] == '-' || LongAsString.IsDigit(s[0]);
          }
        }
        SpellsIgnoringCase(s, "true")
      case _ => false
  }

  /** Letter case never changes what `optBoolean` reads from a string. */
  lemma OptBooleanIgnoresCase(data: Json, key: string, s: string)
    requires data.JObject?
    ensures OptBoolean(data.(fields := data.fields[key := JString(s)]), key) ==
            OptBoolean(data.(fields := data.fields[key := JString(LowerAscii(s))]), key)
  {
    assert LowerAscii(LowerAscii(s)) == LowerAscii(s);
  }

  /** `getString`: a stored string (which includes the digits of a number
      outside the Long range), or a `JSONException`. */
  function GetString(data: Json, key: string): (r: Result<string, Failure>)
    ensures Has(data, key) && data.fields[key].JString? ==> r == Ok(data.fields[key].s)
    ensures r.Ok? ==> Has(data, key) && (data.fields[key].JString? ||
                                         (data.fields[key].JNumber? && !(LONG_MIN <= data.fields[key].n <= LONG_MAX)))
    ensures r.Err? ==> r.error == JsonException
  {
    if !Has(data, key) then Err(JsonException)
    else match Store(data.fields[key])
      case Text(s) => Ok(s)
      case _ => Err(JsonException)
  }

  /** The `start_time`/`end_time` handling: a key that is present is read
      with `optLong(key, 0)`. */
  function TimeOption(data: Json, key: string): (r: Option<Long>)
    ensures r.Some? <==> Has(data, key)
  {
    if Has(data, key) then Some(OptLong(data, key, 0)) else None
  }

  /** What a handler did: nothing (a guard returned), or the track played. */
  datatype Outcome = Ignored | Skipped | Played

  /** `playTrack` as written: the guard asks for a "track" key but the track
      is decoded from the "data" key. */
  function PlayTrackAsWritten(links: map<Long, AudioPlayer>, data: Json, decode: string -> Track):
    (r: (map<Long, AudioPlayer>, Result<Outcome, Failure>))
    ensures GetLong(data, "guild_id").Err? || !Has(data, "track") ==> r == (links, Ok(Ignored))
    ensures GetLong(data, "guild_id").Ok? && Has(data, "track") ==>
              r.0.Keys == links.Keys + {GetLong(data, "guild_id").value}
    ensures r.1 == Err(JsonException) <==>
              GetLong(data, "guild_id").Ok? && Has(data, "track") && GetString(data, "data").Err? &&
              !(r.0[GetLong(data, "guild_id").value].playingTrack.Some? && OptBoolean(data, "no_replace"))
  {
    Handle(links, data, decode, "data")
  }

  /** The evidently intended handler: the track is decoded from the
      "track" key the guard checks. It then agrees with the current
      protocol's `playTrack`. */
  function PlayTrack(links: map<Long, AudioPlayer>, data: Json, decode: string -> Track):
    (r: (map<Long, AudioPlayer>, Result<Outcome, Failure>))
    ensures GetLong(data, "guild_id").Err? || !Has(data, "track") ==> r == (links, Ok(Ignored))
    ensures GetLong(data, "guild_id").Ok? && Has(data, "track") ==>
              r.0.Keys == links.Keys + {GetLong(data, "guild_id").value}
    ensures r.1.Err? <==> GetLong(data, "guild_id").Ok? && Has(data, "track") && GetString(data, "track").Err? &&
                          !(r.0[GetLong(data, "guild_id").value].playingTrack.Some? && OptBoolean(data, "no_replace"))
    ensures GetLong(data, "guild_id").Ok? && GetString(data, "track").Ok? ==>
              var g := GetLong(data, "guild_id").value;
              var p := if g in links then links[g] else New();
              var (p', played) := Handlers.PlayTrack(p, decode(GetString(data, "track").value),
                                                     TimeOption(data, "start_time"), TimeOption(data, "end_time"),
                                                     OptBoolean(data, "no_replace"));
              r.0 == links[g := p'] && r.1 == Ok(if played then Played else Skipped)
  {
    Handle(links, data, decode, "track")
  }

  /** The handler body with the key the track is read from. */
  function Handle(links: map<Long, AudioPlayer>, data: Json, decode: string -> Track, trackKey: string):
    (r: (map<Long, AudioPlayer>, Result<Outcome, Failure>))
  {
    match GetLong(data, "guild_id")
    case Err(_) => (links, Ok(Ignored))
    case Ok(guildId) =>
      if !Has(data, "track") then (links, Ok(Ignored))
      else
        var link := if guildId in links then links[guildId] else New();
        var created := links[guildId := link];
        if link.playingTrack.Some? && OptBoolean(data, "no_replace") then (created, Ok(Skipped))
        else
          match GetString(data, trackKey)
          case Err(e) => (created, Err(e))
          case Ok(encoded) =>
            var track := decode(encoded);
            var t1 := if Has(data, "start_time") && 0 <= OptLong(data, "start_time", 0) <= track.duration
                      then track.(position := OptLong(data, "start_time", 0)) else track;
            var stop := OptLong(data, "end_time", 0);
            var t2 := if Has(data, "end_time") && 0 <= stop <= track.duration
                      then t1.(endMarker := Some(stop)) else t1;
            (links[guildId := Play(link, t2)], Ok(Played))
  }

  /** A request in the documented shape (`guild_id` and `track`) fails as
      written, and plays the track once the "track" key is read. */
  lemma TrackKeyIsIgnored(decode: string -> Track)
    ensures var data := JObject(map["guild_id" := JNumber(1), "track" := JString("QAAA")]);
            PlayTrackAsWritten(map[], data, decode).1 == Err(JsonException) &&
            PlayTrack(map[], data, decode) == (map[1 := Play(New(), decode("QAAA"))], Ok(Played))
  {
    var data := JObject(map["guild_id" := JNumber(1), "track" := JString("QAAA")]);
    assert GetLong(data, "guild_id") == Ok(1);
    assert !Has(data, "data") && !Has(data, "start_time") && !Has(data, "end_time") && !Has(data, "no_replace");
  }

  /** `submitVoiceUpdate`'s guards: a missing or invalid guild id, or a
      missing endpoint, stop the operation before any connection exists. */
  function SubmitVoiceUpdateProceeds(data: Json): (r: bool)
    ensures r <==> GetLong(data, "guild_id").Ok? && Has(data, "endpoint")
  {
    match GetLong(data, "guild_id")
    case Err(_) => false
    case Ok(_) => Has(data, "endpoint")
  }
}
