/** `obsidian.bedrock.VoiceServerInfo`: the voice server a media connection
    joins. `create` strips the port ":80" from the endpoint with
    `String.replace`, which removes every occurrence in one left-to-right
    pass over non-overlapping matches. */
module VoiceServerInfo {
  import opened Wrappers
  import opened Json
  import OperationHandlers

  datatype VoiceServerInfo = VoiceServerInfo(sessionId: string, token: string, endpoint: string)

  /** An occurrence of ":80" starting at `i`. */
  predicate PortAt(s: string, i: int)
  {
    0 <= i && i + 3 <= |s| && s[i] == ':' && s[i + 1] == '8' && s[i + 2] == '0'
  }

  predicate ContainsPort(s: string)
  {
    exists i | 0 <= i <= |s| :: PortAt(s, i)
  }

  /** `endpoint.replace(":80", "")`. */
  function StripPort(s: string): (r: string)
    ensures |r| <= |s|
    decreases |s|
  {
    if |s| < 3 then s
    else if PortAt(s, 0) then StripPort(s[3..])
    else [s[0]] + StripPort(s[1..])
  }

  /** An endpoint without ":80" in it comes through unchanged. */
  lemma {:induction false} NoPortUnchanged(s: string)
    requires !ContainsPort(s)
    ensures StripPort(s) == s
    decreases |s|
  {
    if |s| >= 3 {
      assert !PortAt(s, 0);
      forall i | PortAt(s[1..], i)
        ensures false
      {
        assert PortAt(s, i + 1);
      }
      NoPortUnchanged(s[1..]);
    }
  }

  /** Stripping only ever removes whole ":80" triples, and it removes the
      one that opens the text. */
  lemma {:induction false} StripRemovesOnlyPorts(s: string)
    ensures |s| - |StripPort(s)| == 3 * ((|s| - |StripPort(s)|) / 3)
    ensures PortAt(s, 0) ==> |StripPort(s)| <= |s| - 3
    decreases |s|
  {
    if |s| >= 3 {
      if PortAt(s, 0) {
        StripRemovesOnlyPorts(s[3..]);
      } else {
        StripRemovesOnlyPorts(s[1..]);
      }
    }
  }

  /** One pass only: a match the removal itself brings together stays, so
      the port is mangled rather than dropped for a port starting with 80. */
  lemma OnePassOnly()
    ensures StripPort("h:8080") == "h80"
    ensures StripPort("::8080") == ":80"
    ensures StripPort("host:80") == "host"
  {
    assert PortAt("h:8080"[1..], 0);
    assert PortAt("::8080"[1..], 0);
    assert StripPort("80") == "80";
    assert StripPort("h:8080") == "h" + StripPort(":8080");
    assert StripPort("host:80") == "h" + StripPort("ost:80");
    assert StripPort("ost:80") == "o" + StripPort("st:80");
    assert StripPort("st:80") == "s" + StripPort("t:80");
    assert StripPort("t:80") == "t" + StripPort(":80");
  }

  /** `create`: the session id and token as given, the endpoint without
      ":80". */
  function Create(sessionId: string, token: string, endpoint: string): (v: VoiceServerInfo)
    ensures v.sessionId == sessionId && v.token == token
    ensures !ContainsPort(endpoint) ==> v.endpoint == endpoint
    ensures |v.endpoint| <= |endpoint|
  {
    assert !ContainsPort(endpoint) ==> StripPort(endpoint) == endpoint by {
      if !ContainsPort(endpoint) {
        NoPortUnchanged(endpoint);
      }
    }
    VoiceServerInfo(sessionId, token, StripPort(endpoint))
  }

  /** `from`: the `session_id`, `token` and `endpoint` strings of the
      object, each read with `getString`. */
  function From(json: Json): (r: Result<VoiceServerInfo, Failure>)
    ensures r.Ok? <==> OperationHandlers.GetString(json, "session_id").Ok? &&
                       OperationHandlers.GetString(json, "token").Ok? &&
                       OperationHandlers.GetString(json, "endpoint").Ok?
    ensures r.Ok? ==> r.value == Create(OperationHandlers.GetString(json, "session_id").value,
                                        OperationHandlers.GetString(json, "token").value,
                                        OperationHandlers.GetString(json, "endpoint").value)
    ensures r.Err? ==> r.error == JsonException
  {
    var sessionId :- OperationHandlers.GetString(json, "session_id");
    var token :- OperationHandlers.GetString(json, "token");
    var endpoint :- OperationHandlers.GetString(json, "endpoint");
    Ok(Create(sessionId, token, endpoint))
  }

  /** `from` reads exactly those three keys: objects that agree on them give
      the same result, whatever else they hold. */
  lemma FromReadsOnlyItsKeys(a: Json, b: Json)
    requires a.JObject? && b.JObject?
    requires forall k | k in ["session_id", "token", "endpoint"] ::
               (k in a.fields <==> k in b.fields) && (k in a.fields ==> a.fields[k] == b.fields[k])
    ensures From(a) == From(b)
  {
    assert "session_id" in ["session_id", "token", "endpoint"];
    assert "token" in ["session_id", "token", "endpoint"];
    assert "endpoint" in ["session_id", "token", "endpoint"];
  }
}

/** `obsidian.server.util.LogbackColorConverter`: the `%color` conversion
    word of the log pattern, which wraps the converted text in an SGR
    (select graphic rendition) escape of section 8.3.117 of ECMA-48. */
module LogbackColorConverter {
  import opened Wrappers
  import LongAsString

  /** Logback's levels; OFF and ALL have no colour of their own. */
  datatype Level = OFF | ERROR | WARN | INFO | DEBUG | TRACE | ALL

  /** A `Convert`: the SGR parameter that starts the style and the one that
      ends it. */
  datatype Sgr = Sgr(on: nat, off: nat)

  const ESC: char := '\U{1B}'

  /** `Number.ansi`: ESC [ n m. */
  function Ansi(n: nat): (s: string)
    ensures |s| >= 4 && s[0] == ESC && s[1] == '[' && s[|s| - 1] == 'm'
    ensures s[2..|s| - 1] == LongAsString.NatDigits(n)
  {
    [ESC, '['] + LongAsString.NatDigits(n) + "m"
  }

  /** The six colour names the initializer registers, at codes 31..36. */
  const NAMES: seq<string> := ["red", "green", "yellow", "blue", "magenta", "cyan"]

  /** `ANSI_COLORS` after the first `k` turns of the initializer's loop. */
  function Colours(k: nat): (m: map<string, Sgr>)
    requires k <= |NAMES|
    ensures "gray" in m && m["gray"] == Sgr(90, 39)
    ensures "faint" in m && m["faint"] == Sgr(2, 22)
    ensures forall i :: 0 <= i < k ==> NAMES[i] in m && m[NAMES[i]] == Sgr(31 + i, 39)
    ensures m.Keys == {"gray", "faint"} + set i | 0 <= i < k :: NAMES[i]
  {
    if k == 0 then map["gray" := Sgr(90, 39), "faint" := Sgr(2, 22)]
    else Colours(k - 1)[NAMES[k - 1] := Sgr(31 + k - 1, 39)]
  }

  const ANSI_COLORS: map<string, Sgr> := Colours(|NAMES|)

  /** `LEVELS`, keyed here by the level rather than its integer. */
  function LevelColour(level: Level): (name: Option<string>)
    ensures name.Some? <==> level != OFF && level != ALL
    ensures name.Some? ==> name.value in ANSI_COLORS
  {
    assert NAMES[0] == "red" && NAMES[2] == "yellow" && NAMES[3] == "blue" && NAMES[4] == "magenta";
    match level
    case ERROR => Some("red")
    case WARN => Some("yellow")
    case DEBUG => Some("blue")
    case INFO => Some("faint")
    case TRACE => Some("magenta")
    case _ => None
  }

  /** The `Convert` `transform` picks: the pattern's first option when it
      names a colour, otherwise the level's colour, otherwise green. */
  function Choose(option: Option<string>, level: Level): (c: Sgr)
    ensures option.Some? && option.value in ANSI_COLORS ==> c == ANSI_COLORS[option.value]
    ensures (option.None? || option.value !in ANSI_COLORS) && LevelColour(level).Some? ==>
              c == ANSI_COLORS[LevelColour(level).value]
    ensures (option.None? || option.value !in ANSI_COLORS) && LevelColour(level).None? ==>
              c == Sgr(32, 39)
  {
    assert NAMES[1] == "green";
    if option.Some? && option.value in ANSI_COLORS then ANSI_COLORS[option.value]
    else if LevelColour(level).Some? then ANSI_COLORS[LevelColour(level).value]
    else ANSI_COLORS["green"]
  }

  /** `transform`: the element, unchanged, between the two escapes. */
  function Transform(option: Option<string>, level: Level, element: string): (r: string)
    ensures var c := Choose(option, level);
            r == Ansi(c.on) + element + Ansi(c.off)
  {
    var c := Choose(option, level);
    Ansi(c.on) + element + Ansi(c.off)
  }

  /** Every style the converter can pick is one of the table's, and each
      level maps to its documented one. */
  lemma LevelStyles(e: string)
    ensures Choose(None, ERROR) == Sgr(31, 39) && Choose(None, WARN) == Sgr(33, 39)
    ensures Choose(None, DEBUG) == Sgr(34, 39) && Choose(None, TRACE) == Sgr(35, 39)
    ensures Choose(None, INFO) == Sgr(2, 22)
    ensures Choose(None, OFF) == Sgr(32, 39) && Choose(None, ALL) == Sgr(32, 39)
  {
    assert NAMES[0] == "red" && NAMES[2] == "yellow" && NAMES[3] == "blue" && NAMES[4] == "magenta";
  }

  /** A known colour option overrides whatever the level is. */
  lemma OptionWins(name: string, a: Level, b: Level, e: string)
    requires name in ANSI_COLORS
    ensures Transform(Some(name), a, e) == Transform(Some(name), b, e)
  {
  }

  /** The element is recovered by dropping the two escapes: the colouring
      adds exactly a prefix and a suffix. */
  lemma {:induction false} ElementRecoverable(option: Option<string>, level: Level, e: string)
    ensures var r := Transform(option, level, e);
            var c := Choose(option, level);
            |r| == |Ansi(c.on)| + |e| + |Ansi(c.off)| &&
            r[|Ansi(c.on)|..|r| - |Ansi(c.off)|] == e &&
            r[0] == ESC
  {
    var c := Choose(option, level);
    var r := Transform(option, level, e);
    assert r == Ansi(c.on) + e + Ansi(c.off);
    assert r[|Ansi(c.on)|..|r| - |Ansi(c.off)|] == e;
  }

  /** A red line, byte for byte. */
  lemma RedError(e: string)
    ensures Transform(None, ERROR, e) == "\U{1B}[31m" + e + "\U{1B}[39m"
  {
    LevelStyles(e);
    assert LongAsString.NatDigits(31) == "31";
    assert LongAsString.NatDigits(39) == "39";
  }
}
