/** `obsidian.server.player.filter.Filters`: the filter settings of the
    current protocol and the PCM filter chain built from them.

    A filter's DSP parameters are outside the model. What chain assembly
    reads of a filter is its kind, its `enabled` flag, and whether `build`
    yields a PCM filter for the audio format at hand (it returns null when
    the filter is incompatible with the format). */
module Filters {
  import opened Wrappers

  datatype Kind = Volume | Equalizer | Karaoke | Rotation | Tremolo | Vibrato | Distortion | Timescale | LowPass | ChannelMix

  datatype Filter = Filter(kind: Kind, enabled: bool, builds: bool)

  /** A built PCM filter and the filter it writes to; `Output` is the
      player's own output filter. */
  datatype Stage = Output | Stage(kind: Kind, downstream: Stage)

  datatype Filters = Filters(
    volume: Option<Filter>, equalizer: Option<Filter>, karaoke: Option<Filter>,
    rotation: Option<Filter>, tremolo: Option<Filter>, vibrato: Option<Filter>,
    distortion: Option<Filter>, timescale: Option<Filter>, lowPass: Option<Filter>,
    channelMix: Option<Filter>)

  /** The fields in declaration order. */
  function Fields(f: Filters): (fs: seq<Option<Filter>>)
    ensures |fs| == 10
  {
    [f.volume, f.equalizer, f.karaoke, f.rotation, f.tremolo, f.vibrato,
     f.distortion, f.timescale, f.lowPass, f.channelMix]
  }

  /** Kotlin's `listOfNotNull`. */
  function NotNull<T(!new)>(xs: seq<Option<T>>): (r: seq<T>)
    ensures |r| <= |xs|
    ensures forall x :: x in r <==> Some(x) in xs
  {
    if xs == [] then []
    else (if xs[0].Some? then [xs[0].value] else []) + NotNull(xs[1..])
  }

  /** `asList`: the filters that are set, in declaration order. */
  function AsList(f: Filters): (l: seq<Filter>)
    ensures |l| <= 10
    ensures forall x :: x in l <==> Some(x) in Fields(f)
  {
    NotNull(Fields(f))
  }

  /** Kotlin's `filter { it.enabled }`. */
  function KeepEnabled(s: seq<Filter>): (r: seq<Filter>)
    ensures |r| <= |s|
    ensures forall x :: x in r <==> x in s && x.enabled
  {
    if s == [] then []
    else (if s[0].enabled then [s[0]] else []) + KeepEnabled(s[1..])
  }

  /** `enabled`: the set filters whose own flag says they are enabled. */
  function Enabled(f: Filters): (l: seq<Filter>)
    ensures forall x :: x in l <==> x.enabled && Some(x) in Fields(f)
  {
    KeepEnabled(AsList(f))
  }

  /** `listOfNotNull` keeps order: the values of a prefix come before those
      of the rest. */
  lemma {:induction false} NotNullAppend<T(!new)>(a: seq<Option<T>>, b: seq<Option<T>>)
    ensures NotNull(a + b) == NotNull(a) + NotNull(b)
    decreases |a|
  {
    if a == [] {
      assert a + b == b;
    } else {
      assert (a + b)[1..] == a[1..] + b;
      NotNullAppend(a[1..], b);
    }
  }

  /** `filter` keeps order as well. */
  lemma {:induction false} KeepEnabledAppend(a: seq<Filter>, b: seq<Filter>)
    ensures KeepEnabled(a + b) == KeepEnabled(a) + KeepEnabled(b)
    decreases |a|
  {
    if a == [] {
      assert a + b == b;
    } else {
      assert (a + b)[1..] == a[1..] + b;
      KeepEnabledAppend(a[1..], b);
    }
  }

  /** The order is the declaration order: the enabled filters of the fields
      before position `k` precede those of the fields from `k` on. */
  lemma EnabledInDeclarationOrder(f: Filters, k: nat)
    requires k <= 10
    ensures Enabled(f) == KeepEnabled(NotNull(Fields(f)[..k])) + KeepEnabled(NotNull(Fields(f)[k..]))
  {
    assert Fields(f) == Fields(f)[..k] + Fields(f)[k..];
    NotNullAppend(Fields(f)[..k], Fields(f)[k..]);
    KeepEnabledAppend(NotNull(Fields(f)[..k]), NotNull(Fields(f)[k..]));
  }

  /** With every entry set, `listOfNotNull` returns the values position by
      position. */
  lemma {:induction false} NotNullAllSet<T(!new)>(xs: seq<Option<T>>)
    requires forall i :: 0 <= i < |xs| ==> xs[i].Some?
    ensures |NotNull(xs)| == |xs|
    ensures forall i :: 0 <= i < |xs| ==> NotNull(xs)[i] == xs[i].value
    decreases |xs|
  {
    if xs != [] {
      NotNullAllSet(xs[1..]);
    }
  }

  /** With every filter enabled, `filter` returns its input. */
  lemma {:induction false} KeepEnabledAll(s: seq<Filter>)
    requires forall i :: 0 <= i < |s| ==> s[i].enabled
    ensures KeepEnabled(s) == s
    decreases |s|
  {
    if s != [] {
      KeepEnabledAll(s[1..]);
    }
  }

  /** The kinds of the filters of `s` whose `build` succeeds, in order. */
  function Built(s: seq<Filter>): (ks: seq<Kind>)
    ensures |ks| <= |s|
  {
    if s == [] then []
    else Built(s[..|s| - 1]) + (if s[|s| - 1].builds then [s[|s| - 1].kind] else [])
  }

  function Reverse<T>(s: seq<T>): (r: seq<T>)
    ensures |r| == |s|
    ensures forall i :: 0 <= i < |s| ==> r[i] == s[|s| - 1 - i]
  {
    if s == [] then [] else [s[|s| - 1]] + Reverse(s[..|s| - 1])
  }

  /** The pipeline that runs the kinds `ks` in order and then the output. */
  function Nest(ks: seq<Kind>): (s: Stage)
    ensures ks == [] <==> s == Output
  {
    if ks == [] then Output else Stage(ks[0], Nest(ks[1..]))
  }

  /** `FilterFactory.buildChain`: each enabled filter that builds writes to
      the one built before it (the first to the output), and the list is
      returned entry first. So every element of the result heads the rest of
      the chain, and the chain runs the built filters in reverse order. */
  method BuildChain(f: Filters) returns (chain: seq<Stage>)
    ensures var ks := Reverse(Built(Enabled(f)));
            |chain| == |ks| && forall i :: 0 <= i < |chain| ==> chain[i] == Nest(ks[i..])
  {
    var enabled := Enabled(f);
    chain := Assemble(enabled);
  }

  /** The loop of `buildChain` over an explicit list of filters. */
  method Assemble(enabled: seq<Filter>) returns (chain: seq<Stage>)
    ensures var ks := Reverse(Built(enabled));
            |chain| == |ks| && forall i :: 0 <= i < |chain| ==> chain[i] == Nest(ks[i..])
  {
    var list: seq<Stage> := [];
    var i := 0;
    while i < |enabled|
      invariant 0 <= i <= |enabled|
      invariant list == Steps(Built(enabled[..i]))
    {
      var b := Built(enabled[..i]);
      assert enabled[..i + 1][..i] == enabled[..i];
      if enabled[i].builds {
        var downstream := if list == [] then Output else list[|list| - 1];
        if list != [] {
          StepsLast(b);
        }
        var k := enabled[i].kind;
        assert downstream == Nest(Reverse(b));
        assert (b + [k])[..|b|] == b;
        assert Steps(b + [k]) == Steps(b) + [Stage(k, Nest(Reverse(b)))];
        list := list + [Stage(k, downstream)];
      }
      if enabled[i].builds {
        assert Built(enabled[..i + 1]) == b + [enabled[i].kind];
      } else {
        assert Built(enabled[..i + 1]) == b + [];
        assert b + [] == b;
      }
      i := i + 1;
    }
    assert enabled[..i] == enabled;
    var b := Built(enabled);
    chain := Reverse(list);
    forall i | 0 <= i < |chain|
      ensures chain[i] == Nest(Reverse(b)[i..])
    {
      StepsAt(b, |b| - 1 - i);
      ReverseSuffix(b, i);
      assert b[..|b| - 1 - i + 1] == b[..|b| - i];
    }
  }

  /** The list `buildChain` holds after building the kinds `b`: each new
      stage writes to the one built before it. */
  function Steps(b: seq<Kind>): (r: seq<Stage>)
    ensures |r| == |b|
  {
    if b == [] then [] else Steps(b[..|b| - 1]) + [Stage(b[|b| - 1], Nest(Reverse(b[..|b| - 1])))]
  }

  lemma StepsLast(b: seq<Kind>)
    requires b != []
    ensures Steps(b)[|b| - 1] == Nest(Reverse(b))
  {
    assert Reverse(b)[1..] == Reverse(b[..|b| - 1]);
  }

  lemma {:induction false} StepsAt(b: seq<Kind>, k: nat)
    requires k < |b|
    ensures Steps(b)[k] == Nest(Reverse(b[..k + 1]))
    decreases |b|
  {
    if k == |b| - 1 {
      StepsLast(b);
      assert b[..k + 1] == b;
    } else {
      StepsAt(b[..|b| - 1], k);
      assert b[..|b| - 1][..k + 1] == b[..k + 1];
    }
  }

  lemma ReverseSnoc<T>(s: seq<T>, x: T)
    ensures Reverse(s + [x]) == [x] + Reverse(s)
  {
    assert (s + [x])[..|s|] == s;
  }

  /** Dropping the first `i` of the reversed sequence reverses a prefix. */
  lemma {:induction false} ReverseSuffix<T>(s: seq<T>, i: nat)
    requires i <= |s|
    ensures Reverse(s)[i..] == Reverse(s[..|s| - i])
    decreases i
  {
    if i == 0 {
      assert s[..|s|] == s;
    } else {
      var t := s[..|s| - 1];
      assert Reverse(s)[i..] == Reverse(t)[i - 1..];
      ReverseSuffix(t, i - 1);
      assert t[..|t| - (i - 1)] == s[..|s| - i];
    }
  }
}

/** `obsidian.server.player.filter.FilterChain`: the legacy filter chain,
    with a field per filter and no `enabled` check of its own. */
module FilterChain {
  import opened Wrappers
  import opened Json
  import opened Filters
  import LegacyOperation

  datatype Chain = Chain(
    channelMix: Option<Filter>, equalizer: Option<Filter>, karaoke: Option<Filter>,
    lowPass: Option<Filter>, rotation: Option<Filter>, timescale: Option<Filter>,
    tremolo: Option<Filter>, vibrato: Option<Filter>, volume: Option<Filter>)

  function ChainFields(c: Chain): (fs: seq<Option<Filter>>)
    ensures |fs| == 9
  {
    [c.channelMix, c.equalizer, c.karaoke, c.lowPass, c.rotation, c.timescale,
     c.tremolo, c.vibrato, c.volume]
  }

  /** `enabled`: every filter that is set, whatever its own flag says. */
  function Enabled(c: Chain): (l: seq<Filter>)
    ensures |l| <= 9
    ensures forall x :: x in l <==> Some(x) in ChainFields(c)
  {
    NotNull(ChainFields(c))
  }

  /** `from`: copy the legacy payload's filters; `configure` stands for the
      DSP objects' own decoders and the `VolumeFilter` wrapper. */
  function From(f: LegacyOperation.Filters, configure: (Kind, Json) -> Filter): (c: Chain)
    ensures c.channelMix.Some? <==> f.channelMix.Some?
    ensures c.equalizer.Some? <==> f.equalizer.Some?
    ensures c.karaoke.Some? <==> f.karaoke.Some?
    ensures c.lowPass.Some? <==> f.lowPass.Some?
    ensures c.rotation.Some? <==> f.rotation.Some?
    ensures c.timescale.Some? <==> f.timescale.Some?
    ensures c.tremolo.Some? <==> f.tremolo.Some?
    ensures c.vibrato.Some? <==> f.vibrato.Some?
    ensures c.volume.Some? <==> f.volume.Some?
    ensures f.volume.Some? ==> c.volume == Some(configure(Volume, f.volume.value))
  {
    Chain(Copy(ChannelMix, f.channelMix, configure), Copy(Equalizer, f.equalizer, configure),
          Copy(Karaoke, f.karaoke, configure), Copy(LowPass, f.lowPass, configure),
          Copy(Rotation, f.rotation, configure), Copy(Timescale, f.timescale, configure),
          Copy(Tremolo, f.tremolo, configure), Copy(Vibrato, f.vibrato, configure),
          Copy(Volume, f.volume, configure))
  }

  function Copy(k: Kind, j: Option<Json>, configure: (Kind, Json) -> Filter): (r: Option<Filter>)
    ensures r.Some? <==> j.Some?
  {
    match j
    case None => None
    case Some(v) => Some(configure(k, v))
  }

  /** The kinds of the longest tail of `s` whose filters all build. */
  function TrailingBuilt(s: seq<Filter>): (ks: seq<Kind>)
    ensures |ks| <= |s|
  {
    if s == [] || !s[|s| - 1].builds then []
    else TrailingBuilt(s[..|s| - 1]) + [s[|s| - 1].kind]
  }

  /** `FilterFactory.buildChain` as written: each filter takes the last built
      stage off the list as its downstream, and a filter whose `build` is
      null drops that stage. The list holds at most the outermost stage, and
      only the filters after the last one that failed to build survive. */
  method BuildChainAsWritten(enabled: seq<Filter>) returns (list: seq<Stage>)
    ensures |list| <= 1
    ensures list == [] <==> TrailingBuilt(enabled) == []
    ensures list != [] ==> list[0] == Nest(Reverse(TrailingBuilt(enabled)))
  {
    list := [];
    var i := 0;
    while i < |enabled|
      invariant 0 <= i <= |enabled|
      invariant |list| <= 1
      invariant list == [] <==> TrailingBuilt(enabled[..i]) == []
      invariant list != [] ==> list[0] == Nest(Reverse(TrailingBuilt(enabled[..i])))
    {
      var t := TrailingBuilt(enabled[..i]);
      assert enabled[..i + 1][..i] == enabled[..i];
      var downstream := if list == [] then Output else list[0];
      assert downstream == Nest(Reverse(t));
      list := [];
      if enabled[i].builds {
        ReverseSnoc(t, enabled[i].kind);
        assert ([enabled[i].kind] + Reverse(t))[1..] == Reverse(t);
        list := [Stage(enabled[i].kind, downstream)];
      }
      i := i + 1;
    }
    assert enabled[..i] == enabled;
  }

  /** The evidently intended assembly: a filter that does not build leaves
      the chain built so far in place. The single stage left is the entry of
      the same pipeline the current protocol's `Filters` assembles. */
  method BuildChain(enabled: seq<Filter>) returns (list: seq<Stage>)
    ensures |list| <= 1
    ensures list == [] <==> Built(enabled) == []
    ensures list != [] ==> list[0] == Nest(Reverse(Built(enabled)))
  {
    list := [];
    var i := 0;
    while i < |enabled|
      invariant 0 <= i <= |enabled|
      invariant |list| <= 1
      invariant list == [] <==> Built(enabled[..i]) == []
      invariant list != [] ==> list[0] == Nest(Reverse(Built(enabled[..i])))
    {
      var b := Built(enabled[..i]);
      assert enabled[..i + 1][..i] == enabled[..i];
      var downstream := if list == [] then Output else list[0];
      assert downstream == Nest(Reverse(b));
      if enabled[i].builds {
        ReverseSnoc(b, enabled[i].kind);
        assert ([enabled[i].kind] + Reverse(b))[1..] == Reverse(b);
        list := [Stage(enabled[i].kind, downstream)];
      }
      if enabled[i].builds {
        assert Built(enabled[..i + 1]) == b + [enabled[i].kind];
      } else {
        assert Built(enabled[..i + 1]) == b + [];
        assert b + [] == b;
      }
      i := i + 1;
    }
    assert enabled[..i] == enabled;
  }

  /** A timescale filter that builds followed by an enabled tremolo that is
      incompatible with the format: as written the chain comes out empty and
      the timescale filter is lost. */
  method DroppedStage() returns (asWritten: seq<Stage>, intended: seq<Stage>)
    ensures asWritten == []
    ensures intended == [Stage(Timescale, Output)]
  {
    var first := [Filter(Timescale, true, true)];
    var enabled := first + [Filter(Tremolo, true, false)];
    assert !enabled[|enabled| - 1].builds;
    assert TrailingBuilt(enabled) == [];
    assert enabled[..|enabled| - 1] == first;
    assert first[..0] == [];
    assert Built(first) == [Timescale];
    assert Built(enabled) == [Timescale];
    asWritten := BuildChainAsWritten(enabled);
    intended := BuildChain(enabled);
    assert Reverse([Timescale]) == [Timescale];
    assert Nest([Timescale]) == Stage(Timescale, Nest([]));
  }
}
