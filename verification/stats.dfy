/** The frame figures the legacy statistics (`StatsBuilder` and `Stats`)
    compute over a client's links: only links whose minute counter holds
    usable data take part, the sums are Kotlin `Int`s, and the averages use
    Kotlin's truncating division. */
module StatsFrames {
  import opened Wrappers
  import opened KotlinInt
  import FrameLossCounter

  /** What the statistics read of one link. */
  datatype LinkView = LinkView(playing: bool, counter: FrameLossCounter.Counter)

  /** The running totals of the `forEach` loop. */
  datatype Totals = Totals(active: Int, sent: Int, nulled: Int)

  /** The frame averages; the deficit is the shortfall against 3000 frames
      a minute per link, negative when more frames went out. */
  datatype Frames = Frames(sent: Int, nulled: Int, deficit: Int)

  datatype Links = Links(active: Int, total: Int)

  predicate Usable(l: LinkView, now: Long)
  {
    FrameLossCounter.DataUsable(l.counter, now)
  }

  /** The number of playing links. */
  function CountPlaying(links: seq<LinkView>): (n: nat)
    ensures n <= |links|
  {
    if links == [] then 0 else CountPlaying(links[..|links| - 1]) + (if links[|links| - 1].playing then 1 else 0)
  }

  /** The exact (unwrapped) number of usable links and their sums. */
  function UsableCount(links: seq<LinkView>, now: Long): (n: nat)
    ensures n <= |links|
  {
    if links == [] then 0 else UsableCount(links[..|links| - 1], now) + (if Usable(links[|links| - 1], now) then 1 else 0)
  }

  function SentSum(links: seq<LinkView>, now: Long): int
  {
    if links == [] then 0
    else SentSum(links[..|links| - 1], now) + (if Usable(links[|links| - 1], now) then links[|links| - 1].counter.lastSuccess else 0)
  }

  function LostSum(links: seq<LinkView>, now: Long): int
  {
    if links == [] then 0
    else LostSum(links[..|links| - 1], now) + (if Usable(links[|links| - 1], now) then links[|links| - 1].counter.lastLoss else 0)
  }

  /** The loop as the JVM runs it: every `++` and `+=` lands on an Int. */
  function Accumulate(links: seq<LinkView>, now: Long): (t: Totals)
  {
    if links == [] then Totals(0, 0, 0)
    else
      var t := Accumulate(links[..|links| - 1], now);
      var l := links[|links| - 1];
      if Usable(l, now)
      then Totals(WrapInt(t.active + 1), WrapInt(t.sent + l.counter.lastSuccess), WrapInt(t.nulled + l.counter.lastLoss))
      else t
  }

  /** Wrapping at every step is wrapping the exact sums once. */
  lemma {:induction false} AccumulateWrapsSums(links: seq<LinkView>, now: Long)
    ensures Accumulate(links, now) ==
            Totals(WrapInt(UsableCount(links, now)), WrapInt(SentSum(links, now)), WrapInt(LostSum(links, now)))
  {
    if links != [] {
      var init := links[..|links| - 1];
      AccumulateWrapsSums(init, now);
      var l := links[|links| - 1];
      if Usable(l, now) {
        WrapIntAdd(UsableCount(init, now), 1);
        WrapIntAdd(SentSum(init, now), l.counter.lastSuccess);
        WrapIntAdd(LostSum(init, now), l.counter.lastLoss);
      }
    }
  }

  /** The `links` block: playing links against all links. */
  function LinkCounts(links: seq<LinkView>): (r: Links)
    ensures |links| <= INT_MAX ==> r.active == CountPlaying(links) && r.total == |links| && r.active <= r.total
  {
    Links(WrapInt(CountPlaying(links)), WrapInt(|links|))
  }

  /** The `frames` block: absent when no link has usable data; otherwise
      the per-link averages, truncated toward zero. */
  function Average(links: seq<LinkView>, now: Long): (r: Option<Frames>)
    ensures UsableCount(links, now) == 0 ==> r.None?
    ensures 0 < UsableCount(links, now) <= INT_MAX ==> r.Some?
    ensures r.Some? && UsableCount(links, now) <= INT_MAX ==>
              var n := UsableCount(links, now);
              var expected := n * FrameLossCounter.EXPECTED_PACKET_COUNT_PER_MIN;
              r.value.sent == TDiv(WrapInt(SentSum(links, now)), n) &&
              r.value.nulled == TDiv(WrapInt(LostSum(links, now)), n) &&
              r.value.deficit == TDiv(WrapInt(expected - (SentSum(links, now) + LostSum(links, now))), n)
    ensures r.Some? && UsableCount(links, now) <= INT_MAX &&
            INT_MIN <= SentSum(links, now) <= INT_MAX && INT_MIN <= LostSum(links, now) <= INT_MAX ==>
              var n := UsableCount(links, now);
              r.value.sent == TDiv(SentSum(links, now), n) && r.value.nulled == TDiv(LostSum(links, now), n)
    ensures r.Some? && UsableCount(links, now) <= INT_MAX &&
            INT_MIN <= UsableCount(links, now) * FrameLossCounter.EXPECTED_PACKET_COUNT_PER_MIN - (SentSum(links, now) + LostSum(links, now)) <= INT_MAX ==>
              var n := UsableCount(links, now);
              r.value.deficit == TDiv(n * FrameLossCounter.EXPECTED_PACKET_COUNT_PER_MIN - (SentSum(links, now) + LostSum(links, now)), n)
  {
    var t := Accumulate(links, now);
    AccumulateWrapsSums(links, now);
    if t.active <= 0 then None
    else
      var deficit := WrapInt(WrapInt(t.active * FrameLossCounter.EXPECTED_PACKET_COUNT_PER_MIN) - WrapInt(t.sent + t.nulled));
      DeficitWraps(t.active * FrameLossCounter.EXPECTED_PACKET_COUNT_PER_MIN, SentSum(links, now), LostSum(links, now));
      Some(Frames(Quotient(t.sent, t.active), Quotient(t.nulled, t.active), Quotient(deficit, t.active)))
  }

  /** Computing the deficit in Int arithmetic, wrapping at every step, lands
      where the exact deficit wraps to. */
  lemma DeficitWraps(e: int, s: int, l: int)
    ensures WrapInt(WrapInt(e) - WrapInt(WrapInt(s) + WrapInt(l))) == WrapInt(e - (s + l))
  {
    WrapIntCombine(s, l, 1);
    WrapIntCombine(e, s + l, -1);
  }

  /** An Int divided by a positive Int, as Kotlin's `/` does it. */
  function Quotient(a: Int, b: Int): (q: Int)
    requires b > 0
    ensures q == TDiv(a, b)
  {
    QuotientBounded(a, b);
    TDiv(a, b)
  }

  lemma QuotientBounded(a: int, b: int)
    requires b > 0
    ensures a >= 0 ==> 0 <= TDiv(a, b) <= a
    ensures a < 0 ==> a <= TDiv(a, b) <= 0
  {
    if a >= 0 {
      DivAtMost(a, b);
    } else {
      DivAtMost(-a, b);
    }
  }

  lemma DivAtMost(a: nat, b: int)
    requires b > 0
    ensures 0 <= a / b <= a
  {
    var q := a / b;
    assert q * b + a % b == a;
    MulAtLeast(q, b);
  }

  lemma {:induction false} MulAtLeast(q: nat, b: int)
    requires b >= 1
    ensures q <= q * b
    decreases b
  {
    if b > 1 {
      MulAtLeast(q, b - 1);
      assert q * b == q * (b - 1) + q;
    }
  }

  /** Links sending exactly the expected 3000 frames a minute and losing
      none have no deficit. */
  lemma ExpectedRateHasNoDeficit(l: LinkView, now: Long)
    requires Usable(l, now) && l.counter.lastSuccess == 3000 && l.counter.lastLoss == 0
    ensures Average([l, l], now) == Some(Frames(3000, 0, 0))
  {
    assert [l, l][..1] == [l];
    assert [l][..0] == [];
    assert SentSum([l], now) == 3000 && LostSum([l], now) == 0;
    assert UsableCount([l, l], now) == 2 && SentSum([l, l], now) == 6000 && LostSum([l, l], now) == 0;
    AccumulateWrapsSums([l, l], now);
    assert Accumulate([l, l], now) == Totals(2, 6000, 0);
    assert TDiv(6000, 2) == 3000 && TDiv(0, 2) == 0;
  }

  /** The deficit averages with truncation: two links one frame over the
      expected total report a deficit of 0, where a floor would give -1. */
  lemma DeficitTruncates(a: LinkView, b: LinkView, now: Long)
    requires Usable(a, now) && Usable(b, now)
    requires a.counter.lastSuccess == 3001 && a.counter.lastLoss == 0
    requires b.counter.lastSuccess == 3000 && b.counter.lastLoss == 0
    ensures Average([a, b], now).value.deficit == 0
    ensures Average([a], now).value.deficit == -1
  {
    assert [a, b][..1] == [a];
    assert [a][..0] == [];
    assert UsableCount([a], now) == 1 && SentSum([a], now) == 3001 && LostSum([a], now) == 0;
    assert UsableCount([a, b], now) == 2 && SentSum([a, b], now) == 6001 && LostSum([a, b], now) == 0;
    AccumulateWrapsSums([a, b], now);
    AccumulateWrapsSums([a], now);
    assert Accumulate([a, b], now) == Totals(2, 6001, 0);
    assert Accumulate([a], now) == Totals(1, 3001, 0);
    assert TDiv(-1, 2) == 0 && TDiv(-1, 1) == -1;
  }
}

/** The CPU section. `StatsBuilder` and `StatsTask` pass the system's
    recent usage as the process load and the process's as the system load;
    `Stats` reports each under its own name. A load is a `Double` that may
    be NaN or infinite. */
module CpuStats {
  import opened KotlinInt

  datatype Sample = Finite(v: real) | NonFinite

  datatype Cpu = Cpu(cores: Int, systemLoad: Sample, processLoad: Sample)

  /** `Stats.CPU(cores, processLoad = systemRecentCpuUsage, systemLoad =
      processRecentCpuUsage)`, as written. */
  function CpuAsWritten(cores: Int, processUsage: Sample, systemUsage: Sample): (c: Cpu)
    ensures c.cores == cores && c.processLoad == systemUsage && c.systemLoad == processUsage
  {
    Cpu(cores, processUsage, systemUsage)
  }

  /** Each load under its own name. */
  function CpuReport(cores: Int, processUsage: Sample, systemUsage: Sample): (c: Cpu)
    ensures c.cores == cores && c.processLoad == processUsage && c.systemLoad == systemUsage
  {
    Cpu(cores, systemUsage, processUsage)
  }

  /** A node whose process uses a quarter of the CPU on a machine at three
      quarters reports a process load of 0.75. */
  lemma LoadsSwapped()
    ensures CpuAsWritten(4, Finite(0.25), Finite(0.75)).processLoad == Finite(0.75)
    ensures CpuReport(4, Finite(0.25), Finite(0.75)).processLoad == Finite(0.25)
  {
  }

  /** The two agree exactly when both loads are the same sample. */
  lemma AsWrittenAgreesOnlyOnEqualLoads(cores: Int, processUsage: Sample, systemUsage: Sample)
    ensures CpuAsWritten(cores, processUsage, systemUsage) == CpuReport(cores, processUsage, systemUsage)
            <==> processUsage == systemUsage
  {
  }
}

/** `obsidian.server.io.StatsBuilder`: the legacy statistics dispatch. The
    runtime's memory and CPU readings are arguments. */
module StatsBuilder {
  import opened Wrappers
  import opened KotlinInt
  import StatsFrames
  import CpuStats

  datatype Memory = Memory(free: Long, used: Long, allocatedBytes: Long, reservable: Long)

  datatype Stats = Stats(memory: Memory, cpu: CpuStats.Cpu, links: Option<StatsFrames.Links>,
                         frames: Option<StatsFrames.Frames>)

  /** `build`: links and frames only for a client, and frames only when
      one of its links has usable data. */
  function Build(free: Long, total: Long, max: Long, cores: Int, processUsage: CpuStats.Sample,
                 systemUsage: CpuStats.Sample, client: Option<seq<StatsFrames.LinkView>>, now: Long): (s: Stats)
    ensures s.memory.used == WrapLong(total - free) && s.memory.free == free && s.memory.allocatedBytes == total
    ensures s.cpu == CpuStats.CpuAsWritten(cores, processUsage, systemUsage)
    ensures s.links.Some? <==> client.Some?
    ensures client.Some? ==> s.links == Some(StatsFrames.LinkCounts(client.value))
    ensures client.None? ==> s.frames.None?
    ensures client.Some? ==> s.frames == StatsFrames.Average(client.value, now)
  {
    Stats(Memory(free, WrapLong(total - free), total, max),
          CpuStats.CpuAsWritten(cores, processUsage, systemUsage),
          if client.Some? then Some(StatsFrames.LinkCounts(client.value)) else None,
          if client.Some? then StatsFrames.Average(client.value, now) else None)
  }
}

/** `obsidian.server.io.Stats`: the same statistics built as a JSON object. */
module StatsJson {
  import opened Wrappers
  import opened KotlinInt
  import opened Json
  import StatsFrames
  import CpuStats
  import StatsBuilder

  /** `takeIf { it.isFinite() } ?: 0`. */
  function Load(s: CpuStats.Sample): (j: Json)
    ensures s.Finite? ==> j == JDecimal(s.v)
    ensures s.NonFinite? ==> j == JNumber(0)
  {
    match s
    case Finite(v) => JDecimal(v)
    case NonFinite => JNumber(0)
  }

  /** The sections of the statistics object; "links" and "frames" only
      when given. */
  function Sections(memory: Json, cpu: Json, links: Option<Json>, frames: Option<Json>): (m: map<string, Json>)
    ensures "memory" in m && m["memory"] == memory && "cpu" in m && m["cpu"] == cpu
    ensures "links" in m <==> links.Some?
    ensures links.Some? ==> m["links"] == links.value
    ensures "frames" in m <==> frames.Some?
    ensures frames.Some? ==> m["frames"] == frames.value
  {
    var base := map["memory" := memory, "cpu" := cpu];
    var withLinks := if links.Some? then base["links" := links.value] else base;
    if frames.Some? then withLinks["frames" := frames.value] else withLinks
  }

  function CpuJson(cores: Int, processUsage: CpuStats.Sample, systemUsage: CpuStats.Sample): (j: Json)
    ensures j.JObject? && "process_load" in j.fields && "system_load" in j.fields
    ensures j.fields["process_load"] == Load(processUsage) && j.fields["system_load"] == Load(systemUsage)
  {
    JObject(map["cores" := JNumber(cores), "system_load" := Load(systemUsage), "process_load" := Load(processUsage)])
  }

  function LinksJson(l: StatsFrames.Links): Json
  {
    JObject(map["active" := JNumber(l.active), "total" := JNumber(l.total)])
  }

  function FramesJson(f: StatsFrames.Frames): Json
  {
    JObject(map["sent" := JNumber(f.sent), "nulled" := JNumber(f.nulled), "deficit" := JNumber(f.deficit)])
  }

  /** `build`: "links" and "frames" only for a client, and "frames" only
      when one of its links has usable data. */
  function Build(free: Long, total: Long, max: Long, cores: Int, processUsage: CpuStats.Sample,
                 systemUsage: CpuStats.Sample, client: Option<seq<StatsFrames.LinkView>>, now: Long): (j: Json)
    ensures j.JObject? && "memory" in j.fields && "cpu" in j.fields
    ensures "links" in j.fields <==> client.Some?
    ensures "frames" in j.fields <==> client.Some? && StatsFrames.Average(client.value, now).Some?
    ensures j.fields["cpu"] == CpuJson(cores, processUsage, systemUsage)
  {
    var memory := JObject(map["free" := JNumber(free), "used" := JNumber(WrapLong(total - free)),
                              "allocated" := JNumber(total), "reservable" := JNumber(max)]);
    var links := if client.Some? then Some(LinksJson(StatsFrames.LinkCounts(client.value))) else None;
    var frames := if client.Some? && StatsFrames.Average(client.value, now).Some?
                  then Some(FramesJson(StatsFrames.Average(client.value, now).value)) else None;
    JObject(Sections(memory, CpuJson(cores, processUsage, systemUsage), links, frames))
  }

  /** The JSON statistics carry the same link and frame figures as the
      `StatsBuilder` ones, and the CPU loads under their right names. */
  lemma AgreesWithStatsBuilder(free: Long, total: Long, max: Long, cores: Int, processUsage: CpuStats.Sample,
                               systemUsage: CpuStats.Sample, client: Option<seq<StatsFrames.LinkView>>, now: Long)
    ensures var j := Build(free, total, max, cores, processUsage, systemUsage, client, now);
            var s := StatsBuilder.Build(free, total, max, cores, processUsage, systemUsage, client, now);
            var c := CpuStats.CpuReport(cores, processUsage, systemUsage);
            (s.links.Some? ==> "links" in j.fields && j.fields["links"] == LinksJson(s.links.value)) &&
            (s.frames.Some? ==> "frames" in j.fields && j.fields["frames"] == FramesJson(s.frames.value)) &&
            j.fields["cpu"].fields["process_load"] == Load(c.processLoad) &&
            j.fields["cpu"].fields["system_load"] == Load(c.systemLoad)
  {
  }
}

/** `obsidian.server.io.ws.StatsTask`: the current protocol's statistics,
    with per-player frame figures from the second-bucket tracker. */
module StatsTask {
  import opened Wrappers
  import opened KotlinInt
  import FrameLossTracker
  import CpuStats

  datatype PlayerView = PlayerView(guildId: Long, playing: bool, tracker: FrameLossTracker.Tracker)

  datatype Players = Players(active: Int, total: Int)

  datatype FrameStats = FrameStats(guildId: Long, usable: bool, lost: Int, sent: Int)

  function CountPlaying(players: seq<PlayerView>): (n: nat)
    ensures n <= |players|
  {
    if players == [] then 0 else CountPlaying(players[..|players| - 1]) + (if players[|players| - 1].playing then 1 else 0)
  }

  /** The nested loop over every client's players, with Int counters. */
  function CountAll(clients: seq<seq<PlayerView>>): (r: Players)
  {
    if clients == [] then Players(0, 0)
    else
      var r := CountAll(clients[..|clients| - 1]);
      var c := clients[|clients| - 1];
      Players(WrapInt(r.active + CountPlaying(c)), WrapInt(r.total + |c|))
  }

  function SumTotals(clients: seq<seq<PlayerView>>): nat
  {
    if clients == [] then 0 else SumTotals(clients[..|clients| - 1]) + |clients[|clients| - 1]|
  }

  function SumActive(clients: seq<seq<PlayerView>>): nat
  {
    if clients == [] then 0 else SumActive(clients[..|clients| - 1]) + CountPlaying(clients[|clients| - 1])
  }

  /** Without a client, the counts run over every player of every client;
      with one, over its players only. */
  function PlayerCounts(all: seq<seq<PlayerView>>, client: Option<seq<PlayerView>>): (r: Players)
    ensures client.Some? ==> r == Players(WrapInt(CountPlaying(client.value)), WrapInt(|client.value|))
    ensures client.None? ==> r == Players(WrapInt(SumActive(all)), WrapInt(SumTotals(all)))
  {
    match client
    case Some(c) => Players(WrapInt(CountPlaying(c)), WrapInt(|c|))
    case None => CountAllSums(all); CountAll(all)
  }

  lemma {:induction false} CountAllSums(clients: seq<seq<PlayerView>>)
    ensures CountAll(clients) == Players(WrapInt(SumActive(clients)), WrapInt(SumTotals(clients)))
  {
    if clients != [] {
      var init, c := clients[..|clients| - 1], clients[|clients| - 1];
      var r := CountAll(init);
      CountAllSums(init);
      var a, t, p, n := SumActive(init), SumTotals(init), CountPlaying(c), |c|;
      assert CountAll(clients) == Players(WrapInt(r.active + p), WrapInt(r.total + n));
      assert SumActive(clients) == a + p && SumTotals(clients) == t + n;
      WrapIntAdd(a, p);
      WrapIntAdd(t, n);
    }
  }

  /** The whole node's count is the client counts added up. */
  lemma {:induction false} NodeCountsAddUp(clients: seq<seq<PlayerView>>, last: seq<PlayerView>)
    requires SumTotals(clients + [last]) <= INT_MAX
    ensures PlayerCounts(clients + [last], None).total ==
            PlayerCounts(clients, None).total + PlayerCounts([], Some(last)).total
    ensures PlayerCounts(clients + [last], None).active ==
            PlayerCounts(clients, None).active + PlayerCounts([], Some(last)).active
  {
    var all := clients + [last];
    assert all[..|all| - 1] == clients;
    assert SumActive(all) <= SumTotals(all) by { ActiveWithinTotal(all); }
  }

  lemma {:induction false} ActiveWithinTotal(clients: seq<seq<PlayerView>>)
    ensures SumActive(clients) <= SumTotals(clients)
  {
    if clients != [] {
      ActiveWithinTotal(clients[..|clients| - 1]);
    }
  }

  predicate AllValid(players: seq<PlayerView>)
  {
    forall i :: 0 <= i < |players| ==> players[i].tracker.Valid()
  }

  /** One entry per player of the client (none without a client), each the
      same figures as that player's update payload. */
  function FrameList(client: Option<seq<PlayerView>>, now: Long): (r: seq<FrameStats>)
    requires client.Some? ==> AllValid(client.value)
    ensures client.None? ==> r == []
    ensures client.Some? ==> |r| == |client.value|
    ensures client.Some? ==> forall i :: 0 <= i < |r| ==>
              var p := client.value[i];
              var payload := FrameLossTracker.Payload(p.tracker, now);
              r[i] == FrameStats(p.guildId, payload.usable, payload.lost, payload.sent)
  {
    match client
    case None => []
    case Some(players) =>
      seq(|players|, i requires 0 <= i < |players| =>
        var p := players[i];
        var payload := FrameLossTracker.Payload(p.tracker, now);
        FrameStats(p.guildId, payload.usable, payload.lost, payload.sent))
  }

  datatype Stats = Stats(cpu: CpuStats.Cpu, frames: seq<FrameStats>, players: Players)

  /** `build`; memory and thread figures are runtime readings and left out. */
  function Build(cores: Int, processUsage: CpuStats.Sample, systemUsage: CpuStats.Sample,
                 all: seq<seq<PlayerView>>, client: Option<seq<PlayerView>>, now: Long): (s: Stats)
    requires client.Some? ==> AllValid(client.value)
    ensures s.cpu == CpuStats.CpuAsWritten(cores, processUsage, systemUsage)
    ensures s.frames == FrameList(client, now) && s.players == PlayerCounts(all, client)
  {
    Stats(CpuStats.CpuAsWritten(cores, processUsage, systemUsage), FrameList(client, now), PlayerCounts(all, client))
  }
}
