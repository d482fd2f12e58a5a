/** The sampling loop of the sampler's `main`. In throughput mode each
    iteration starts the performance counters of every active device,
    sleeps for the interval, stops them all, then reads the calibrated
    throughput of each monitored port; in error mode it sleeps, then reads
    each port's error counters. A port whose read succeeds gets one sample
    on its counter; a failed read publishes nothing and the loop goes on. */
module Sampling {
  import opened Wrappers
  import opened CommandLine
  import opened Facade
  import opened Discovery
  import Seqs

  /** `1024.0 * 1024.0`: bytes per second to MB/s. */
  const MiB: real := 1024.0 * 1024.0

  /** The four values published for a throughput read. */
  function CalValues(cal: PerfCal): (v: seq<real>)
    ensures |v| == 4
    ensures v[0] * MiB == cal.rxBps && v[1] * MiB == cal.txBps
    ensures v[2] == cal.rxUtilization && v[3] == cal.txUtilization
  {
    [cal.rxBps / MiB, cal.txBps / MiB, cal.rxUtilization, cal.txUtilization]
  }

  /** The four values published for an error-counter read. */
  function ErrorValues(e: PortErrors): (v: seq<real>)
    ensures |v| == 4
    ensures v[0].Floor == e.badTlp && v[1].Floor == e.badDllp
    ensures v[2].Floor == e.rxErrors && v[3].Floor == e.recoveryDiagnostics
  {
    [e.badTlp as real, e.badDllp as real, e.rxErrors as real, e.recoveryDiagnostics as real]
  }

  /** The size passed with every sample: `4 * sizeof(double)`. */
  const SampleSize: nat := 4 * DoubleSize

  /** `usleep(config.intervalMs * 1000)`: the product reaches `usleep` as a
      32-bit `useconds_t`, that is modulo 2^32. */
  function UsleepArg(ms: int): (us: nat)
    ensures us < Wrap32
    ensures us == ms * 1000 <==> 0 <= ms * 1000 < Wrap32
  {
    (ms * 1000) % Wrap32
  }

  /** `h3ppciPerfStart` on each of `active`, in order. */
  function Starts(active: seq<int>): seq<Event>
  {
    if |active| == 0 then [] else [PerfStart(active[0])] + Starts(active[1..])
  }

  /** `h3ppciPerfStop` on each of `active`, in order. */
  function Stops(active: seq<int>): seq<Event>
  {
    if |active| == 0 then [] else [PerfStop(active[0])] + Stops(active[1..])
  }

  /** The read of one port in round `round`, and its sample if the read succeeds. */
  function PortRead(c: Config, lib: Library, m: MonitoredPort, round: nat): seq<Event>
  {
    var pr := Probe(round, m.handle, m.portIndex);
    if c.moduleName == "throughput" then
      [ReadCal(m.handle, m.portIndex)]
      + (if pr in lib.cal then [Sample(m.domain, m.counter, CalValues(lib.cal[pr]), SampleSize)] else [])
    else
      [ReadErrors(m.handle, m.portIndex)]
      + (if pr in lib.errors then [Sample(m.domain, m.counter, ErrorValues(lib.errors[pr]), SampleSize)] else [])
  }

  /** The reads of `ports`, in order. */
  function PortReads(c: Config, lib: Library, ports: seq<MonitoredPort>, round: nat): seq<Event>
  {
    if |ports| == 0 then [] else PortRead(c, lib, ports[0], round) + PortReads(c, lib, ports[1..], round)
  }

  /** One iteration of the sampling loop. */
  function Round(c: Config, lib: Library, active: seq<int>, ports: seq<MonitoredPort>, round: nat): seq<Event>
  {
    var sleep := Sleep(UsleepArg(c.intervalMs));
    if c.moduleName == "throughput" then
      Starts(active) + [sleep] + Stops(active) + PortReads(c, lib, ports, round)
    else
      [sleep] + PortReads(c, lib, ports, round)
  }

  /** Iterations `from` up to `n` of the sampling loop, which itself never ends. */
  function Rounds(c: Config, lib: Library, active: seq<int>, ports: seq<MonitoredPort>, from: nat, n: nat): seq<Event>
    decreases n - from
  {
    if from >= n then [] else Round(c, lib, active, ports, from) + Rounds(c, lib, active, ports, from + 1, n)
  }

  // ---------------------------------------------------------------------
  // Values and sizes

  /** Every sample carries as many values as the module's schema has
      entries, and the schema's static size. */
  lemma SampleMatchesSchema(moduleName: string)
    ensures SampleSize == SchemaOf(moduleName).staticSize
    ensures |SchemaOf(moduleName).entries| * DoubleSize == SampleSize
  {
  }

  /** Where the wrap-around of `UsleepArg` starts: 4294967 ms is the longest
      interval slept exactly, and -1 ms sleeps for almost 72 minutes. */
  lemma UsleepWraps()
    ensures UsleepArg(4294967) == 4294967000
    ensures UsleepArg(4294968) == 704
    ensures UsleepArg(-1) == Wrap32 - 1000
  {
  }

  // ---------------------------------------------------------------------
  // Which calls a round makes

  lemma {:induction false} StartsControl(active: seq<int>, k: Control)
    ensures Controlled(Starts(active), k) == (if k == Start then active else [])
    decreases |active|
  {
    if |active| > 0 {
      var t := Starts(active);
      assert t[0] == PerfStart(active[0]) && t[1..] == Starts(active[1..]);
      StartsControl(active[1..], k);
    }
  }

  lemma {:induction false} StopsControl(active: seq<int>, k: Control)
    ensures Controlled(Stops(active), k) == (if k == Stop then active else [])
    decreases |active|
  {
    if |active| > 0 {
      var t := Stops(active);
      assert t[0] == PerfStop(active[0]) && t[1..] == Stops(active[1..]);
      StopsControl(active[1..], k);
    }
  }

  /** A port read is a read, then possibly a sample. */
  predicate ReadOrSample(e: Event)
  {
    e.ReadCal? || e.ReadErrors? || e.Sample?
  }

  lemma {:induction false} PortReadsOnly(c: Config, lib: Library, ports: seq<MonitoredPort>, round: nat)
    ensures forall i | 0 <= i < |PortReads(c, lib, ports, round)| :: ReadOrSample(PortReads(c, lib, ports, round)[i])
    decreases |ports|
  {
    if |ports| > 0 {
      var a, b := PortRead(c, lib, ports[0], round), PortReads(c, lib, ports[1..], round);
      PortReadsOnly(c, lib, ports[1..], round);
      assert forall i | 0 <= i < |a| :: ReadOrSample(a[i]);
      forall i | 0 <= i < |a + b| ensures ReadOrSample((a + b)[i]) {
        if i >= |a| {
          assert (a + b)[i] == b[i - |a|];
        }
      }
    }
  }

  /** The reads never start, stop or initialise a device. */
  lemma PortReadsControl(c: Config, lib: Library, ports: seq<MonitoredPort>, round: nat, k: Control)
    ensures Controlled(PortReads(c, lib, ports, round), k) == []
  {
    PortReadsOnly(c, lib, ports, round);
    ControlledEmpty(PortReads(c, lib, ports, round), k);
  }

  /** In throughput mode a round starts and stops every active device, in
      order, and initialises none; in error mode it does none of these. */
  lemma RoundControl(c: Config, lib: Library, active: seq<int>, ports: seq<MonitoredPort>, round: nat, k: Control)
    ensures Controlled(Round(c, lib, active, ports, round), k) ==
      (if c.moduleName == "throughput" && k != Init then active else [])
  {
    var rd := PortReads(c, lib, ports, round);
    var sleep := [Sleep(UsleepArg(c.intervalMs))];
    PortReadsControl(c, lib, ports, round, k);
    ControlledEmpty(sleep, k);
    if c.moduleName == "throughput" {
      StartsControl(active, k);
      StopsControl(active, k);
      ControlledAppend(Starts(active), sleep, k);
      ControlledAppend(Starts(active) + sleep, Stops(active), k);
      ControlledAppend(Starts(active) + sleep + Stops(active), rd, k);
    } else {
      ControlledAppend(sleep, rd, k);
    }
  }

  // ---------------------------------------------------------------------
  // The order of the calls within a round

  /** Where a call falls in a round: starts, the sleep, stops, then reads. */
  function Phase(e: Event): nat
  {
    match e
    case PerfStart(_) => 0
    case Sleep(_) => 1
    case PerfStop(_) => 2
    case _ => 3
  }

  /** The calls of `t` go through the phases in order. */
  predicate Phased(t: seq<Event>)
  {
    forall i, j | 0 <= i < j < |t| :: Phase(t[i]) <= Phase(t[j])
  }

  /** Every call of `t` is in phase `ph`. */
  predicate AllIn(t: seq<Event>, ph: nat)
  {
    forall i | 0 <= i < |t| :: Phase(t[i]) == ph
  }

  lemma {:induction false} StartsPhase(active: seq<int>)
    ensures AllIn(Starts(active), 0) && |Starts(active)| == |active|
    decreases |active|
  {
    if |active| > 0 {
      StartsPhase(active[1..]);
      var t := Starts(active);
      assert forall i | 1 <= i < |t| :: t[i] == Starts(active[1..])[i - 1];
    }
  }

  lemma {:induction false} StopsPhase(active: seq<int>)
    ensures AllIn(Stops(active), 2) && |Stops(active)| == |active|
    decreases |active|
  {
    if |active| > 0 {
      StopsPhase(active[1..]);
      var t := Stops(active);
      assert forall i | 1 <= i < |t| :: t[i] == Stops(active[1..])[i - 1];
    }
  }

  /** A block of one phase followed by a block of a later one is in order. */
  lemma PhasedJoin(a: seq<Event>, pa: nat, b: seq<Event>, pb: nat)
    requires (forall i | 0 <= i < |a| :: Phase(a[i]) <= pa) && Phased(a)
    requires AllIn(b, pb) && pa <= pb
    ensures Phased(a + b) && forall i | 0 <= i < |a + b| :: Phase((a + b)[i]) <= pb
  {
    var t := a + b;
    forall i, j | 0 <= i < j < |t| ensures Phase(t[i]) <= Phase(t[j]) {
      if j < |a| {
        assert t[i] == a[i] && t[j] == a[j];
      } else if i < |a| {
        assert t[i] == a[i] && t[j] == b[j - |a|];
      } else {
        assert t[i] == b[i - |a|] && t[j] == b[j - |a|];
      }
    }
    forall i | 0 <= i < |t| ensures Phase(t[i]) <= pb {
      if i < |a| {
        assert t[i] == a[i];
      } else {
        assert t[i] == b[i - |a|];
      }
    }
  }

  lemma PortReadsPhase(c: Config, lib: Library, ports: seq<MonitoredPort>, round: nat)
    ensures AllIn(PortReads(c, lib, ports, round), 3)
  {
    PortReadsOnly(c, lib, ports, round);
  }

  /** Within a round every `h3ppciPerfStart` comes before the sleep, the
      sleep before every `h3ppciPerfStop`, and those before every port read;
      the round sleeps exactly once. */
  lemma RoundPhased(c: Config, lib: Library, active: seq<int>, ports: seq<MonitoredPort>, round: nat)
    ensures Phased(Round(c, lib, active, ports, round))
    ensures c.moduleName == "throughput" ==>
      |active| < |Round(c, lib, active, ports, round)| && Round(c, lib, active, ports, round)[|active|] == Sleep(UsleepArg(c.intervalMs))
      && SleepsOnlyAt(Round(c, lib, active, ports, round), |active|)
    ensures c.moduleName != "throughput" ==>
      Round(c, lib, active, ports, round)[0] == Sleep(UsleepArg(c.intervalMs))
      && SleepsOnlyAt(Round(c, lib, active, ports, round), 0)
  {
    var rd := PortReads(c, lib, ports, round);
    var sleep := [Sleep(UsleepArg(c.intervalMs))];
    PortReadsPhase(c, lib, ports, round);
    assert AllIn(sleep, 1);
    if c.moduleName == "throughput" {
      var starts, stops := Starts(active), Stops(active);
      StartsPhase(active);
      StopsPhase(active);
      PhasedJoin(starts, 0, sleep, 1);
      PhasedJoin(starts + sleep, 1, stops, 2);
      PhasedJoin(starts + sleep + stops, 2, rd, 3);
      assert (starts + sleep + stops + rd)[|active|] == sleep[0];
      OnlyPhaseOneSleeps(starts + sleep + stops + rd, |active|);
    } else {
      PhasedJoin(sleep, 1, rd, 3);
      OnlyPhaseOneSleeps(sleep + rd, 0);
    }
  }

  /** The call at `k` is the only sleep of `t`. */
  predicate SleepsOnlyAt(t: seq<Event>, k: nat)
  {
    forall i | 0 <= i < |t| :: t[i].Sleep? <==> i == k
  }

  /** In a phased trace whose one call of the sleep phase sits at `k`, the
      sleep at `k` is the only one. */
  lemma OnlyPhaseOneSleeps(t: seq<Event>, k: nat)
    requires Phased(t) && k < |t| && t[k].Sleep?
    requires k > 0 ==> Phase(t[k - 1]) == 0
    requires k + 1 < |t| ==> Phase(t[k + 1]) >= 2
    ensures SleepsOnlyAt(t, k)
  {
    forall i | 0 <= i < |t| ensures t[i].Sleep? <==> i == k {
      if i < k {
        assert Phase(t[i]) <= Phase(t[k - 1]);
      } else if k < i {
        assert Phase(t[k + 1]) <= Phase(t[i]);
      }
    }
  }

  // ---------------------------------------------------------------------
  // What a round reads and publishes

  /** The read calls of `t`, in order. */
  function ReadsIn(t: seq<Event>): (r: seq<Event>)
    ensures |r| <= |t|
  {
    if |t| == 0 then []
    else if t[0].ReadCal? || t[0].ReadErrors? then [t[0]] + ReadsIn(t[1..])
    else ReadsIn(t[1..])
  }

  lemma {:induction false} ReadsInAppend(a: seq<Event>, b: seq<Event>)
    ensures ReadsIn(a + b) == ReadsIn(a) + ReadsIn(b)
    decreases |a|
  {
    if |a| == 0 {
      assert a + b == b;
    } else {
      assert (a + b)[0] == a[0];
      assert (a + b)[1..] == a[1..] + b;
      ReadsInAppend(a[1..], b);
    }
  }

  /** The read a round makes of port `m`: the calibrated throughput, or the
      error counters. */
  function ReadOf(c: Config, m: MonitoredPort): Event
  {
    if c.moduleName == "throughput" then ReadCal(m.handle, m.portIndex) else ReadErrors(m.handle, m.portIndex)
  }

  /** A round reads every monitored port once, in their order, whether or
      not earlier reads failed. */
  lemma {:induction false} PortReadsEach(c: Config, lib: Library, ports: seq<MonitoredPort>, round: nat)
    ensures |ReadsIn(PortReads(c, lib, ports, round))| == |ports|
    ensures forall k | 0 <= k < |ports| :: ReadsIn(PortReads(c, lib, ports, round))[k] == ReadOf(c, ports[k])
    decreases |ports|
  {
    if |ports| > 0 {
      var a, b := PortRead(c, lib, ports[0], round), PortReads(c, lib, ports[1..], round);
      PortReadsEach(c, lib, ports[1..], round);
      ReadsInAppend(a, b);
      assert ReadsIn(a) == [ReadOf(c, ports[0])] by {
        assert a[0] == ReadOf(c, ports[0]);
        assert |a| == 1 || (|a| == 2 && a[1].Sample?);
        if |a| == 2 {
          assert a[1..][1..] == [];
        }
      }
      var r := ReadsIn(a + b);
      forall k | 1 <= k < |ports| ensures r[k] == ReadOf(c, ports[k]) {
        assert ports[k] == ports[1..][k - 1];
      }
    }
  }

  /** The probe a round makes of port `m`. */
  function ProbeOf(m: MonitoredPort, round: nat): Probe
  {
    Probe(round, m.handle, m.portIndex)
  }

  /** The read of `m` in round `round` succeeds. */
  predicate ReadSucceeds(c: Config, lib: Library, m: MonitoredPort, round: nat)
  {
    if c.moduleName == "throughput" then ProbeOf(m, round) in lib.cal else ProbeOf(m, round) in lib.errors
  }

  /** The values a successful read of `m` publishes. */
  function ValuesOf(c: Config, lib: Library, m: MonitoredPort, round: nat): seq<real>
    requires ReadSucceeds(c, lib, m, round)
  {
    if c.moduleName == "throughput" then CalValues(lib.cal[ProbeOf(m, round)]) else ErrorValues(lib.errors[ProbeOf(m, round)])
  }

  /** `t` publishes a sample on `counter`. */
  predicate SampledIn(t: seq<Event>, counter: nat)
  {
    exists i | 0 <= i < |t| :: t[i].Sample? && t[i].counter == counter
  }

  /** No two of `ports` share a counter. */
  predicate DistinctCounters(ports: seq<MonitoredPort>)
  {
    forall k, l | 0 <= k < l < |ports| :: ports[k].counter != ports[l].counter
  }

  /** Every sample of `t` is on the domain and counter of one of `ports`,
      with four values and `4 * sizeof(double)` bytes. */
  predicate SamplesFrom(t: seq<Event>, ports: seq<MonitoredPort>)
  {
    forall i | 0 <= i < |t| && t[i].Sample? ::
      |t[i].values| == 4 && t[i].size == SampleSize
      && exists k | 0 <= k < |ports| :: t[i].domain == ports[k].domain && t[i].counter == ports[k].counter
  }

  lemma {:induction false} PortReadsSamples(c: Config, lib: Library, ports: seq<MonitoredPort>, round: nat)
    ensures SamplesFrom(PortReads(c, lib, ports, round), ports)
    decreases |ports|
  {
    if |ports| > 0 {
      var a, b := PortRead(c, lib, ports[0], round), PortReads(c, lib, ports[1..], round);
      var t := a + b;
      PortReadsSamples(c, lib, ports[1..], round);
      forall i | 0 <= i < |t| && t[i].Sample?
        ensures |t[i].values| == 4 && t[i].size == SampleSize
        ensures exists k | 0 <= k < |ports| :: t[i].domain == ports[k].domain && t[i].counter == ports[k].counter
      {
        if i < |a| {
          assert t[i] == a[i] && i == 1;
          assert t[i].domain == ports[0].domain && t[i].counter == ports[0].counter;
        } else {
          assert t[i] == b[i - |a|];
          var k :| 0 <= k < |ports[1..]| && b[i - |a|].domain == ports[1..][k].domain && b[i - |a|].counter == ports[1..][k].counter;
          assert ports[1..][k] == ports[k + 1];
        }
      }
    }
  }

  /** A port whose read succeeds gets a sample on its counter with what the
      read returned; a port whose read fails gets none, and the ports after
      it are read all the same. */
  lemma {:induction false} PortReadsPublish(c: Config, lib: Library, ports: seq<MonitoredPort>, round: nat, k: nat)
    requires DistinctCounters(ports) && k < |ports|
    ensures var m := ports[k];
      ReadSucceeds(c, lib, m, round) ==>
        Sample(m.domain, m.counter, ValuesOf(c, lib, m, round), SampleSize) in PortReads(c, lib, ports, round)
    ensures var m := ports[k];
      !ReadSucceeds(c, lib, m, round) ==> !SampledIn(PortReads(c, lib, ports, round), m.counter)
    decreases |ports|
  {
    var m := ports[k];
    var a, b := PortRead(c, lib, ports[0], round), PortReads(c, lib, ports[1..], round);
    var t := a + b;
    assert PortReads(c, lib, ports, round) == t;
    if k == 0 {
      if ReadSucceeds(c, lib, m, round) {
        assert a[1] == Sample(m.domain, m.counter, ValuesOf(c, lib, m, round), SampleSize);
        assert t[1] == a[1];
      } else {
        assert |a| == 1;
        PortReadsSamples(c, lib, ports[1..], round);
      }
    } else {
      assert DistinctCounters(ports[1..]) by {
        forall x, y | 0 <= x < y < |ports[1..]| ensures ports[1..][x].counter != ports[1..][y].counter {
          assert ports[1..][x] == ports[x + 1] && ports[1..][y] == ports[y + 1];
        }
      }
      assert ports[1..][k - 1] == m;
      PortReadsPublish(c, lib, ports[1..], round, k - 1);
      if ReadSucceeds(c, lib, m, round) {
        InAppend(Sample(m.domain, m.counter, ValuesOf(c, lib, m, round), SampleSize), a, b);
      }
    }
  }

  // ---------------------------------------------------------------------
  // The loop

  lemma {:induction false} RoundsAppend(c: Config, lib: Library, active: seq<int>, ports: seq<MonitoredPort>, from: nat, r: nat, n: nat)
    requires from <= r <= n
    ensures Rounds(c, lib, active, ports, from, n) == Rounds(c, lib, active, ports, from, r) + Rounds(c, lib, active, ports, r, n)
    decreases r - from
  {
    var z := Rounds(c, lib, active, ports, r, n);
    if from < r {
      RoundsAppend(c, lib, active, ports, from + 1, r, n);
      var x := Round(c, lib, active, ports, from);
      var y := Rounds(c, lib, active, ports, from + 1, r);
      Seqs.AppendAssoc(x, y, z);
    } else {
      assert [] + z == z;
    }
  }

  /** Round `r` of the loop is a contiguous block of its trace. */
  lemma RoundsSplit(c: Config, lib: Library, active: seq<int>, ports: seq<MonitoredPort>, r: nat, n: nat)
    requires r < n
    ensures Rounds(c, lib, active, ports, 0, n) ==
      Rounds(c, lib, active, ports, 0, r) + Round(c, lib, active, ports, r) + Rounds(c, lib, active, ports, r + 1, n)
  {
    RoundsAppend(c, lib, active, ports, 0, r, n);
  }

  /** Over the loop no device is initialised; in error mode none is started
      or stopped either, and in throughput mode every start and every stop is
      of an active device. */
  lemma {:induction false} RoundsControl(c: Config, lib: Library, active: seq<int>, ports: seq<MonitoredPort>, from: nat, n: nat, k: Control)
    ensures k == Init || c.moduleName != "throughput" ==> Controlled(Rounds(c, lib, active, ports, from, n), k) == []
    ensures forall i | 0 <= i < |Controlled(Rounds(c, lib, active, ports, from, n), k)| ::
      Controlled(Rounds(c, lib, active, ports, from, n), k)[i] in active
    decreases n - from
  {
    if from < n {
      var x, y := Round(c, lib, active, ports, from), Rounds(c, lib, active, ports, from + 1, n);
      RoundControl(c, lib, active, ports, from, k);
      RoundsControl(c, lib, active, ports, from + 1, n, k);
      ControlledAppend(x, y, k);
      Seqs.DrawnFromAppend(Controlled(x, k), Controlled(y, k), active);
    }
  }

  lemma SamplesJoin(a: seq<Event>, b: seq<Event>, ports: seq<MonitoredPort>)
    requires SamplesFrom(a, ports) && SamplesFrom(b, ports)
    ensures SamplesFrom(a + b, ports)
  {
    var t := a + b;
    forall i | 0 <= i < |t| && t[i].Sample?
      ensures |t[i].values| == 4 && t[i].size == SampleSize
      ensures exists k | 0 <= k < |ports| :: t[i].domain == ports[k].domain && t[i].counter == ports[k].counter
    {
      if i < |a| {
        assert t[i] == a[i];
      } else {
        assert t[i] == b[i - |a|];
      }
    }
  }

  /** A block of calls before the reads publishes nothing. */
  lemma NoSamples(t: seq<Event>, ph: nat, ports: seq<MonitoredPort>)
    requires AllIn(t, ph) && ph < 3
    ensures SamplesFrom(t, ports)
  {
    forall i | 0 <= i < |t| ensures !t[i].Sample? {
      assert Phase(t[i]) < 3;
    }
  }

  lemma RoundSamples(c: Config, lib: Library, active: seq<int>, ports: seq<MonitoredPort>, round: nat)
    ensures SamplesFrom(Round(c, lib, active, ports, round), ports)
  {
    var rd := PortReads(c, lib, ports, round);
    var sleep := [Sleep(UsleepArg(c.intervalMs))];
    PortReadsSamples(c, lib, ports, round);
    assert AllIn(sleep, 1);
    NoSamples(sleep, 1, ports);
    if c.moduleName == "throughput" {
      StartsPhase(active);
      StopsPhase(active);
      NoSamples(Starts(active), 0, ports);
      NoSamples(Stops(active), 2, ports);
      SamplesJoin(Starts(active), sleep, ports);
      SamplesJoin(Starts(active) + sleep, Stops(active), ports);
      SamplesJoin(Starts(active) + sleep + Stops(active), rd, ports);
    } else {
      SamplesJoin(sleep, rd, ports);
    }
  }

  /** Every sample over the loop is on a monitored port's counter, with four
      values and `4 * sizeof(double)` bytes. */
  lemma {:induction false} RoundsSamples(c: Config, lib: Library, active: seq<int>, ports: seq<MonitoredPort>, from: nat, n: nat)
    ensures SamplesFrom(Rounds(c, lib, active, ports, from, n), ports)
    decreases n - from
  {
    if from < n {
      RoundSamples(c, lib, active, ports, from);
      RoundsSamples(c, lib, active, ports, from + 1, n);
      SamplesJoin(Round(c, lib, active, ports, from), Rounds(c, lib, active, ports, from + 1, n), ports);
    }
  }
}
