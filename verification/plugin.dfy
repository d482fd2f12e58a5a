/** The sampler's `main` as a whole: parse the command line, check the
    module, ask for the device count, discover the ports to monitor, then
    sample them for ever. The loop never ends, so a run that reaches it is
    described by the calls of its first `rounds` iterations. */
module Plugin {
  import opened Wrappers
  import opened CommandLine
  import opened Facade
  import opened Discovery
  import opened Sampling

  /** What `main` does: the status it returns, or `None` when it reaches the
      sampling loop, and the library and timeline calls it makes. */
  datatype Outcome = Outcome(status: Option<int>, trace: seq<Event>)

  /** `main` after `ParseArgs` has produced `c`. */
  function Launch(c: Config, lib: Library, rounds: nat): Outcome
  {
    if !ValidModule(c.moduleName) then Outcome(Some(1), [])
    else if lib.count.None? || lib.count.value == 0 then Outcome(Some(1), [GetDeviceCount])
    else
      var disc := Discover(c, lib, lib.count.value);
      var pre := [GetDeviceCount] + disc.trace;
      if |disc.ports| == 0 then Outcome(Some(1), pre)
      else Outcome(None, pre + Rounds(c, lib, disc.active, disc.ports, 0, rounds))
  }

  /** `main(argc, argv)`, with `args` the arguments after the program name. */
  function Main(args: seq<string>, lib: Library, rounds: nat): Outcome
  {
    match ParseArgs(args)
    case Exit(code) => Outcome(Some(code), [])
    case Run(c) => Launch(c, lib, rounds)
  }

  /** The calls `main` makes before the sampling loop. */
  predicate SetupCall(e: Event)
  {
    e == GetDeviceCount || DiscoveryCall(e)
  }

  lemma DiscoverySetup(c: Config, lib: Library, n: int)
    ensures var t := [GetDeviceCount] + Discover(c, lib, n).trace;
      forall i | 0 <= i < |t| :: SetupCall(t[i])
  {
    var d := Discover(c, lib, n).trace;
    DiscoverTrace(c, lib, n);
    var t := [GetDeviceCount] + d;
    forall i | 0 <= i < |t| ensures SetupCall(t[i]) {
      if i > 0 {
        assert t[i] == d[i - 1];
      }
    }
  }

  /** `main` returns only 1, and it reaches the sampling loop exactly when the
      module is known, the device count is read and not zero, and some port
      of some device below the count is eligible. */
  lemma LaunchStatus(c: Config, lib: Library, rounds: nat)
    ensures Launch(c, lib, rounds).status == None || Launch(c, lib, rounds).status == Some(1)
    ensures Launch(c, lib, rounds).status.None? <==>
      ValidModule(c.moduleName) && lib.count.Some? && lib.count.value != 0
      && exists d, p :: 0 <= d < lib.count.value && Eligible(c, lib, d, p)
  {
    if ValidModule(c.moduleName) && lib.count.Some? && lib.count.value != 0 {
      var n := lib.count.value;
      var disc := Discover(c, lib, n);
      if |disc.ports| > 0 {
        DiscoverDistinct(c, lib, n);
        var m := disc.ports[0];
        assert 0 <= m.deviceIdx < n && Eligible(c, lib, m.deviceIdx, m.portIndex);
      }
      if exists d, p :: 0 <= d < n && Eligible(c, lib, d, p) {
        var d, p :| 0 <= d < n && Eligible(c, lib, d, p);
        DiscoverMonitors(c, lib, n, d, p);
      }
    }
  }

  /** An unknown module returns 1 before any library call; a failed or zero
      device count returns 1 right after asking for it; and whenever `main`
      returns, it has made setup calls only: it never slept, read a port or
      published a sample. */
  lemma LaunchExits(c: Config, lib: Library, rounds: nat)
    ensures !ValidModule(c.moduleName) ==> Launch(c, lib, rounds) == Outcome(Some(1), [])
    ensures ValidModule(c.moduleName) && (lib.count == None || lib.count == Some(0)) ==>
      Launch(c, lib, rounds) == Outcome(Some(1), [GetDeviceCount])
    ensures var r := Launch(c, lib, rounds);
      r.status.Some? ==> forall i | 0 <= i < |r.trace| :: SetupCall(r.trace[i])
  {
    if ValidModule(c.moduleName) && lib.count.Some? && lib.count.value != 0 {
      DiscoverySetup(c, lib, lib.count.value);
    }
  }

  /** `-h` first on the command line returns 0 without a library call. */
  lemma HelpExits(rest: seq<string>, lib: Library, rounds: nat)
    ensures Main(["-h"] + rest, lib, rounds) == Outcome(Some(0), [])
  {
    OptionExits('h', rest);
  }

  /** An unknown option returns 1 without a library call. */
  lemma UnknownOptionExits(o: char, rest: seq<string>, lib: Library, rounds: nat)
    requires o != 'h' && o != '-' && !TakesArgument(o)
    ensures Main([['-', o]] + rest, lib, rounds) == Outcome(Some(1), [])
  {
    OptionExits(o, rest);
  }

  /** A start in `loop` follows the setup in `pre` that initialised its device. */
  lemma StartsAfterInit(pre: seq<Event>, loop: seq<Event>)
    requires forall i | 0 <= i < |pre| :: SetupCall(pre[i])
    requires forall i | 0 <= i < |Controlled(loop, Start)| :: InitDevice(Controlled(loop, Start)[i]) in pre
    ensures var t := pre + loop;
      forall i | 0 <= i < |t| && t[i].PerfStart? :: InitDevice(t[i].handle) in t[..i]
  {
    var t := pre + loop;
    forall i | 0 <= i < |t| && t[i].PerfStart? ensures InitDevice(t[i].handle) in t[..i] {
      var h := t[i].handle;
      if i < |pre| {
        assert false;
      }
      assert loop[i - |pre|] == t[i];
      assert ControlHandle(loop[i - |pre|], Start) == Some(h);
      ControlledMember(loop, Start, h);
      var j :| 0 <= j < |pre| && pre[j] == InitDevice(h);
      assert t[..i][j] == pre[j];
    }
  }

  /** In throughput mode discovery initialises every active device. */
  lemma ActiveInitialised(c: Config, lib: Library, n: int, h: int)
    requires c.moduleName == "throughput" && h in Discover(c, lib, n).active
    ensures InitDevice(h) in [GetDeviceCount] + Discover(c, lib, n).trace
  {
    var d := Discover(c, lib, n).trace;
    DiscoverTrace(c, lib, n);
    ControlledMember(d, Init, h);
    var j :| 0 <= j < |d| && ControlHandle(d[j], Init) == Some(h);
    assert ([GetDeviceCount] + d)[j + 1] == d[j] == InitDevice(h);
  }

  /** `h3ppciPerfStart` is only ever called on a device that
      `h3ppciInitDevice` was called on earlier. */
  lemma InitBeforeStart(c: Config, lib: Library, rounds: nat)
    ensures var t := Launch(c, lib, rounds).trace;
      forall i | 0 <= i < |t| && t[i].PerfStart? :: InitDevice(t[i].handle) in t[..i]
  {
    if ValidModule(c.moduleName) && lib.count.Some? && lib.count.value != 0 {
      var n := lib.count.value;
      var disc := Discover(c, lib, n);
      var pre := [GetDeviceCount] + disc.trace;
      DiscoverySetup(c, lib, n);
      if |disc.ports| > 0 {
        var loop := Rounds(c, lib, disc.active, disc.ports, 0, rounds);
        var starts := Controlled(loop, Start);
        RoundsControl(c, lib, disc.active, disc.ports, 0, rounds, Start);
        forall i | 0 <= i < |starts| ensures InitDevice(starts[i]) in pre {
          assert c.moduleName == "throughput" && starts[i] in disc.active;
          ActiveInitialised(c, lib, n, starts[i]);
        }
        StartsAfterInit(pre, loop);
      }
    } else {
      LaunchExits(c, lib, rounds);
    }
  }

  /** In throughput mode `main` initialises each device that opens exactly
      once, in device order, whether or not any of its ports is monitored;
      in error mode it never initialises, starts or stops a device. */
  lemma PerfControl(c: Config, lib: Library, rounds: nat, k: Control)
    ensures var r := Launch(c, lib, rounds);
      c.moduleName == "error" ==> Controlled(r.trace, k) == []
    ensures var r := Launch(c, lib, rounds);
      c.moduleName == "throughput" && lib.count.Some? ==>
        Controlled(r.trace, Init) == Discover(c, lib, lib.count.value).active
  {
    var r := Launch(c, lib, rounds);
    ControlledEmpty([], k);
    ControlledEmpty([GetDeviceCount], k);
    ControlledEmpty([GetDeviceCount], Init);
    if ValidModule(c.moduleName) && lib.count.Some? && lib.count.value != 0 {
      var n := lib.count.value;
      var disc := Discover(c, lib, n);
      var pre := [GetDeviceCount] + disc.trace;
      DiscoverTrace(c, lib, n);
      ControlledAppend([GetDeviceCount], disc.trace, k);
      ControlledAppend([GetDeviceCount], disc.trace, Init);
      if |disc.ports| > 0 {
        var loop := Rounds(c, lib, disc.active, disc.ports, 0, rounds);
        RoundsControl(c, lib, disc.active, disc.ports, 0, rounds, k);
        RoundsControl(c, lib, disc.active, disc.ports, 0, rounds, Init);
        ControlledAppend(pre, loop, k);
        ControlledAppend(pre, loop, Init);
      }
    } else if c.moduleName == "throughput" && lib.count.Some? {
      assert lib.count.value == 0;
      assert Discover(c, lib, 0).active == [];
    }
  }

  /** The `i`-th call of `t` is a sample whose counter and schema were
      registered earlier in its domain, and whose size and values the schema
      declares. */
  predicate SampleRegistered(moduleName: string, t: seq<Event>, i: nat)
    requires i < |t| && t[i].Sample?
  {
    t[i].size == SchemaOf(moduleName).staticSize && |t[i].values| == |SchemaOf(moduleName).entries|
    && RegisterSchema(t[i].domain, SchemaOf(moduleName), t[i].domain + 1) in t[..i]
    && exists j | 0 <= j < i ::
         t[j].RegisterCounter? && t[j].domain == t[i].domain
         && t[j].counter == t[i].counter && t[j].schemaId == t[i].domain + 1
  }

  /** A sample after `pre` on port `m`, whose schema and counter `pre`
      registers, is registered. */
  lemma SampleAfterRegistration(c: Config, lib: Library, m: MonitoredPort, pre: seq<Event>, loop: seq<Event>, i: nat)
    requires PortNamed(c, lib, m, pre)
    requires |pre| <= i < |pre + loop| && (pre + loop)[i].Sample?
    requires (pre + loop)[i].domain == m.domain && (pre + loop)[i].counter == m.counter
    requires |(pre + loop)[i].values| == 4 && (pre + loop)[i].size == SampleSize
    ensures SampleRegistered(c.moduleName, pre + loop, i)
  {
    var t := pre + loop;
    SampleMatchesSchema(c.moduleName);
    var es := RegisterSchema(m.domain, SchemaOf(c.moduleName), m.domain + 1);
    var ec := RegisterCounter(m.domain, m.portId, c.moduleName, m.domain + 1, m.counter);
    var a :| 0 <= a < |pre| && pre[a] == es;
    var b :| 0 <= b < |pre| && pre[b] == ec;
    assert t[..i][a] == es;
    assert t[b] == ec;
  }

  /** A sample of `pre + loop` is one of `loop`'s, on one of `ports`. */
  lemma SampleInLoop(pre: seq<Event>, loop: seq<Event>, ports: seq<MonitoredPort>, i: nat)
    requires forall j | 0 <= j < |pre| :: SetupCall(pre[j])
    requires SamplesFrom(loop, ports)
    requires i < |pre + loop| && (pre + loop)[i].Sample?
    ensures |pre| <= i && |(pre + loop)[i].values| == 4 && (pre + loop)[i].size == SampleSize
    ensures exists k | 0 <= k < |ports| :: (pre + loop)[i].domain == ports[k].domain && (pre + loop)[i].counter == ports[k].counter
  {
    if i < |pre| {
      assert false;
    }
    assert loop[i - |pre|] == (pre + loop)[i];
  }

  /** Every sample `main` publishes is on a counter registered earlier in
      the sample's domain, with the schema registered for that domain, and
      carries as many values and as many bytes as that schema declares. */
  lemma SamplesMatchRegistration(c: Config, lib: Library, rounds: nat)
    ensures var t := Launch(c, lib, rounds).trace;
      forall i | 0 <= i < |t| && t[i].Sample? :: SampleRegistered(c.moduleName, t, i)
  {
    if ValidModule(c.moduleName) && lib.count.Some? && lib.count.value != 0 {
      var n := lib.count.value;
      var disc := Discover(c, lib, n);
      var pre := [GetDeviceCount] + disc.trace;
      DiscoverySetup(c, lib, n);
      if |disc.ports| > 0 {
        var loop := Rounds(c, lib, disc.active, disc.ports, 0, rounds);
        RoundsSamples(c, lib, disc.active, disc.ports, 0, rounds);
        DiscoverTrace(c, lib, n);
        NamedJoin(c, lib, [], disc.ports, [GetDeviceCount], disc.trace);
        assert [] + disc.ports == disc.ports;
        var t: seq<Event> := pre + loop;
        forall i | 0 <= i < |t| && t[i].Sample? ensures SampleRegistered(c.moduleName, t, i) {
          SampleInLoop(pre, loop, disc.ports, i);
          var k :| 0 <= k < |disc.ports| && t[i].domain == disc.ports[k].domain && t[i].counter == disc.ports[k].counter;
          assert PortNamed(c, lib, disc.ports[k], pre);
          SampleAfterRegistration(c, lib, disc.ports[k], pre, loop, i);
        }
      }
    } else {
      LaunchExits(c, lib, rounds);
    }
  }
}
