/** The discovery part of the sampler's `main`: walk the device indices
    below the device count, open each selected device, name its timeline
    domain, register its payload schema, and register a counter for each
    selected port whose information can be read. */
module Discovery {
  import opened Wrappers
  import opened Text
  import opened CommandLine
  import opened Facade

  /** `MonitoredPort`: a port the sampling loop reads. */
  datatype MonitoredPort = MonitoredPort(
    handle: int,
    deviceIdx: int,
    portIndex: int,
    portId: int,
    domain: nat,
    counter: nat,
    deviceName: string)

  /** What the port loop of one device adds. */
  datatype PortScan = PortScan(ports: seq<MonitoredPort>, trace: seq<Event>)

  /** What discovery adds: monitored ports, handles of opened devices
      (`activeDevices`), calls made, and the next id the timeline hands out. */
  datatype Scan = Scan(ports: seq<MonitoredPort>, active: seq<int>, trace: seq<Event>, nextId: nat)

  /** `-i` selects one device index, or every one when it is -1. */
  predicate DeviceSelected(c: Config, d: int)
  {
    c.deviceIdx == -1 || c.deviceIdx == d
  }

  /** `-p` selects port indices (not port ids), or every one when empty. */
  predicate PortSelected(c: Config, p: int)
  {
    |c.portIndices| == 0 || p in c.portIndices
  }

  /** Port index `p` of device `d` is one the sampler can monitor: both are
      selected, the device opens, `p` is below its port count, and its port
      information can be read. */
  predicate Eligible(c: Config, lib: Library, d: int, p: int)
  {
    DeviceSelected(c, d) && d in lib.switches && 0 <= p < lib.switches[d].portCount
    && PortSelected(c, p) && p in lib.switches[d].portIds
  }

  /** `m` describes port `m.portIndex` of device `d` with switch `sw` as the
      loop records it. */
  predicate PortRecord(sw: Switch, d: int, domain: nat, m: MonitoredPort)
  {
    m.handle == sw.handle && m.deviceIdx == d && m.portIndex in sw.portIds
    && m.portId == sw.portIds[m.portIndex] && m.domain == domain && m.deviceName == sw.props.name
  }

  /** The port loop from index `p`, with counter ids from `id` on. */
  function PortsFrom(c: Config, sw: Switch, d: int, domain: nat, schemaId: nat, p: int, id: nat): (r: PortScan)
    decreases sw.portCount - p
  {
    if p >= sw.portCount then PortScan([], [])
    else if !PortSelected(c, p) then PortsFrom(c, sw, d, domain, schemaId, p + 1, id)
    else if p !in sw.portIds then
      var rest := PortsFrom(c, sw, d, domain, schemaId, p + 1, id);
      PortScan(rest.ports, [GetPortInfo(sw.handle, p)] + rest.trace)
    else
      var m := MonitoredPort(sw.handle, d, p, sw.portIds[p], domain, id, sw.props.name);
      var rest := PortsFrom(c, sw, d, domain, schemaId, p + 1, id + 1);
      PortScan([m] + rest.ports,
        [GetPortInfo(sw.handle, p), RegisterCounter(domain, sw.portIds[p], c.moduleName, schemaId, id)] + rest.trace)
  }

  /** One pass of the device loop at index `d`, with ids from `id` on: the
      domain takes `id`, the schema `id + 1`, the counters what follows. */
  function DeviceScan(c: Config, lib: Library, d: int, id: nat): (r: Scan)
    ensures id <= r.nextId
  {
    if !DeviceSelected(c, d) then Scan([], [], [], id)
    else if d !in lib.switches then Scan([], [], [GetDevice(d)], id)
    else
      var sw := lib.switches[d];
      var ps := PortsFrom(c, sw, d, id, id + 1, 0, id + 2);
      Scan(ps.ports, [sw.handle],
        [GetDevice(d), GetProperties(sw.handle), CreateDomain(sw.props, d, id),
         GetPortCount(sw.handle), RegisterSchema(id, SchemaOf(c.moduleName), id + 1)]
        + ps.trace
        + (if c.moduleName == "throughput" then [InitDevice(sw.handle)] else []),
        id + 2 + |ps.ports|)
  }

  /** The device loop from index `d` up to `count`. */
  function DevicesFrom(c: Config, lib: Library, d: int, count: int, id: nat): (r: Scan)
    ensures id <= r.nextId
    decreases count - d
  {
    if d >= count then Scan([], [], [], id)
    else
      var s := DeviceScan(c, lib, d, id);
      var rest := DevicesFrom(c, lib, d + 1, count, s.nextId);
      Scan(s.ports + rest.ports, s.active + rest.active, s.trace + rest.trace, rest.nextId)
  }

  /** Discovery over every device index below the count the library reports. */
  function Discover(c: Config, lib: Library, count: int): Scan
  {
    DevicesFrom(c, lib, 0, count, 0)
  }

  /** `a` comes before `b`: by device index, then by port index. */
  predicate Before(a: MonitoredPort, b: MonitoredPort)
  {
    a.deviceIdx < b.deviceIdx || (a.deviceIdx == b.deviceIdx && a.portIndex < b.portIndex)
  }

  // ---------------------------------------------------------------------
  // The port loop

  /** Each of `ports` is a selected, readable port of `sw` at or after `p`,
      and their counters are `id`, `id + 1`, ... in order. */
  predicate RecordsFrom(c: Config, sw: Switch, d: int, domain: nat, p: int, id: nat, ports: seq<MonitoredPort>)
  {
    forall k | 0 <= k < |ports| ::
      PortRecord(sw, d, domain, ports[k]) && p <= ports[k].portIndex < sw.portCount
      && PortSelected(c, ports[k].portIndex) && ports[k].counter == id + k
  }

  /** Port indices strictly increase along `ports`. */
  predicate IndexOrdered(ports: seq<MonitoredPort>)
  {
    forall k, l | 0 <= k < l < |ports| :: ports[k].portIndex < ports[l].portIndex
  }

  /** The port loop records only selected, readable ports, and hands out
      counter ids one after another. */
  lemma {:induction false} PortsFromRecords(c: Config, sw: Switch, d: int, domain: nat, schemaId: nat, p: int, id: nat)
    ensures RecordsFrom(c, sw, d, domain, p, id, PortsFrom(c, sw, d, domain, schemaId, p, id).ports)
    decreases sw.portCount - p
  {
    var r := PortsFrom(c, sw, d, domain, schemaId, p, id);
    if p >= sw.portCount {
    } else if !PortSelected(c, p) || p !in sw.portIds {
      var rest := PortsFrom(c, sw, d, domain, schemaId, p + 1, id);
      assert r.ports == rest.ports;
      PortsFromRecords(c, sw, d, domain, schemaId, p + 1, id);
    } else {
      var rest := PortsFrom(c, sw, d, domain, schemaId, p + 1, id + 1);
      PortsFromRecords(c, sw, d, domain, schemaId, p + 1, id + 1);
      var m := MonitoredPort(sw.handle, d, p, sw.portIds[p], domain, id, sw.props.name);
      assert r.ports == [m] + rest.ports;
      forall k | 0 <= k < |r.ports|
        ensures PortRecord(sw, d, domain, r.ports[k]) && p <= r.ports[k].portIndex < sw.portCount
        ensures PortSelected(c, r.ports[k].portIndex) && r.ports[k].counter == id + k
      {
        if k > 0 {
          assert r.ports[k] == rest.ports[k - 1];
        }
      }
    }
  }

  /** The port loop records ports in increasing index order. */
  lemma {:induction false} PortsFromOrdered(c: Config, sw: Switch, d: int, domain: nat, schemaId: nat, p: int, id: nat)
    ensures IndexOrdered(PortsFrom(c, sw, d, domain, schemaId, p, id).ports)
    decreases sw.portCount - p
  {
    var r := PortsFrom(c, sw, d, domain, schemaId, p, id);
    if p >= sw.portCount {
    } else if !PortSelected(c, p) || p !in sw.portIds {
      var rest := PortsFrom(c, sw, d, domain, schemaId, p + 1, id);
      assert r.ports == rest.ports;
      PortsFromOrdered(c, sw, d, domain, schemaId, p + 1, id);
    } else {
      var rest := PortsFrom(c, sw, d, domain, schemaId, p + 1, id + 1);
      PortsFromOrdered(c, sw, d, domain, schemaId, p + 1, id + 1);
      PortsFromRecords(c, sw, d, domain, schemaId, p + 1, id + 1);
      var m := MonitoredPort(sw.handle, d, p, sw.portIds[p], domain, id, sw.props.name);
      assert r.ports == [m] + rest.ports;
      forall k, l | 0 <= k < l < |r.ports| ensures r.ports[k].portIndex < r.ports[l].portIndex {
        assert r.ports[l] == rest.ports[l - 1];
        if k > 0 {
          assert r.ports[k] == rest.ports[k - 1];
        }
      }
    }
  }

  /** Every selected port from `p` on whose information can be read is recorded. */
  lemma {:induction false} PortsFromComplete(c: Config, sw: Switch, d: int, domain: nat, schemaId: nat, p: int, id: nat, q: int)
    requires p <= q < sw.portCount && PortSelected(c, q) && q in sw.portIds
    ensures exists k | 0 <= k < |PortsFrom(c, sw, d, domain, schemaId, p, id).ports| ::
      PortsFrom(c, sw, d, domain, schemaId, p, id).ports[k].portIndex == q
    decreases sw.portCount - p
  {
    var r := PortsFrom(c, sw, d, domain, schemaId, p, id);
    if q == p {
      assert r.ports[0].portIndex == q;
    } else if !PortSelected(c, p) || p !in sw.portIds {
      var rest := PortsFrom(c, sw, d, domain, schemaId, p + 1, id);
      assert r.ports == rest.ports;
      PortsFromComplete(c, sw, d, domain, schemaId, p + 1, id, q);
      var k :| 0 <= k < |rest.ports| && rest.ports[k].portIndex == q;
      assert r.ports[k].portIndex == q;
    } else {
      var rest := PortsFrom(c, sw, d, domain, schemaId, p + 1, id + 1);
      PortsFromComplete(c, sw, d, domain, schemaId, p + 1, id + 1, q);
      var m := MonitoredPort(sw.handle, d, p, sw.portIds[p], domain, id, sw.props.name);
      assert r.ports == [m] + rest.ports;
      var k :| 0 <= k < |rest.ports| && rest.ports[k].portIndex == q;
      assert r.ports[k + 1] == rest.ports[k];
    }
  }

  /** Each of `ports` has its counter registered in `trace` under its name
      and schema `schemaId`. */
  predicate Registered(c: Config, domain: nat, schemaId: nat, ports: seq<MonitoredPort>, trace: seq<Event>)
  {
    forall k | 0 <= k < |ports| ::
      RegisterCounter(domain, ports[k].portId, c.moduleName, schemaId, ports[k].counter) in trace
  }

  /** The port loop only asks for port information and registers counters. */
  predicate PortCalls(trace: seq<Event>)
  {
    forall i | 0 <= i < |trace| :: trace[i].GetPortInfo? || trace[i].RegisterCounter?
  }

  /** The port loop registers each recorded port's counter under the port's
      name and the device's schema, and makes no other calls than that and
      asking for port information. */
  lemma {:induction false} PortsFromTrace(c: Config, sw: Switch, d: int, domain: nat, schemaId: nat, p: int, id: nat)
    ensures Registered(c, domain, schemaId, PortsFrom(c, sw, d, domain, schemaId, p, id).ports, PortsFrom(c, sw, d, domain, schemaId, p, id).trace)
    ensures PortCalls(PortsFrom(c, sw, d, domain, schemaId, p, id).trace)
    decreases sw.portCount - p
  {
    var r := PortsFrom(c, sw, d, domain, schemaId, p, id);
    if p >= sw.portCount {
    } else if !PortSelected(c, p) {
      assert r == PortsFrom(c, sw, d, domain, schemaId, p + 1, id);
      PortsFromTrace(c, sw, d, domain, schemaId, p + 1, id);
    } else if p !in sw.portIds {
      var rest := PortsFrom(c, sw, d, domain, schemaId, p + 1, id);
      PortsFromTrace(c, sw, d, domain, schemaId, p + 1, id);
      assert r.ports == rest.ports;
      assert r.trace == [GetPortInfo(sw.handle, p)] + rest.trace;
      forall i | 1 <= i < |r.trace| ensures r.trace[i].GetPortInfo? || r.trace[i].RegisterCounter? {
        assert r.trace[i] == rest.trace[i - 1];
      }
      forall k | 0 <= k < |r.ports|
        ensures RegisterCounter(domain, r.ports[k].portId, c.moduleName, schemaId, r.ports[k].counter) in r.trace
      {
        var e := RegisterCounter(domain, rest.ports[k].portId, c.moduleName, schemaId, rest.ports[k].counter);
        assert e in rest.trace;
      }
    } else {
      var rest := PortsFrom(c, sw, d, domain, schemaId, p + 1, id + 1);
      PortsFromTrace(c, sw, d, domain, schemaId, p + 1, id + 1);
      var m := MonitoredPort(sw.handle, d, p, sw.portIds[p], domain, id, sw.props.name);
      var head := [GetPortInfo(sw.handle, p), RegisterCounter(domain, sw.portIds[p], c.moduleName, schemaId, id)];
      assert r.ports == [m] + rest.ports;
      assert r.trace == head + rest.trace;
      forall i | 0 <= i < |r.trace| ensures r.trace[i].GetPortInfo? || r.trace[i].RegisterCounter? {
        if i >= 2 {
          assert r.trace[i] == rest.trace[i - 2];
        }
      }
      forall k | 0 <= k < |r.ports|
        ensures RegisterCounter(domain, r.ports[k].portId, c.moduleName, schemaId, r.ports[k].counter) in r.trace
      {
        if k > 0 {
          assert r.ports[k] == rest.ports[k - 1];
          var e := RegisterCounter(domain, rest.ports[k - 1].portId, c.moduleName, schemaId, rest.ports[k - 1].counter);
          assert e in rest.trace;
        } else {
          assert r.trace[1] == head[1];
        }
      }
    }
  }

  // ---------------------------------------------------------------------
  // One device

  /** Device `d` is one `h3ppciGetDevice` opens after the filter let it through. */
  predicate Opened(c: Config, lib: Library, d: int)
  {
    DeviceSelected(c, d) && d in lib.switches
  }

  /** Each of `ports` is an eligible port of a device in `[lo, hi)`, recorded
      with that device's handle, port id and name. */
  predicate Recorded(c: Config, lib: Library, lo: int, hi: int, ports: seq<MonitoredPort>)
  {
    forall k | 0 <= k < |ports| ::
      lo <= ports[k].deviceIdx < hi && Eligible(c, lib, ports[k].deviceIdx, ports[k].portIndex)
      && PortRecord(lib.switches[ports[k].deviceIdx], ports[k].deviceIdx, ports[k].domain, ports[k])
  }

  /** Every counter of `ports` is in `[lo, hi)`. */
  predicate CountersWithin(ports: seq<MonitoredPort>, lo: nat, hi: nat)
  {
    forall k | 0 <= k < |ports| :: lo <= ports[k].counter < hi
  }

  /** `ports` is in strictly increasing (device, port) order, and so are its counters. */
  predicate Ordered(ports: seq<MonitoredPort>)
  {
    forall k, l | 0 <= k < l < |ports| :: Before(ports[k], ports[l]) && ports[k].counter < ports[l].counter
  }

  /** The ports one pass of the device loop records are eligible ports of
      device `d` under its domain, with counters after the device's domain
      and schema ids. */
  lemma DeviceScanRecords(c: Config, lib: Library, d: int, id: nat)
    ensures var r := DeviceScan(c, lib, d, id);
      Recorded(c, lib, d, d + 1, r.ports) && CountersWithin(r.ports, id, r.nextId)
    ensures var r := DeviceScan(c, lib, d, id);
      forall k | 0 <= k < |r.ports| :: r.ports[k].domain == id
  {
    if Opened(c, lib, d) {
      var sw := lib.switches[d];
      var ps := PortsFrom(c, sw, d, id, id + 1, 0, id + 2);
      assert DeviceScan(c, lib, d, id).ports == ps.ports;
      assert DeviceScan(c, lib, d, id).nextId == id + 2 + |ps.ports|;
      PortsFromRecords(c, sw, d, id, id + 1, 0, id + 2);
    }
  }

  /** ... in index order, with increasing counters. */
  lemma DeviceScanOrdered(c: Config, lib: Library, d: int, id: nat)
    ensures Ordered(DeviceScan(c, lib, d, id).ports)
  {
    if Opened(c, lib, d) {
      var sw := lib.switches[d];
      var ps := PortsFrom(c, sw, d, id, id + 1, 0, id + 2);
      assert DeviceScan(c, lib, d, id).ports == ps.ports;
      PortsFromRecords(c, sw, d, id, id + 1, 0, id + 2);
      PortsFromOrdered(c, sw, d, id, id + 1, 0, id + 2);
    }
  }

  /** ... and every eligible port of device `d` is among them. */
  lemma DeviceScanComplete(c: Config, lib: Library, d: int, id: nat, q: int)
    requires Eligible(c, lib, d, q)
    ensures exists k | 0 <= k < |DeviceScan(c, lib, d, id).ports| :: DeviceScan(c, lib, d, id).ports[k].portIndex == q
  {
    var sw := lib.switches[d];
    var ps := PortsFrom(c, sw, d, id, id + 1, 0, id + 2);
    assert DeviceScan(c, lib, d, id).ports == ps.ports;
    PortsFromComplete(c, sw, d, id, id + 1, 0, id + 2, q);
  }

  /** A device joins `activeDevices` as soon as it opens, whatever becomes of
      its ports; a device that is filtered out or fails to open adds nothing
      but, in the second case, the failed `h3ppciGetDevice`. */
  lemma DeviceScanActive(c: Config, lib: Library, d: int, id: nat)
    ensures var r := DeviceScan(c, lib, d, id);
      Opened(c, lib, d) ==> r.active == [lib.switches[d].handle]
    ensures var r := DeviceScan(c, lib, d, id);
      !Opened(c, lib, d) ==> r.active == [] && r.ports == [] && r.nextId == id && r.trace == (if DeviceSelected(c, d) then [GetDevice(d)] else [])
  {
  }

  /** The calls that open device `d` and register its domain and schema. */
  function DeviceHead(c: Config, sw: Switch, d: int, id: nat): seq<Event>
  {
    [GetDevice(d), GetProperties(sw.handle), CreateDomain(sw.props, d, id),
     GetPortCount(sw.handle), RegisterSchema(id, SchemaOf(c.moduleName), id + 1)]
  }

  /** The call that ends the pass of an opened device. */
  function DeviceTail(c: Config, sw: Switch): seq<Event>
  {
    if c.moduleName == "throughput" then [InitDevice(sw.handle)] else []
  }

  lemma DeviceScanSplit(c: Config, lib: Library, d: int, id: nat)
    requires Opened(c, lib, d)
    ensures var sw := lib.switches[d];
      var ps := PortsFrom(c, sw, d, id, id + 1, 0, id + 2);
      DeviceScan(c, lib, d, id).trace == DeviceHead(c, sw, d, id) + ps.trace + DeviceTail(c, sw)
      && DeviceScan(c, lib, d, id).ports == ps.ports
  {
  }

  /** An opened device's domain is named after it, and its ports' counters
      are registered under that domain and the module's schema. */
  lemma DeviceScanDomain(c: Config, lib: Library, d: int, id: nat)
    ensures var r := DeviceScan(c, lib, d, id);
      Opened(c, lib, d) ==>
        CreateDomain(lib.switches[d].props, d, id) in r.trace
        && RegisterSchema(id, SchemaOf(c.moduleName), id + 1) in r.trace
    ensures var r := DeviceScan(c, lib, d, id);
      Registered(c, id, id + 1, r.ports, r.trace)
  {
    var r := DeviceScan(c, lib, d, id);
    if Opened(c, lib, d) {
      var sw := lib.switches[d];
      var ps := PortsFrom(c, sw, d, id, id + 1, 0, id + 2);
      var head := DeviceHead(c, sw, d, id);
      DeviceScanSplit(c, lib, d, id);
      PortsFromTrace(c, sw, d, id, id + 1, 0, id + 2);
      forall k | 0 <= k < |r.ports|
        ensures RegisterCounter(id, r.ports[k].portId, c.moduleName, id + 1, r.ports[k].counter) in r.trace
      {
        var e := RegisterCounter(id, ps.ports[k].portId, c.moduleName, id + 1, ps.ports[k].counter);
        assert e in ps.trace;
      }
      assert r.trace[2] == head[2] && r.trace[4] == head[4];
    }
  }

  /** Every call a device's pass makes is a discovery call, it asks for no
      device but its own, and every schema it registers is the module's. */
  lemma DeviceScanCalls(c: Config, lib: Library, d: int, id: nat)
    ensures var r := DeviceScan(c, lib, d, id);
      forall i | 0 <= i < |r.trace| :: r.trace[i].RegisterSchema? ==> r.trace[i] == RegisterSchema(id, SchemaOf(c.moduleName), id + 1)
    ensures var r := DeviceScan(c, lib, d, id);
      forall i | 0 <= i < |r.trace| :: r.trace[i].GetDevice? ==> r.trace[i].index == d && DeviceSelected(c, d)
    ensures var r := DeviceScan(c, lib, d, id);
      forall i | 0 <= i < |r.trace| :: DiscoveryCall(r.trace[i])
  {
    var r := DeviceScan(c, lib, d, id);
    if Opened(c, lib, d) {
      var sw := lib.switches[d];
      var ps := PortsFrom(c, sw, d, id, id + 1, 0, id + 2);
      var head, tail := DeviceHead(c, sw, d, id), DeviceTail(c, sw);
      DeviceScanSplit(c, lib, d, id);
      PortsFromTrace(c, sw, d, id, id + 1, 0, id + 2);
      forall i | 0 <= i < |r.trace|
        ensures DiscoveryCall(r.trace[i])
        ensures r.trace[i].GetDevice? ==> r.trace[i].index == d
        ensures r.trace[i].RegisterSchema? ==> r.trace[i] == RegisterSchema(id, SchemaOf(c.moduleName), id + 1)
      {
        if i < 5 {
          assert r.trace[i] == head[i];
        } else if i < 5 + |ps.trace| {
          assert r.trace[i] == ps.trace[i - 5];
        } else {
          assert r.trace[i] == tail[i - 5 - |ps.trace|];
        }
      }
    } else {
      DeviceScanActive(c, lib, d, id);
    }
  }

  /** In throughput mode an opened device gets one `h3ppciInitDevice`, as the
      last call of its pass, after its port loop; in error mode none. No pass
      starts or stops the performance counters. */
  lemma DeviceScanControl(c: Config, lib: Library, d: int, id: nat)
    ensures var r := DeviceScan(c, lib, d, id);
      Controlled(r.trace, Init) == (if c.moduleName == "throughput" then r.active else [])
      && Controlled(r.trace, Start) == [] && Controlled(r.trace, Stop) == []
    ensures var r := DeviceScan(c, lib, d, id);
      Opened(c, lib, d) && c.moduleName == "throughput" ==> r.trace[|r.trace| - 1] == InitDevice(lib.switches[d].handle)
  {
    var r := DeviceScan(c, lib, d, id);
    DeviceScanActive(c, lib, d, id);
    if !Opened(c, lib, d) {
      forall k: Control ensures Controlled(r.trace, k) == [] {
        ControlledEmpty(r.trace, k);
      }
    } else {
      var sw := lib.switches[d];
      var ps := PortsFrom(c, sw, d, id, id + 1, 0, id + 2);
      var head, tail := DeviceHead(c, sw, d, id), DeviceTail(c, sw);
      DeviceScanSplit(c, lib, d, id);
      PortsFromTrace(c, sw, d, id, id + 1, 0, id + 2);
      forall k: Control ensures Controlled(r.trace, k) == Controlled(tail, k) {
        ControlledEmpty(ps.trace, k);
        ControlledEmpty(head, k);
        ControlledAppend(head, ps.trace, k);
        ControlledAppend(head + ps.trace, tail, k);
      }
      forall k: Control ensures Controlled(tail, k) == (if k == Init && c.moduleName == "throughput" then [sw.handle] else []) {
        if c.moduleName == "throughput" {
          assert tail[1..] == [];
        }
      }
    }
  }

  // ---------------------------------------------------------------------
  // The device loop

  /** Joining the ports of device `d` with those of later devices keeps the
      order and the counter ranges. */
  lemma PortsJoin(c: Config, lib: Library, a: seq<MonitoredPort>, b: seq<MonitoredPort>, d: int, count: int, lo: nat, mid: nat, hi: nat)
    requires d < count && lo <= mid <= hi
    requires Recorded(c, lib, d, d + 1, a) && CountersWithin(a, lo, mid) && Ordered(a)
    requires Recorded(c, lib, d + 1, count, b) && CountersWithin(b, mid, hi) && Ordered(b)
    ensures Recorded(c, lib, d, count, a + b) && CountersWithin(a + b, lo, hi) && Ordered(a + b)
  {
    var r := a + b;
    var n := |a|;
    forall k | 0 <= k < |r|
      ensures d <= r[k].deviceIdx < count && Eligible(c, lib, r[k].deviceIdx, r[k].portIndex)
      ensures PortRecord(lib.switches[r[k].deviceIdx], r[k].deviceIdx, r[k].domain, r[k])
      ensures lo <= r[k].counter < hi
    {
      if k < n {
        assert r[k] == a[k];
      } else {
        assert r[k] == b[k - n];
      }
    }
    forall k, l | 0 <= k < l < |r|
      ensures Before(r[k], r[l]) && r[k].counter < r[l].counter
    {
      if l < n {
        assert r[k] == a[k] && r[l] == a[l];
      } else if k >= n {
        assert r[k] == b[k - n] && r[l] == b[l - n];
      } else {
        assert r[k] == a[k] && r[l] == b[l - n];
      }
    }
  }

  /** The device loop records eligible ports only, in (device, port) order,
      with a counter of its own for each. */
  lemma {:induction false} DevicesFromPorts(c: Config, lib: Library, d: int, count: int, id: nat)
    ensures var r := DevicesFrom(c, lib, d, count, id);
      Recorded(c, lib, d, count, r.ports) && CountersWithin(r.ports, id, r.nextId) && Ordered(r.ports)
    decreases count - d
  {
    var r := DevicesFrom(c, lib, d, count, id);
    if d < count {
      var s := DeviceScan(c, lib, d, id);
      var rest := DevicesFrom(c, lib, d + 1, count, s.nextId);
      assert r.ports == s.ports + rest.ports && r.nextId == rest.nextId;
      DeviceScanRecords(c, lib, d, id);
      DeviceScanOrdered(c, lib, d, id);
      DevicesFromPorts(c, lib, d + 1, count, s.nextId);
      PortsJoin(c, lib, s.ports, rest.ports, d, count, id, s.nextId, rest.nextId);
    }
  }

  /** Every eligible port of a device index in `[d, count)` is recorded. */
  lemma {:induction false} DevicesFromComplete(c: Config, lib: Library, d: int, count: int, id: nat, e: int, q: int)
    requires d <= e < count && Eligible(c, lib, e, q)
    ensures exists k | 0 <= k < |DevicesFrom(c, lib, d, count, id).ports| ::
      DevicesFrom(c, lib, d, count, id).ports[k].deviceIdx == e && DevicesFrom(c, lib, d, count, id).ports[k].portIndex == q
    decreases count - d
  {
    var r := DevicesFrom(c, lib, d, count, id);
    var s := DeviceScan(c, lib, d, id);
    var rest := DevicesFrom(c, lib, d + 1, count, s.nextId);
    assert r.ports == s.ports + rest.ports;
    if e == d {
      DeviceScanComplete(c, lib, d, id, q);
      DeviceScanRecords(c, lib, d, id);
      var k :| 0 <= k < |s.ports| && s.ports[k].portIndex == q;
      assert r.ports[k] == s.ports[k];
    } else {
      DevicesFromComplete(c, lib, d + 1, count, s.nextId, e, q);
      var k :| 0 <= k < |rest.ports| && rest.ports[k].deviceIdx == e && rest.ports[k].portIndex == q;
      assert r.ports[|s.ports| + k] == rest.ports[k];
    }
  }

  /** `active` holds the handle of every device in `[lo, hi)` that opens. */
  predicate HoldsOpened(c: Config, lib: Library, lo: int, hi: int, active: seq<int>)
  {
    forall e | lo <= e < hi && Opened(c, lib, e) :: lib.switches[e].handle in active
  }

  /** Every handle in `active` is that of a device in `[lo, hi)` that opens. */
  predicate OnlyOpened(c: Config, lib: Library, lo: int, hi: int, active: seq<int>)
  {
    forall i | 0 <= i < |active| :: OpenedHandle(c, lib, lo, hi, active[i])
  }

  /** `h` is the handle of a device in `[lo, hi)` that opens. */
  predicate OpenedHandle(c: Config, lib: Library, lo: int, hi: int, h: int)
  {
    exists e | lo <= e < hi && Opened(c, lib, e) :: lib.switches[e].handle == h
  }

  lemma ActiveJoin(c: Config, lib: Library, a: seq<int>, b: seq<int>, d: int, count: int)
    requires d < count
    requires Opened(c, lib, d) ==> a == [lib.switches[d].handle]
    requires !Opened(c, lib, d) ==> a == []
    requires HoldsOpened(c, lib, d + 1, count, b) && OnlyOpened(c, lib, d + 1, count, b)
    ensures HoldsOpened(c, lib, d, count, a + b) && OnlyOpened(c, lib, d, count, a + b)
  {
    var r := a + b;
    forall e | d <= e < count && Opened(c, lib, e) ensures lib.switches[e].handle in r {
      if e == d {
        assert r[0] == lib.switches[d].handle;
      } else {
        assert lib.switches[e].handle in b;
      }
    }
    forall i | 0 <= i < |r| ensures OpenedHandle(c, lib, d, count, r[i]) {
      if i < |a| {
        assert d <= d < count && Opened(c, lib, d) && lib.switches[d].handle == r[i];
      } else {
        assert r[i] == b[i - |a|];
        assert OpenedHandle(c, lib, d + 1, count, b[i - |a|]);
        var e :| d + 1 <= e < count && Opened(c, lib, e) && lib.switches[e].handle == b[i - |a|];
        assert d <= e < count && Opened(c, lib, e) && lib.switches[e].handle == r[i];
      }
    }
  }

  /** `activeDevices` holds the handle of every device in `[d, count)` that
      opens, whether or not any of its ports is monitored, and nothing else. */
  lemma {:induction false} DevicesFromActive(c: Config, lib: Library, d: int, count: int, id: nat)
    ensures HoldsOpened(c, lib, d, count, DevicesFrom(c, lib, d, count, id).active)
    ensures OnlyOpened(c, lib, d, count, DevicesFrom(c, lib, d, count, id).active)
    decreases count - d
  {
    var r := DevicesFrom(c, lib, d, count, id);
    if d < count {
      var s := DeviceScan(c, lib, d, id);
      var rest := DevicesFrom(c, lib, d + 1, count, s.nextId);
      assert r.active == s.active + rest.active;
      DeviceScanActive(c, lib, d, id);
      DevicesFromActive(c, lib, d + 1, count, s.nextId);
      ActiveJoin(c, lib, s.active, rest.active, d, count);
    }
  }

  /** A call discovery makes: it neither sleeps, nor starts or stops the
      performance counters, nor reads or publishes samples. */
  predicate DiscoveryCall(e: Event)
  {
    e.GetDevice? || e.GetProperties? || e.CreateDomain? || e.GetPortCount? || e.RegisterSchema?
    || e.GetPortInfo? || e.RegisterCounter? || e.InitDevice?
  }

  /** Every call of `trace` is a discovery call, every schema registered is
      the module's, in the domain registered just before it, and every
      `h3ppciGetDevice` is for a selected index in `[lo, hi)`. */
  predicate Registrations(c: Config, lo: int, hi: int, trace: seq<Event>)
  {
    forall i | 0 <= i < |trace| ::
      DiscoveryCall(trace[i])
      && (trace[i].RegisterSchema? ==> trace[i].schema == SchemaOf(c.moduleName) && trace[i].schemaId == trace[i].domain + 1)
      && (trace[i].GetDevice? ==> lo <= trace[i].index < hi && DeviceSelected(c, trace[i].index))
  }

  lemma RegistrationsJoin(c: Config, at: seq<Event>, bt: seq<Event>, d: int, count: int)
    requires d < count && Registrations(c, d, d + 1, at) && Registrations(c, d + 1, count, bt)
    ensures Registrations(c, d, count, at + bt)
  {
    var t := at + bt;
    forall i | 0 <= i < |t|
      ensures DiscoveryCall(t[i])
      ensures t[i].RegisterSchema? ==> t[i].schema == SchemaOf(c.moduleName) && t[i].schemaId == t[i].domain + 1
      ensures t[i].GetDevice? ==> d <= t[i].index < count && DeviceSelected(c, t[i].index)
    {
      if i < |at| {
        assert t[i] == at[i];
      } else {
        assert t[i] == bt[i - |at|];
      }
    }
  }

  /** The device loop registers only the module's schema, and asks only for
      selected devices. */
  lemma {:induction false} DevicesFromRegistrations(c: Config, lib: Library, d: int, count: int, id: nat)
    ensures Registrations(c, d, count, DevicesFrom(c, lib, d, count, id).trace)
    decreases count - d
  {
    var r := DevicesFrom(c, lib, d, count, id);
    if d < count {
      var s := DeviceScan(c, lib, d, id);
      var rest := DevicesFrom(c, lib, d + 1, count, s.nextId);
      assert r.trace == s.trace + rest.trace;
      DeviceScanCalls(c, lib, d, id);
      DevicesFromRegistrations(c, lib, d + 1, count, s.nextId);
      RegistrationsJoin(c, s.trace, rest.trace, d, count);
    }
  }

  lemma InAppend<T>(x: T, a: seq<T>, b: seq<T>)
    ensures x in a + b <==> x in a || x in b
  {
    if x in a {
      var i :| 0 <= i < |a| && a[i] == x;
      assert (a + b)[i] == x;
    }
    if x in b {
      var i :| 0 <= i < |b| && b[i] == x;
      assert (a + b)[|a| + i] == x;
    }
  }

  /** Port `m` has its device's domain created in `trace`, named after the
      device, and its counter registered in that domain under its own name,
      with the schema registered next to the domain. */
  predicate PortNamed(c: Config, lib: Library, m: MonitoredPort, trace: seq<Event>)
  {
    m.deviceIdx in lib.switches
    && CreateDomain(lib.switches[m.deviceIdx].props, m.deviceIdx, m.domain) in trace
    && RegisterSchema(m.domain, SchemaOf(c.moduleName), m.domain + 1) in trace
    && RegisterCounter(m.domain, m.portId, c.moduleName, m.domain + 1, m.counter) in trace
  }

  predicate Named(c: Config, lib: Library, ports: seq<MonitoredPort>, trace: seq<Event>)
  {
    forall k | 0 <= k < |ports| :: PortNamed(c, lib, ports[k], trace)
  }

  lemma NamedJoin(c: Config, lib: Library, pa: seq<MonitoredPort>, pb: seq<MonitoredPort>, ta: seq<Event>, tb: seq<Event>)
    requires Named(c, lib, pa, ta) && Named(c, lib, pb, tb)
    ensures Named(c, lib, pa + pb, ta + tb)
  {
    var ps, t := pa + pb, ta + tb;
    forall k | 0 <= k < |ps| ensures PortNamed(c, lib, ps[k], t) {
      var m := ps[k];
      var e1 := CreateDomain(lib.switches[m.deviceIdx].props, m.deviceIdx, m.domain);
      var e2 := RegisterCounter(m.domain, m.portId, c.moduleName, m.domain + 1, m.counter);
      var e3 := RegisterSchema(m.domain, SchemaOf(c.moduleName), m.domain + 1);
      if k < |pa| {
        assert m == pa[k] && PortNamed(c, lib, pa[k], ta);
      } else {
        assert m == pb[k - |pa|] && PortNamed(c, lib, pb[k - |pa|], tb);
      }
      InAppend(e1, ta, tb);
      InAppend(e2, ta, tb);
      InAppend(e3, ta, tb);
    }
  }

  lemma DeviceScanNamed(c: Config, lib: Library, d: int, id: nat)
    ensures Named(c, lib, DeviceScan(c, lib, d, id).ports, DeviceScan(c, lib, d, id).trace)
  {
    var r := DeviceScan(c, lib, d, id);
    if |r.ports| > 0 {
      assert Opened(c, lib, d);
      DeviceScanRecords(c, lib, d, id);
      DeviceScanDomain(c, lib, d, id);
      forall k | 0 <= k < |r.ports| ensures PortNamed(c, lib, r.ports[k], r.trace) {
        assert r.ports[k].deviceIdx == d && r.ports[k].domain == id;
      }
    }
  }

  /** Every monitored port has its device's domain created under the
      device's name, and its counter registered in that domain, with the
      schema registered next to it, under the port's own name. */
  lemma {:induction false} DevicesFromNamed(c: Config, lib: Library, d: int, count: int, id: nat)
    ensures Named(c, lib, DevicesFrom(c, lib, d, count, id).ports, DevicesFrom(c, lib, d, count, id).trace)
    decreases count - d
  {
    var r := DevicesFrom(c, lib, d, count, id);
    if d < count {
      var s := DeviceScan(c, lib, d, id);
      var rest := DevicesFrom(c, lib, d + 1, count, s.nextId);
      assert r.ports == s.ports + rest.ports && r.trace == s.trace + rest.trace;
      DeviceScanNamed(c, lib, d, id);
      DevicesFromNamed(c, lib, d + 1, count, s.nextId);
      NamedJoin(c, lib, s.ports, rest.ports, s.trace, rest.trace);
    }
  }

  /** Discovery calls `h3ppciInitDevice` once for each opened device, in the
      order they opened, in throughput mode and never in error mode, and
      never starts or stops the performance counters. */
  lemma {:induction false} DevicesFromControl(c: Config, lib: Library, d: int, count: int, id: nat)
    ensures var r := DevicesFrom(c, lib, d, count, id);
      Controlled(r.trace, Init) == (if c.moduleName == "throughput" then r.active else [])
      && Controlled(r.trace, Start) == [] && Controlled(r.trace, Stop) == []
    decreases count - d
  {
    var r := DevicesFrom(c, lib, d, count, id);
    if d < count {
      var s := DeviceScan(c, lib, d, id);
      var rest := DevicesFrom(c, lib, d + 1, count, s.nextId);
      assert r.active == s.active + rest.active && r.trace == s.trace + rest.trace;
      DeviceScanControl(c, lib, d, id);
      DevicesFromControl(c, lib, d + 1, count, s.nextId);
      forall k: Control ensures Controlled(r.trace, k) == Controlled(s.trace, k) + Controlled(rest.trace, k) {
        ControlledAppend(s.trace, rest.trace, k);
      }
    }
  }

  // ---------------------------------------------------------------------
  // Discovery as a whole

  /** Port `p` of device `d` is monitored exactly when `d` is below the
      device count and the port is eligible; every monitored port carries
      its device's handle, port id and name. */
  lemma DiscoverMonitors(c: Config, lib: Library, count: int, d: int, p: int)
    ensures (exists k | 0 <= k < |Discover(c, lib, count).ports| ::
              Discover(c, lib, count).ports[k].deviceIdx == d && Discover(c, lib, count).ports[k].portIndex == p)
            <==> 0 <= d < count && Eligible(c, lib, d, p)
  {
    var r := Discover(c, lib, count);
    DevicesFromPorts(c, lib, 0, count, 0);
    if 0 <= d < count && Eligible(c, lib, d, p) {
      DevicesFromComplete(c, lib, 0, count, 0, d, p);
    }
    if exists k | 0 <= k < |r.ports| :: r.ports[k].deviceIdx == d && r.ports[k].portIndex == p {
      var k :| 0 <= k < |r.ports| && r.ports[k].deviceIdx == d && r.ports[k].portIndex == p;
      assert 0 <= r.ports[k].deviceIdx < count && Eligible(c, lib, r.ports[k].deviceIdx, r.ports[k].portIndex);
    }
  }

  /** The monitored ports come in (device, port) order, so no port is
      monitored twice, and each has a counter of its own. */
  lemma DiscoverDistinct(c: Config, lib: Library, count: int)
    ensures var ps := Discover(c, lib, count).ports;
      forall k, l | 0 <= k < l < |ps| ::
        Before(ps[k], ps[l]) && (ps[k].deviceIdx, ps[k].portIndex) != (ps[l].deviceIdx, ps[l].portIndex)
        && ps[k].counter != ps[l].counter
    ensures Recorded(c, lib, 0, count, Discover(c, lib, count).ports)
  {
    DevicesFromPorts(c, lib, 0, count, 0);
  }

  /** `activeDevices` holds the handles of exactly the devices that open. */
  lemma DiscoverActive(c: Config, lib: Library, count: int, h: int)
    ensures h in Discover(c, lib, count).active <==>
      exists d | 0 <= d < count && Opened(c, lib, d) :: lib.switches[d].handle == h
  {
    var r := Discover(c, lib, count);
    DevicesFromActive(c, lib, 0, count, 0);
    if h in r.active {
      var i :| 0 <= i < |r.active| && r.active[i] == h;
      assert OpenedHandle(c, lib, 0, count, r.active[i]);
    }
  }

  /** Discovery names every monitored port's domain and counter, registers
      only the module's schema and opens only selected indices below the
      count; in throughput mode it initialises each opened device once, and
      it never starts or stops the performance counters. */
  lemma DiscoverTrace(c: Config, lib: Library, count: int)
    ensures var r := Discover(c, lib, count);
      Named(c, lib, r.ports, r.trace) && Registrations(c, 0, count, r.trace)
    ensures var r := Discover(c, lib, count);
      Controlled(r.trace, Init) == (if c.moduleName == "throughput" then r.active else [])
      && Controlled(r.trace, Start) == [] && Controlled(r.trace, Stop) == []
  {
    DevicesFromNamed(c, lib, 0, count, 0);
    DevicesFromRegistrations(c, lib, 0, count, 0);
    DevicesFromControl(c, lib, 0, count, 0);
  }

  /** With no `-i` and no `-p`, every readable port below its device's port
      count of every device that opens is eligible. */
  lemma DefaultSelectsAll(lib: Library, d: int, p: int)
    ensures Eligible(Default, lib, d, p) <==>
      d in lib.switches && 0 <= p < lib.switches[d].portCount && p in lib.switches[d].portIds
  {
  }

  /** Two configurations that select the same devices, the same ports and
      the same module. */
  ghost predicate SameSelection(c1: Config, c2: Config)
  {
    c1.deviceIdx == c2.deviceIdx && c1.moduleName == c2.moduleName
    && forall p :: PortSelected(c1, p) <==> PortSelected(c2, p)
  }

  lemma {:induction false} PortsFromSame(c1: Config, c2: Config, sw: Switch, d: int, domain: nat, schemaId: nat, p: int, id: nat)
    requires SameSelection(c1, c2)
    ensures PortsFrom(c1, sw, d, domain, schemaId, p, id) == PortsFrom(c2, sw, d, domain, schemaId, p, id)
    decreases sw.portCount - p
  {
    if p < sw.portCount {
      assert PortSelected(c1, p) == PortSelected(c2, p);
      PortsFromSame(c1, c2, sw, d, domain, schemaId, p + 1, id);
      PortsFromSame(c1, c2, sw, d, domain, schemaId, p + 1, id + 1);
    }
  }

  lemma {:induction false} DevicesFromSame(c1: Config, c2: Config, lib: Library, d: int, count: int, id: nat)
    requires SameSelection(c1, c2)
    ensures DevicesFrom(c1, lib, d, count, id) == DevicesFrom(c2, lib, d, count, id)
    decreases count - d
  {
    if d < count {
      if d in lib.switches {
        var sw := lib.switches[d];
        PortsFromSame(c1, c2, sw, d, id, id + 1, 0, id + 2);
      }
      assert DeviceScan(c1, lib, d, id) == DeviceScan(c2, lib, d, id);
      DevicesFromSame(c1, c2, lib, d + 1, count, DeviceScan(c1, lib, d, id).nextId);
    }
  }

  /** Only the set of port indices given with `-p` matters: repeating or
      reordering them, or changing the interval, changes nothing in
      discovery. */
  lemma DiscoverSameSelection(c1: Config, c2: Config, lib: Library, count: int)
    requires c1.deviceIdx == c2.deviceIdx && c1.moduleName == c2.moduleName
    requires forall p :: p in c1.portIndices <==> p in c2.portIndices
    ensures Discover(c1, lib, count) == Discover(c2, lib, count)
  {
    assert |c1.portIndices| == 0 <==> |c2.portIndices| == 0 by {
      if |c1.portIndices| > 0 {
        var x := c1.portIndices[0];
        assert x in c1.portIndices;
      }
      if |c2.portIndices| > 0 {
        var x := c2.portIndices[0];
        assert x in c2.portIndices;
      }
    }
    DevicesFromSame(c1, c2, lib, 0, count, 0);
  }
}
