/** The sampler's view of the H3P switch library (`h3ppci.h`) and of the NVTX
    timeline. What each library call answers is data fixed in advance; what
    the sampler does is the sequence of calls it makes, recorded as events.
    The timeline hands out a fresh id for every domain, schema and counter
    the sampler registers; here the ids are issued in sequence from one
    counter. */
module Facade {
  import opened Wrappers
  import opened Text

  /** The fields of `h3ppciDeviceProp` the sampler reads. */
  datatype Props = Props(name: string, domain: int, bus: int, device: int, func: int)

  /** A switch that `h3ppciGetDevice` opened: its handle, its properties, the
      count `h3ppciGetPortCount` leaves behind (0 when that call fails), and
      the `portId` of every port index whose `h3ppciGetPortInfo` succeeds. */
  datatype Switch = Switch(handle: int, props: Props, portCount: int, portIds: map<int, int>)

  /** `h3ppciPerfCal`, the fields the sampler publishes. */
  datatype PerfCal = PerfCal(rxBps: real, txBps: real, rxUtilization: real, txUtilization: real)

  /** `h3ppciPortErrors` */
  datatype PortErrors = PortErrors(badTlp: nat, badDllp: nat, rxErrors: nat, recoveryDiagnostics: nat)

  /** One read of a port's counters: the round of the sampling loop it
      happens in, the device handle and the port index. */
  datatype Probe = Probe(round: nat, handle: int, portIndex: int)

  /** Everything the library answers. `count` is `None` when
      `h3ppciGetDeviceCount` fails; `switches` holds the indices whose
      `h3ppciGetDevice` succeeds; `cal` and `errors` hold the reads that
      succeed, with what they return. */
  datatype Library = Library(
    count: Option<int>,
    switches: map<int, Switch>,
    cal: map<Probe, PerfCal>,
    errors: map<Probe, PortErrors>)

  // ---------------------------------------------------------------------
  // The payload schema

  datatype EntryType = Double

  /** One entry of an NVTX payload schema: its name and its type. */
  datatype SchemaEntry = SchemaEntry(name: string, entryType: EntryType)

  /** A static NVTX payload schema: its entries and the byte size of one payload. */
  datatype Schema = Schema(entries: seq<SchemaEntry>, staticSize: nat)

  /** `sizeof(double)` */
  const DoubleSize: nat := 8

  /** The four metrics of a module; anything but "throughput" gets the error counters. */
  function MetricNames(moduleName: string): (r: seq<string>)
    ensures |r| == 4
    ensures moduleName == "throughput" <==> r[0] == "RX_MBs"
  {
    if moduleName == "throughput" then ["RX_MBs", "TX_MBs", "RX_Util", "TX_Util"]
    else ["BadTLP", "BadDLLP", "RxErr", "RecDiag"]
  }

  /** The schema registered for every device: one `double` per metric name,
      and a static size of `sizeof(double)` per entry. */
  function SchemaOf(moduleName: string): (s: Schema)
    ensures |s.entries| == 4 && s.staticSize == 4 * DoubleSize
    ensures forall i | 0 <= i < 4 :: s.entries[i] == SchemaEntry(MetricNames(moduleName)[i], Double)
  {
    var names := MetricNames(moduleName);
    var entries := seq(|names|, i requires 0 <= i < |names| => SchemaEntry(names[i], Double));
    Schema(entries, |entries| * DoubleSize)
  }

  // ---------------------------------------------------------------------
  // Events

  /** A call the sampler makes, with the id the timeline hands back where it
      hands one back. A domain or counter is recorded with what its name is
      built from; `NameOf` gives the string the sampler passes. */
  datatype Event =
    | GetDeviceCount
    | GetDevice(index: int)
    | GetProperties(handle: int)
    | CreateDomain(device: Props, deviceIdx: int, domain: nat)
    | GetPortCount(handle: int)
    | RegisterSchema(domain: nat, schema: Schema, schemaId: nat)
    | GetPortInfo(handle: int, portIndex: int)
    | RegisterCounter(domain: nat, portId: int, moduleName: string, schemaId: nat, counter: nat)
    | InitDevice(handle: int)
    | PerfStart(handle: int)
    | Sleep(micros: nat)
    | PerfStop(handle: int)
    | ReadCal(handle: int, portIndex: int)
    | ReadErrors(handle: int, portIndex: int)
    | Sample(domain: nat, counter: nat, values: seq<real>, size: nat)

  /** The three calls that drive a device's performance counters. */
  datatype Control = Init | Start | Stop

  function ControlHandle(e: Event, k: Control): Option<int>
  {
    match e
    case InitDevice(h) => if k == Init then Some(h) else None
    case PerfStart(h) => if k == Start then Some(h) else None
    case PerfStop(h) => if k == Stop then Some(h) else None
    case _ => None
  }

  /** The handles passed to calls of kind `k` in `t`, in order. */
  function Controlled(t: seq<Event>, k: Control): seq<int>
  {
    if |t| == 0 then []
    else
      match ControlHandle(t[0], k)
      case Some(h) => [h] + Controlled(t[1..], k)
      case None => Controlled(t[1..], k)
  }

  lemma {:induction false} ControlledAppend(a: seq<Event>, b: seq<Event>, k: Control)
    ensures Controlled(a + b, k) == Controlled(a, k) + Controlled(b, k)
    decreases |a|
  {
    if |a| == 0 {
      assert a + b == b;
    } else {
      assert (a + b)[0] == a[0];
      assert (a + b)[1..] == a[1..] + b;
      ControlledAppend(a[1..], b, k);
    }
  }

  /** A trace with no call of kind `k` has no handle of kind `k`, and back. */
  lemma {:induction false} ControlledEmpty(t: seq<Event>, k: Control)
    ensures Controlled(t, k) == [] <==> forall i | 0 <= i < |t| :: ControlHandle(t[i], k).None?
    decreases |t|
  {
    if |t| > 0 {
      ControlledEmpty(t[1..], k);
      assert forall i | 1 <= i < |t| :: t[i] == t[1..][i - 1];
    }
  }

  /** A handle is among the calls of kind `k` exactly when some call of `t`
      of that kind is for it. */
  lemma {:induction false} ControlledMember(t: seq<Event>, k: Control, h: int)
    ensures h in Controlled(t, k) <==> exists j | 0 <= j < |t| :: ControlHandle(t[j], k) == Some(h)
    decreases |t|
  {
    if |t| > 0 {
      ControlledMember(t[1..], k, h);
      if exists j | 0 <= j < |t| :: ControlHandle(t[j], k) == Some(h) {
        var j :| 0 <= j < |t| && ControlHandle(t[j], k) == Some(h);
        if j > 0 {
          assert t[1..][j - 1] == t[j];
        }
      }
      if exists j | 0 <= j < |t[1..]| :: ControlHandle(t[1..][j], k) == Some(h) {
        var j :| 0 <= j < |t[1..]| && ControlHandle(t[1..][j], k) == Some(h);
        assert t[j + 1] == t[1..][j];
      }
    }
  }

  // ---------------------------------------------------------------------
  // Names

  /** 2^32: `printf`'s `%x` reads its argument as an `unsigned int`. */
  const Wrap32: nat := 0x1_0000_0000

  /** `%0<width>x` of an `int`. */
  function HexField(v: int, width: nat): string
  {
    PadZeros(ToBase(v % Wrap32, 16), width)
  }

  /** The size of `bdfStr`; `snprintf` keeps one byte for the terminator. */
  const BdfBuffer: nat := 32

  /** `snprintf(bdfStr, 32, "%04x:%02x:%02x.%x", ...)`. */
  function Bdf(p: Props): (r: string)
    ensures |r| < BdfBuffer
  {
    var full := HexField(p.domain, 4) + ":" + HexField(p.bus, 2) + ":" + HexField(p.device, 2) + "." + HexField(p.func, 1);
    if |full| < BdfBuffer then full else full[..BdfBuffer - 1]
  }

  /** The NVTX domain of device `d`. */
  function DomainName(p: Props, d: int): string
  {
    "H3P_PCIe_Switch/" + p.name + "_" + IntToString(d) + "(" + Bdf(p) + ")"
  }

  /** The NVTX counter of a port. */
  function CounterName(portId: int, moduleName: string): string
  {
    "Port_" + IntToString(portId) + "_" + moduleName
  }

  /** A PCI address with its usual field widths prints in twelve characters
      and each field reads back as the number printed. */
  lemma BdfFields(p: Props)
    requires 0 <= p.domain < 0x1_0000 && 0 <= p.bus < 0x100 && 0 <= p.device < 0x100 && 0 <= p.func < 0x10
    ensures |Bdf(p)| == 12
    ensures Bdf(p)[4] == ':' && Bdf(p)[7] == ':' && Bdf(p)[10] == '.'
    ensures AllDigitsIn(Bdf(p)[..4], 16) && FromBase(Bdf(p)[..4], 16) == p.domain
    ensures AllDigitsIn(Bdf(p)[5..7], 16) && FromBase(Bdf(p)[5..7], 16) == p.bus
    ensures AllDigitsIn(Bdf(p)[8..10], 16) && FromBase(Bdf(p)[8..10], 16) == p.device
    ensures AllDigitsIn(Bdf(p)[11..], 16) && FromBase(Bdf(p)[11..], 16) == p.func
  {
    HexFieldOf(p.domain, 4);
    HexFieldOf(p.bus, 2);
    HexFieldOf(p.device, 2);
    HexFieldOf(p.func, 1);
    var a, b, c, e := HexField(p.domain, 4), HexField(p.bus, 2), HexField(p.device, 2), HexField(p.func, 1);
    var full := a + ":" + b + ":" + c + "." + e;
    assert |full| == 12;
    assert Bdf(p) == full;
    assert full[..4] == a && full[5..7] == b && full[8..10] == c && full[11..] == e;
  }

  lemma HexFieldOf(v: int, width: nat)
    requires 1 <= width <= 4 && 0 <= v < Pow(16, width)
    ensures |HexField(v, width)| == width
    ensures AllDigitsIn(HexField(v, width), 16) && FromBase(HexField(v, width), 16) == v
  {
    assert Pow(16, 4) == 0x1_0000;
    PowMonotone(width, 4);
    assert v % Wrap32 == v;
    PaddedHexRoundTrip(v, width);
  }

  lemma {:induction false} PowMonotone(a: nat, b: nat)
    requires a <= b
    ensures Pow(16, a) <= Pow(16, b)
    decreases b - a
  {
    if a < b {
      PowMonotone(a + 1, b);
    }
  }

  /** The number between a fixed prefix and a fixed suffix is determined by the text. */
  lemma MiddleDecimal(pre: string, x: int, y: int, post: string)
    requires pre + IntToString(x) + post == pre + IntToString(y) + post
    ensures x == y
  {
    var s, t := pre + IntToString(x) + post, pre + IntToString(y) + post;
    assert |IntToString(x)| == |IntToString(y)|;
    assert IntToString(x) == s[|pre|..|pre| + |IntToString(x)|];
    assert IntToString(y) == t[|pre|..|pre| + |IntToString(y)|];
    AtoiIntToString(x);
    AtoiIntToString(y);
  }

  /** Different devices get different domain names, whatever properties each
      of them reports: the index is the decimal between the last `_` and the
      last `(`, and neither the index nor the PCI address holds those. */
  lemma DomainNamesDiffer(p1: Props, d1: int, p2: Props, d2: int)
    requires d1 != d2
    ensures DomainName(p1, d1) != DomainName(p2, d2)
  {
    if DomainName(p1, d1) == DomainName(p2, d2) {
      var a1, a2 := "H3P_PCIe_Switch/" + p1.name, "H3P_PCIe_Switch/" + p2.name;
      var i1, i2 := IntToString(d1), IntToString(d2);
      var b1, b2 := Bdf(p1) + ")", Bdf(p2) + ")";
      BdfNoParen(p1);
      BdfNoParen(p2);
      DecimalNoUnderscore(d1);
      DecimalNoUnderscore(d2);
      assert DomainName(p1, d1) == (a1 + "_" + i1) + "(" + b1;
      assert DomainName(p2, d2) == (a2 + "_" + i2) + "(" + b2;
      LastSeparator(a1 + "_" + i1, b1, a2 + "_" + i2, b2, '(');
      LastSeparator(a1, i1, a2, i2, '_');
      AtoiIntToString(d1);
      AtoiIntToString(d2);
    }
  }

  /** Text split at the last occurrence of `c` splits one way only. */
  lemma LastSeparator(x1: string, y1: string, x2: string, y2: string, c: char)
    requires c !in y1 && c !in y2
    requires x1 + [c] + y1 == x2 + [c] + y2
    ensures x1 == x2 && y1 == y2
  {
    SeparatorNotAfter(x1, y1, x2, y2, c);
    SeparatorNotAfter(x2, y2, x1, y1, c);
    var s := x1 + [c] + y1;
    assert x1 == s[..|x1|];
    assert x2 == s[..|x2|];
    assert y1 == s[|x1| + 1..];
    assert y2 == s[|x2| + 1..];
  }

  /** A `c` after the last one of a split would fall inside its tail. */
  lemma SeparatorNotAfter(x1: string, y1: string, x2: string, y2: string, c: char)
    requires c !in y1
    requires x1 + [c] + y1 == x2 + [c] + y2
    ensures |x2| <= |x1|
  {
    var s := x1 + [c] + y1;
    assert forall k | |x1| < k < |s| :: s[k] == y1[k - |x1| - 1];
    assert s[|x2|] == (x2 + [c] + y2)[|x2|];
  }

  /** A digit is neither `(` nor `_`. */
  lemma DigitsNoMark(s: string, base: nat)
    requires AllDigitsIn(s, base) && base <= 16
    ensures '(' !in s && '_' !in s
  {
    assert DigitValue('(') == 16 && DigitValue('_') == 16;
  }

  lemma DecimalNoUnderscore(d: int)
    ensures '_' !in IntToString(d)
  {
    if d < 0 {
      DigitsNoMark(ToBase(-d, 10), 10);
    } else {
      DigitsNoMark(ToBase(d, 10), 10);
    }
  }

  lemma HexFieldNoParen(v: int, width: nat)
    ensures '(' !in HexField(v, width)
  {
    var h := ToBase(v % Wrap32, 16);
    if |h| < width {
      ZerosDigits(width - |h|, h, 16);
    }
    DigitsNoMark(HexField(v, width), 16);
  }

  /** The printed PCI address, cut or not, holds no `(`. */
  lemma BdfNoParen(p: Props)
    ensures '(' !in Bdf(p) + ")"
  {
    HexFieldNoParen(p.domain, 4);
    HexFieldNoParen(p.bus, 2);
    HexFieldNoParen(p.device, 2);
    HexFieldNoParen(p.func, 1);
    var full := HexField(p.domain, 4) + ":" + HexField(p.bus, 2) + ":" + HexField(p.device, 2) + "." + HexField(p.func, 1);
    assert '(' !in full;
    if |full| >= BdfBuffer {
      assert forall k | 0 <= k < BdfBuffer - 1 :: full[..BdfBuffer - 1][k] == full[k];
    }
  }

  /** A counter name determines the port id it was made from. */
  lemma CounterNamesDiffer(a: int, b: int, moduleName: string)
    requires a != b
    ensures CounterName(a, moduleName) != CounterName(b, moduleName)
  {
    var post := "_" + moduleName;
    assert CounterName(a, moduleName) == "Port_" + IntToString(a) + post;
    assert CounterName(b, moduleName) == "Port_" + IntToString(b) + post;
    if CounterName(a, moduleName) == CounterName(b, moduleName) {
      MiddleDecimal("Port_", a, b, post);
    }
  }

  /** The name passed with a domain or counter registration. */
  function NameOf(e: Event): Option<string>
  {
    match e
    case CreateDomain(props, d, _) => Some(DomainName(props, d))
    case RegisterCounter(_, portId, moduleName, _, _) => Some(CounterName(portId, moduleName))
    case _ => None
  }
}
