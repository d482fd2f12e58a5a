/** The sampler's command line: the options `-i <device>`, `-p <ports>`,
    `-m <module>`, `-t <milliseconds>` and `-h`, read with `getopt` into a
    `Config`. A port list is split at commas as `strtok` splits it, and
    `-p` also takes the arguments that follow it, up to the first one that
    starts with `-`. */
module CommandLine {
  import opened Text

  /** `deviceIdx` -1 selects every device and an empty `portIndices` every
      port. `moduleName` is whatever text was given; `main` rejects anything but
      the two module names. */
  datatype Config = Config(deviceIdx: int, portIndices: seq<int>, moduleName: string, intervalMs: int)

  /** The configuration before any option is read. */
  const Default: Config := Config(-1, [], "throughput", 100)

  /** The two modules the sampler knows. */
  predicate ValidModule(name: string)
  {
    name == "throughput" || name == "error"
  }

  /** What `ParseArgs` ends in: a configuration, or `exit` with a status
      (0 after `-h`, 1 after an unknown option or a missing argument). */
  datatype Parsed = Run(config: Config) | Exit(code: int)

  /** An argument the port list takes after `-p`: it does not start with `-`
      (an empty argument counts, its first byte being the terminator). */
  predicate Bare(arg: string)
  {
    |arg| == 0 || arg[0] != '-'
  }

  /** The number of arguments from index `k` on that `-p` takes. */
  function BareRun(args: seq<string>, k: nat): (n: nat)
    requires k <= |args|
    ensures k + n <= |args|
    ensures forall j | k <= j < k + n :: Bare(args[j])
    ensures k + n < |args| ==> !Bare(args[k + n])
    decreases |args| - k
  {
    if k < |args| && Bare(args[k]) then 1 + BareRun(args, k + 1) else 0
  }

  /** `atoi` of each token, in order. */
  function AtoiAll(ts: seq<string>): (r: seq<int>)
    ensures |r| == |ts|
  {
    if |ts| == 0 then [] else [Atoi(ts[0])] + AtoiAll(ts[1..])
  }

  /** The ports one argument of a port list names. */
  function PortValues(arg: string): seq<int>
  {
    AtoiAll(CommaTokens(arg))
  }

  /** The ports a run of arguments names, argument after argument. */
  function PortValuesOf(args: seq<string>): seq<int>
  {
    if |args| == 0 then [] else PortValues(args[0]) + PortValuesOf(args[1..])
  }

  /** Where the walk over the arguments after a port list stops, and the
      ports those arguments name. */
  datatype Extra = Extra(stop: nat, ports: seq<int>)

  /** The loop after `-p`'s own argument: from index `k`, every argument that
      does not start with `-` is split into ports, and `optind` moves past it. */
  function ExtraPorts(args: seq<string>, k: nat): (e: Extra)
    requires k <= |args|
    ensures k <= e.stop <= |args|
    decreases |args| - k
  {
    if k < |args| && Bare(args[k]) then
      var rest := ExtraPorts(args, k + 1);
      Extra(rest.stop, PortValues(args[k]) + rest.ports)
    else Extra(k, [])
  }

  /** The walk takes exactly the longest run of bare arguments, and reads
      them in order. */
  lemma {:induction false} ExtraPortsRun(args: seq<string>, k: nat)
    requires k <= |args|
    ensures ExtraPorts(args, k).stop == k + BareRun(args, k)
    ensures ExtraPorts(args, k).ports == PortValuesOf(args[k..ExtraPorts(args, k).stop])
    decreases |args| - k
  {
    if k < |args| && Bare(args[k]) {
      ExtraPortsRun(args, k + 1);
      var stop := ExtraPorts(args, k).stop;
      assert args[k..stop][1..] == args[k + 1..stop];
    } else {
      assert args[k..k] == [];
    }
  }

  /** The options the program knows; all but `h` take an argument. */
  predicate TakesArgument(o: char)
  {
    o == 'i' || o == 'p' || o == 'm' || o == 't'
  }

  /** One call of `getopt` and the handling of the option it returns: the
      outcome, or the index to go on from and the configuration so far. */
  datatype Step = Done(result: Parsed) | Next(k: nat, c: Config)

  /** `getopt(argc, argv, "i:p:m:t:h")` at index `k` of `args` (the
      arguments after the program name). An argument of at least two
      characters that starts with `-` is an option; its argument is the rest
      of it, or else the next argument whatever it looks like. A non-option
      is stepped over, and `--` ends the options. */
  function GetoptStep(args: seq<string>, k: nat, c: Config): (s: Step)
    requires k < |args|
    ensures s.Next? ==> k < s.k <= |args|
    ensures s.Done? ==> s.result == Run(c) || s.result == Exit(0) || s.result == Exit(1)
  {
    var a := args[k];
    if |a| == 2 && a[0] == '-' && a[1] == '-' then Done(Run(c))
    else if |a| < 2 || a[0] != '-' then Next(k + 1, c)
    else if a[1] == 'h' then Done(Exit(0))
    else if !TakesArgument(a[1]) then Done(Exit(1))
    else if |a| == 2 && k + 1 == |args| then Done(Exit(1))
    else
      var arg := if |a| > 2 then a[2..] else args[k + 1];
      var next := if |a| > 2 then k + 1 else k + 2;
      if a[1] == 'i' then Next(next, c.(deviceIdx := Atoi(arg)))
      else if a[1] == 'm' then Next(next, c.(moduleName := arg))
      else if a[1] == 't' then Next(next, c.(intervalMs := Atoi(arg)))
      else
        var e := ExtraPorts(args, next);
        Next(e.stop, c.(portIndices := c.portIndices + PortValues(arg) + e.ports))
  }

  /** The `getopt` loop from index `k`, starting from `c`. */
  function ParseFrom(args: seq<string>, k: nat, c: Config): (r: Parsed)
    requires k <= |args|
    ensures r.Exit? ==> r.code == 0 || r.code == 1
    decreases |args| - k
  {
    if k == |args| then Run(c)
    else
      match GetoptStep(args, k, c)
      case Done(r) => r
      case Next(k', c') => ParseFrom(args, k', c')
  }

  /** One option only ever appends to the port list. */
  lemma GetoptKeepsPorts(args: seq<string>, k: nat, c: Config)
    requires k < |args|
    ensures var s := GetoptStep(args, k, c);
      s.Next? ==> Prefix(c.portIndices, s.c.portIndices)
  {
  }

  /** Options only ever append to the port list: the ports given first stay
      first, in their order. */
  lemma {:induction false} ParseKeepsPorts(args: seq<string>, k: nat, c: Config)
    requires k <= |args|
    ensures var r := ParseFrom(args, k, c);
      r.Run? ==> Prefix(c.portIndices, r.config.portIndices)
    decreases |args| - k
  {
    if k < |args| {
      var s := GetoptStep(args, k, c);
      if s.Next? {
        GetoptKeepsPorts(args, k, c);
        ParseKeepsPorts(args, s.k, s.c);
      }
    }
  }

  /** `a` is an initial segment of `b`. */
  predicate Prefix(a: seq<int>, b: seq<int>)
  {
    |a| <= |b| && b[..|a|] == a
  }

  /** `ParseArgs(argc, argv)` */
  function ParseArgs(args: seq<string>): Parsed
  {
    ParseFrom(args, 0, Default)
  }

  // ---------------------------------------------------------------------
  // Port lists

  /** `BareRun` is the length of the longest run of bare arguments: any run
      that ends at a non-bare argument, or at the end, is it. */
  lemma BareRunUntil(args: seq<string>, k: nat, m: nat)
    requires k <= m <= |args|
    requires forall j | k <= j < m :: Bare(args[j])
    requires m < |args| ==> !Bare(args[m])
    ensures BareRun(args, k) == m - k
  {
  }

  /** `-p` takes exactly the bare arguments `bare` when what follows them
      starts with an option. */
  lemma BareRunOver(pre: seq<string>, bare: seq<string>, post: seq<string>)
    requires forall j | 0 <= j < |bare| :: Bare(bare[j])
    requires |post| > 0 ==> !Bare(post[0])
    ensures BareRun(pre + bare + post, |pre|) == |bare|
    ensures (pre + bare + post)[|pre|..|pre| + |bare|] == bare
  {
    var args := pre + bare + post;
    forall j | |pre| <= j < |pre| + |bare| ensures Bare(args[j]) {
      assert args[j] == bare[j - |pre|];
    }
    if |post| > 0 {
      assert args[|pre| + |bare|] == post[0];
    }
    BareRunUntil(args, |pre|, |pre| + |bare|);
  }

  /** A token a port list can hold: not empty, and without a comma. */
  predicate PortToken(t: string)
  {
    0 < |t| && NoComma(t)
  }

  lemma PortValuesOfToken(t: string)
    requires PortToken(t)
    ensures PortValues(t) == [Atoi(t)]
  {
    CommaTokensJoin([t]);
    assert Join([t], ",") == t;
  }

  lemma {:induction false} PortValuesOfTokens(ts: seq<string>)
    requires forall j | 0 <= j < |ts| :: PortToken(ts[j])
    ensures PortValuesOf(ts) == AtoiAll(ts)
    decreases |ts|
  {
    if |ts| > 0 {
      PortValuesOfToken(ts[0]);
      PortValuesOfTokens(ts[1..]);
      assert AtoiAll(ts) == [Atoi(ts[0])] + AtoiAll(ts[1..]);
    }
  }

  /** `-p` followed by its argument at index `k`: the port list grows by the
      ports of that argument and of the bare arguments after it. */
  lemma PortOptionStep(args: seq<string>, k: nat, c: Config, n: nat)
    requires k + 1 < |args| && args[k] == "-p"
    requires n == BareRun(args, k + 2)
    ensures k + 2 + n <= |args|
    ensures ParseFrom(args, k, c) ==
      ParseFrom(args, k + 2 + n, c.(portIndices := c.portIndices + PortValues(args[k + 1]) + PortValuesOf(args[k + 2..k + 2 + n])))
  {
    ExtraPortsRun(args, k + 2);
    var e := ExtraPorts(args, k + 2);
    var c' := c.(portIndices := c.portIndices + PortValues(args[k + 1]) + e.ports);
    PortStep(args, k, c);
    ParseFromStep(args, k, c, e.stop, c');
  }

  /** The `getopt` loop goes on from wherever one step leaves it. */
  lemma ParseFromStep(args: seq<string>, k: nat, c: Config, k': nat, c': Config)
    requires k < |args| && GetoptStep(args, k, c) == Next(k', c')
    ensures k' <= |args| && ParseFrom(args, k, c) == ParseFrom(args, k', c')
  {
  }

  lemma PortStep(args: seq<string>, k: nat, c: Config)
    requires k + 1 < |args| && args[k] == "-p"
    ensures var e := ExtraPorts(args, k + 2);
      GetoptStep(args, k, c) == Next(e.stop, c.(portIndices := c.portIndices + PortValues(args[k + 1]) + e.ports))
  {
  }

  /** `-t` followed by its argument at index `k`. */
  lemma IntervalOptionStep(args: seq<string>, k: nat, c: Config)
    requires k + 1 < |args| && args[k] == "-t"
    ensures ParseFrom(args, k, c) == ParseFrom(args, k + 2, c.(intervalMs := Atoi(args[k + 1])))
  {
    assert GetoptStep(args, k, c) == Next(k + 2, c.(intervalMs := Atoi(args[k + 1])));
  }

  /** `-p 0,32` and `-p 0 32` name the same ports, in the order given and
      with repetitions kept: tokens that do not start with `-`, written
      comma-separated in one argument or one per argument, are read as the
      `atoi` of each, in order. */
  lemma PortListForms(ts: seq<string>)
    requires |ts| > 0
    requires forall j | 0 <= j < |ts| :: PortToken(ts[j]) && ts[j][0] != '-'
    ensures ParseArgs(["-p", Join(ts, ",")]) == Run(Default.(portIndices := AtoiAll(ts)))
    ensures ParseArgs(["-p"] + ts) == Run(Default.(portIndices := AtoiAll(ts)))
  {
    JoinedForm(ts);
    SpreadForm(ts);
  }

  lemma JoinedForm(ts: seq<string>)
    requires forall j | 0 <= j < |ts| :: PortToken(ts[j])
    ensures ParseArgs(["-p", Join(ts, ",")]) == Run(Default.(portIndices := AtoiAll(ts)))
  {
    var args := ["-p", Join(ts, ",")];
    CommaTokensJoin(ts);
    BareRunUntil(args, 2, 2);
    PortOptionStep(args, 0, Default, 0);
    assert args[2..2] == [];
    assert [] + AtoiAll(ts) + [] == AtoiAll(ts);
  }

  lemma SpreadForm(ts: seq<string>)
    requires |ts| > 0
    requires forall j | 0 <= j < |ts| :: PortToken(ts[j]) && ts[j][0] != '-'
    ensures ParseArgs(["-p"] + ts) == Run(Default.(portIndices := AtoiAll(ts)))
  {
    PortRun(ts);
    TokenPorts(ts);
  }

  /** `-p` with its argument and a run of bare arguments after it, up to the end. */
  lemma PortRun(ts: seq<string>)
    requires |ts| > 0
    requires forall j | 1 <= j < |ts| :: Bare(ts[j])
    ensures ParseArgs(["-p"] + ts) == Run(Default.(portIndices := PortValues(ts[0]) + PortValuesOf(ts[1..])))
  {
    var args := ["-p"] + ts;
    var bare := ts[1..];
    assert args == ["-p", ts[0]] + bare + [];
    forall j | 0 <= j < |bare| ensures Bare(bare[j]) {
      assert bare[j] == ts[j + 1];
    }
    BareRunOver(["-p", ts[0]], bare, []);
    PortOptionStep(args, 0, Default, |bare|);
    var x := PortValues(ts[0]);
    assert [] + x == x;
  }

  /** The ports of a run of tokens, the first one read on its own. */
  lemma TokenPorts(ts: seq<string>)
    requires |ts| > 0
    requires forall j | 0 <= j < |ts| :: PortToken(ts[j])
    ensures PortValues(ts[0]) + PortValuesOf(ts[1..]) == AtoiAll(ts)
  {
    PortValuesOfToken(ts[0]);
    PortValuesOfTokens(ts[1..]);
    assert AtoiAll(ts) == [Atoi(ts[0])] + AtoiAll(ts[1..]);
  }

  /** `-p` takes the bare arguments after its own, and the next argument that
      starts with `-` is read as an option again. */
  lemma PortsStopAtOption(a: string, bare: seq<string>, x: string)
    requires forall j | 0 <= j < |bare| :: Bare(bare[j])
    ensures ParseArgs(["-p", a] + bare + ["-t", x]) ==
      Run(Default.(portIndices := PortValues(a) + PortValuesOf(bare), intervalMs := Atoi(x)))
  {
    var args := ["-p", a] + bare + ["-t", x];
    var m := 2 + |bare|;
    var ports := PortValues(a) + PortValuesOf(bare);
    PortsThen(a, bare, ["-t", x]);
    assert args[m] == "-t" && args[m + 1] == x;
    IntervalOptionStep(args, m, Default.(portIndices := ports));
    assert m + 2 == |args|;
  }

  /** `-p`, its argument and the bare arguments after it, followed by
      anything that starts with an option: parsing goes on after the run with
      the ports of the run. */
  lemma PortsThen(a: string, bare: seq<string>, rest: seq<string>)
    requires forall j | 0 <= j < |bare| :: Bare(bare[j])
    requires |rest| > 0 ==> !Bare(rest[0])
    ensures ParseArgs(["-p", a] + bare + rest) ==
      ParseFrom(["-p", a] + bare + rest, 2 + |bare|, Default.(portIndices := PortValues(a) + PortValuesOf(bare)))
  {
    var args := ["-p", a] + bare + rest;
    assert args[0] == "-p" && args[1] == a;
    BareRunOver(["-p", a], bare, rest);
    PortOptionStep(args, 0, Default, |bare|);
    var x := PortValues(a);
    assert [] + x == x;
  }

  /** Empty fields of a port list name no port: two adjacent commas read as one. */
  lemma EmptyFieldsDropped(a: string, b: string)
    ensures PortValues(a + ",," + b) == PortValues(a) + PortValues(b)
    ensures PortValues(a + "," + b) == PortValues(a) + PortValues(b)
  {
    var x := "," + b;
    CommaTokensSplit(a, b);
    CommaTokensSplit(a, x);
    CommaTokensSplit([], b);
    assert a + ",," + b == a + "," + x;
    assert [] + "," + b == x;
    AtoiAllAppend(CommaTokens(a), CommaTokens(b));
  }

  lemma {:induction false} AtoiAllAppend(x: seq<string>, y: seq<string>)
    ensures AtoiAll(x + y) == AtoiAll(x) + AtoiAll(y)
    decreases |x|
  {
    if |x| == 0 {
      assert x + y == y;
    } else {
      assert (x + y)[1..] == x[1..] + y;
      AtoiAllAppend(x[1..], y);
    }
  }

  // ---------------------------------------------------------------------
  // The other options

  /** `-t` takes any integer, zero and negative ones included: nothing checks it. */
  lemma IntervalUnchecked(n: int)
    ensures ParseArgs(["-t", IntToString(n)]) == Run(Default.(intervalMs := n))
  {
    IntervalOptionStep(["-t", IntToString(n)], 0, Default);
    AtoiIntToString(n);
  }

  /** `-h` ends the program with status 0 whatever follows; an unknown
      option, or a known one missing its argument, with status 1. */
  lemma OptionExits(o: char, rest: seq<string>)
    ensures ParseArgs(["-h"] + rest) == Exit(0)
    ensures o != 'h' && o != '-' && !TakesArgument(o) ==> ParseArgs([['-', o]] + rest) == Exit(1)
    ensures TakesArgument(o) ==> ParseArgs([['-', o]]) == Exit(1)
  {
    var h := ["-h"] + rest;
    assert h[0] == "-h";
    assert GetoptStep(h, 0, Default) == Done(Exit(0));
    var u := [['-', o]] + rest;
    assert u[0] == ['-', o];
    if o != 'h' && o != '-' && !TakesArgument(o) {
      assert GetoptStep(u, 0, Default) == Done(Exit(1));
    }
    if TakesArgument(o) {
      assert GetoptStep([['-', o]], 0, Default) == Done(Exit(1));
    }
  }
}
