# Nsight Systems plugins: catalogue builder and H3P PCIe switch sampler

This project models the two pieces of logic at the heart of the Nsight Systems
plugins repository and proves properties of them in Dafny.

1. **The catalogue builder** (`scripts/BuildHTMLFromJSONFiles.py`). It reads the
   plugin manifests (JSON), checks each one against the manifest format with
   `validate_plugin_json`, and keeps the valid ones in `collect_plugins`. It
   escapes every text with `escape` and, in `build_html`, lays out one card per
   plugin with a table of contents that links to each card's `plugin-<i>` anchor.
   - `Manifest` models the validator as a list of problems, or as the exception
     Python raises. The exception comes from `set(...)` on an unhashable item or
     `sorted(...)` on items of mixed kinds.
   - `Catalog` models the collection loop, the cards and their table of
     contents, and `main`.
   - `HtmlEscape` models the chain of `str.replace` calls and a decoder for it.
   - `JsonValues` holds the JSON values, and Python's view of them.
2. **The H3P PCIe switch sampler** (`H3PPlugin/src/sw_nsys_plugin.cpp`). It
   parses its command line with `getopt`, walks the devices and ports the
   `h3ppci` library reports, and registers an NVTX domain, schema and counter
   for each monitored port. It then samples those counters forever: throughput
   (MB/s and utilisation) or PCIe error counts.
   - `CommandLine` models `Config` and `ParseArgs`.
   - `Facade` models the library's and NVTX's data and calls as events, and the
     names the sampler builds.
   - `Discovery` models the device and port loops.
   - `Sampling` models one iteration of the sampling loop, and any number of
     them.
   - `Plugin` models `main`.
   - `Text` holds the C string helpers the sampler uses: `strtok` at commas,
     `atoi`, `std::to_string`, and `%x`.

The library and NVTX are not run: a `Library` value says what each library call
returns, and every call the program makes is recorded in order as an `Event`.
Each property of the sampler is stated over that event trace. Examples are:
`h3ppciPerfStart` only after `h3ppciInitDevice`; a failed read publishes no
sample; every sample matches its counter's schema.

## Model

| member | source | states |
|---|---|---|
| `Manifest.ValidIffConforms` | scripts/BuildHTMLFromJSONFiles.py:18-75 | The validator returns an empty list exactly for the documents that conform to the manifest format. `Conforms` is stated independently of the validator's code. |
| `Manifest.RaisedIff` | scripts/BuildHTMLFromJSONFiles.py:48-55 | Validation raises exactly when `Architectures` or `OperatingSystems` is a list holding a list or dict, or holding invalid items Python cannot sort together. |
| `Manifest.ReportDistinct` | scripts/BuildHTMLFromJSONFiles.py:18-75 | A report never lists the same problem twice. |
| `Manifest.RootReported` | scripts/BuildHTMLFromJSONFiles.py:22-23 | A root that is not an object gets exactly one problem, "root must be a JSON object", and no object gets that problem. |
| `Manifest.MissingKeyReported` | scripts/BuildHTMLFromJSONFiles.py:26-28 | When validation returns a list: a key is reported missing exactly when it is required and absent. |
| `Manifest.SchemaVersionReported` | scripts/BuildHTMLFromJSONFiles.py:30-33 | When validation returns a list: a present `SchemaVersion` is reported exactly when it is neither the integer 1 nor `True`, which is an int in Python. |
| `Manifest.StringKeyReported` | scripts/BuildHTMLFromJSONFiles.py:35-37 | When validation returns a list: a text key is reported exactly when it is present and holds neither null nor a string. This also covers `MinNsightSystemsVersion` and `SetupNotes` at lines 71-73. |
| `Manifest.NotArrayReported` | scripts/BuildHTMLFromJSONFiles.py:39-43 | When validation returns a list: a list-valued key is reported exactly when it is present and not a list. |
| `Manifest.ItemReported` | scripts/BuildHTMLFromJSONFiles.py:45-47 | When validation returns a list: item `i` of either list is reported exactly when it exists and is not a string. |
| `Manifest.NotAllowedReported` | scripts/BuildHTMLFromJSONFiles.py:48-55 | When validation returns a list: one problem per list is reported exactly when the list holds something outside its allowed set. |
| `Manifest.NonStringItemTwoProblems` | scripts/BuildHTMLFromJSONFiles.py:45-55 | When validation returns a list: a hashable non-string item draws both its own problem and the one for disallowed items. |
| `Manifest.ImagesOptional` | scripts/BuildHTMLFromJSONFiles.py:57 | When validation returns a list: without `Images`, no image problem is reported. |
| `Manifest.ImagesNotArrayReported` | scripts/BuildHTMLFromJSONFiles.py:57-60 | When validation returns a list: `Images` is reported exactly when it is present and not a list. |
| `Manifest.ImageReported` | scripts/BuildHTMLFromJSONFiles.py:62-69 | When validation returns a list: entry `i` of `Images` is reported when it is not an object. Its `Path` and its `Description` are each reported when present, not null and not a string. Each holds exactly when the condition does. |
| `Catalog.CollectPlugins` | scripts/BuildHTMLFromJSONFiles.py:88-103 | The kept plugins are exactly the accepted documents, in file order, with their indices. The scan ends on the first document whose validation raises. |
| `Catalog.AcceptedIffConforms` | scripts/BuildHTMLFromJSONFiles.py:92-102 | With the script's validator, a document is kept exactly when it loaded and conforms. |
| `Catalog.BuildPage` | scripts/BuildHTMLFromJSONFiles.py:116-161 | For conforming plugins, as `main` passes them: the page has one card per plugin, in order, and one table-of-contents row per card. It fails exactly when rendering some plugin hands `None` to `escape`. |
| `Catalog.TocRowOfPlugin` | scripts/BuildHTMLFromJSONFiles.py:121-125 | Row `i` links `#plugin-<i>` under the escaped name. The escaped name decodes back to the name and cannot open a tag or end the attribute. |
| `Catalog.AnchorsDistinct` | scripts/BuildHTMLFromJSONFiles.py:124 | Two plugins share an anchor exactly when they have the same index. |
| `Catalog.ImageAltDoubleEscapes` | scripts/BuildHTMLFromJSONFiles.py:123-138 | As written, the alt text of an image without a description escapes the already-escaped name a second time. |
| `Catalog.ImageAltDecodes` | scripts/BuildHTMLFromJSONFiles.py:136-141 | The corrected alt text decodes to the description, or else to the name. |
| `Catalog.ThumbAltVersusScript` | scripts/BuildHTMLFromJSONFiles.py:123-138 | A card's thumbnail decodes to the first image's description, or else to the name. It matches the script's alt text exactly when there is a description or the name has no special character. |
| `Catalog.ImageAltAgreesIff` | scripts/BuildHTMLFromJSONFiles.py:136-138 | The written and the corrected alt text agree exactly when there is a description, or the name has no special character. |
| `Catalog.Run` | scripts/BuildHTMLFromJSONFiles.py:227-263 | Without `-i`, `main` ends in a traceback, since the missing path cannot be resolved. It returns 1 when the input is not a directory, when no output file is named, or when nothing is kept. A raising validator ends in a traceback. When something is kept, the page is written exactly when no kept card hands `None` to `escape`; otherwise the script ends in a traceback. A written page shows exactly the accepted manifests, in order, one card each. |
| `HtmlEscape.EscapeIsSubstitution` | scripts/BuildHTMLFromJSONFiles.py:106-113 | The four chained replaces equal replacing each character by its entity in one pass. |
| `HtmlEscape.EscapeRoundTrip` | scripts/BuildHTMLFromJSONFiles.py:106-113 | Decoding the escaped text gives the original back. |
| `HtmlEscape.EscapeInjective` | scripts/BuildHTMLFromJSONFiles.py:106-113 | Two texts escape alike exactly when they are equal. |
| `HtmlEscape.EscapeHasNoMarkup` | scripts/BuildHTMLFromJSONFiles.py:106-113 | Escaped text holds no `<`, `>` or `"`. |
| `HtmlEscape.EscapeSafe` | scripts/BuildHTMLFromJSONFiles.py:106-113 | Text without the four special characters is unchanged. |
| `HtmlEscape.EscapeTwiceIff` | scripts/BuildHTMLFromJSONFiles.py:106-113 | Escaping twice gives the same as escaping once exactly when the text holds no special character. |
| `CommandLine.OptionExits` | H3PPlugin/src/sw_nsys_plugin.cpp:77-82 | `-h` exits with status 0 whatever follows. An unknown option, or a known one without its argument, exits with status 1. |
| `CommandLine.PortListForms` | H3PPlugin/src/sw_nsys_plugin.cpp:53-69 | `-p 0,32` and `-p 0 32` select the same ports: the `atoi` of each token, in order. |
| `CommandLine.PortOptionStep` | H3PPlugin/src/sw_nsys_plugin.cpp:53-69 | `-p` appends the ports of its argument, then those of the bare arguments after it. Parsing goes on after them. |
| `CommandLine.ExtraPortsRun` | H3PPlugin/src/sw_nsys_plugin.cpp:61-68 | The walk after `-p` takes exactly the longest run of arguments not starting with `-`, and reads their ports in order. |
| `CommandLine.PortsStopAtOption` | H3PPlugin/src/sw_nsys_plugin.cpp:61-68 | The next argument starting with `-` ends the port list and is read as an option again. |
| `CommandLine.EmptyFieldsDropped` | H3PPlugin/src/sw_nsys_plugin.cpp:55-59 | Empty fields between commas name no port, as `strtok` skips them. |
| `CommandLine.ParseKeepsPorts` | H3PPlugin/src/sw_nsys_plugin.cpp:45-86 | Options only append to the port list: ports given earlier stay first, in order. |
| `CommandLine.IntervalUnchecked` | H3PPlugin/src/sw_nsys_plugin.cpp:74-75 | `-t` takes any integer, zero and negative ones included. |
| `Text.CommaTokensSound` | H3PPlugin/src/sw_nsys_plugin.cpp:55-59 | `strtok` at commas gives non-empty, comma-free tokens that hold exactly the non-comma characters, in order. |
| `Text.PaddedHexRoundTrip` | H3PPlugin/src/sw_nsys_plugin.cpp:120-121 | A `%0<w>x` field is `w` characters wide when the value fits, and reads back as the value. |
| `Facade.MetricNames` | H3PPlugin/src/sw_nsys_plugin.cpp:134-139 | Each module has four metrics. The throughput names start with `RX_MBs`, and no other module's do. |
| `Facade.SchemaOf` | H3PPlugin/src/sw_nsys_plugin.cpp:141-155 | The schema has four `double` entries named after the metrics, and a static size of `4 * sizeof(double)`. |
| `Facade.Bdf` | H3PPlugin/src/sw_nsys_plugin.cpp:119-121 | The address text always fits the 32-byte buffer. |
| `Facade.BdfFields` | H3PPlugin/src/sw_nsys_plugin.cpp:120-121 | A PCI address with the usual field widths prints as `dddd:bb:dd.f`, and each field reads back as the number printed. |
| `Facade.DomainNamesDiffer` | H3PPlugin/src/sw_nsys_plugin.cpp:117-124 | Different device indices give different domain names, even when each device reports its own name and PCI address. |
| `Facade.CounterNamesDiffer` | H3PPlugin/src/sw_nsys_plugin.cpp:176-178 | Different port ids give different counter names. |
| `Discovery.DiscoverMonitors` | H3PPlugin/src/sw_nsys_plugin.cpp:108-188 | A (device, port) pair is monitored exactly when it is below the device count and eligible. Eligible means: selected by `-i` and `-p`, its device opens, it is below the port count, and its port information reads. |
| `Discovery.DiscoverDistinct` | H3PPlugin/src/sw_nsys_plugin.cpp:159-188 | Monitored ports come in (device, port) order with no pair twice. Each port has its own counter and its device's handle, port id and name. |
| `Discovery.DiscoverActive` | H3PPlugin/src/sw_nsys_plugin.cpp:112-127 | `activeDevices` holds exactly the handles of the devices that open, whether or not any of their ports is monitored. |
| `Discovery.DiscoverTrace` | H3PPlugin/src/sw_nsys_plugin.cpp:116-192 | Each port's domain is named after its device and its counter is registered in that domain under the module's schema. Only selected devices are asked for. `h3ppciInitDevice` is called once per active device in throughput mode and never in error mode. |
| `Discovery.DeviceScanControl` | H3PPlugin/src/sw_nsys_plugin.cpp:190-192 | An opened device's pass ends with `h3ppciInitDevice` in throughput mode, and has none in error mode. |
| `Discovery.DefaultSelectsAll` | H3PPlugin/src/sw_nsys_plugin.cpp:19-21 | With no `-i` and no `-p`, every readable port below the port count of every device that opens is eligible. |
| `Discovery.DiscoverSameSelection` | H3PPlugin/src/sw_nsys_plugin.cpp:160-170 | Port lists with the same members, whatever their order or repetitions, give the same discovery. |
| `Sampling.CalValues` | H3PPlugin/src/sw_nsys_plugin.cpp:219-222 | The throughput values are the byte rates divided by 2^20, then the two utilisations. |
| `Sampling.ErrorValues` | H3PPlugin/src/sw_nsys_plugin.cpp:233-236 | The error values read back as the four counts, in order. |
| `Sampling.SampleMatchesSchema` | H3PPlugin/src/sw_nsys_plugin.cpp:206 | The sample size equals the schema's static size and its entry count times `sizeof(double)`. |
| `Sampling.UsleepArg` | H3PPlugin/src/sw_nsys_plugin.cpp:212 | The sleep is below 2^32 microseconds. It is exactly `ms * 1000` when, and only when, that fits; otherwise, negative intervals included, it wraps. |
| `Sampling.RoundControl` | H3PPlugin/src/sw_nsys_plugin.cpp:209-214 | In throughput mode an iteration starts and stops every active device, in order, and initialises none. In error mode it does neither. |
| `Sampling.RoundPhased` | H3PPlugin/src/sw_nsys_plugin.cpp:208-241 | An iteration starts everything, sleeps exactly once, stops everything, then reads. In error mode it sleeps first. |
| `Sampling.PortReadsEach` | H3PPlugin/src/sw_nsys_plugin.cpp:216-226 | Every monitored port is read once per iteration, in order, whether or not earlier reads failed. |
| `Sampling.PortReadsPublish` | H3PPlugin/src/sw_nsys_plugin.cpp:216-240 | A successful read publishes that port's values on its counter. A failed read publishes nothing on it. |
| `Sampling.RoundsSplit` | H3PPlugin/src/sw_nsys_plugin.cpp:208 | Each iteration is a contiguous block of the loop's trace. |
| `Sampling.RoundsControl` | H3PPlugin/src/sw_nsys_plugin.cpp:208-214 | The loop never initialises a device. In error mode it never starts or stops one, and in throughput mode only active devices. |
| `Sampling.RoundsSamples` | H3PPlugin/src/sw_nsys_plugin.cpp:223-238 | Every sample of the loop is on a monitored port's counter, with four values and `4 * sizeof(double)` bytes. |
| `Plugin.LaunchStatus` | H3PPlugin/src/sw_nsys_plugin.cpp:88-198 | The program either samples forever or returns 1. It samples exactly when the module is valid, the device count reads as non-zero and some port is eligible. |
| `Plugin.LaunchExits` | H3PPlugin/src/sw_nsys_plugin.cpp:89-102 | A bad module returns 1 before any library call, and a failed or zero device count right after that call. An early return makes only setup calls. |
| `Plugin.HelpExits` | H3PPlugin/src/sw_nsys_plugin.cpp:77-79 | `-h` returns 0 without a library call. |
| `Plugin.UnknownOptionExits` | H3PPlugin/src/sw_nsys_plugin.cpp:80-82 | An unknown option returns 1 without a library call. |
| `Plugin.InitBeforeStart` | H3PPlugin/include/h3ppci.h:112-113 | `h3ppciPerfStart` is called only on a device already initialised with `h3ppciInitDevice`. |
| `Plugin.PerfControl` | H3PPlugin/src/sw_nsys_plugin.cpp:190-214 | Error mode never initialises, starts or stops a device. Throughput mode initialises exactly the active devices, in order. |
| `Plugin.SamplesMatchRegistration` | H3PPlugin/src/sw_nsys_plugin.cpp:141-238 | Every sample is on a counter registered earlier in a domain and schema registered earlier. It carries as many values and bytes as that schema declares. |

## Left out

- Reading and writing files, printing to stdout and stderr, and the HTML text outside the table of contents and cards, whose styles and disclaimer are constant.
- `load_plugin_json` is left out: each manifest is given as `Some(json)`, or `None` when it does not load. Directory listing and its sort order are left out; the documents come in the order given.
- `collect_plugins` is meant to skip invalid manifests. When validation itself raises (`set` on an unhashable item, `sorted` on mixed kinds), the exception instead escapes and ends the script. The model follows the code: `CollectPlugins` stops with the fault.
- Python floats are modelled as a separate JSON number kind. Only their identity matters: they are never equal to the integer 1 as `SchemaVersion`, and they are hashable.
- `Catalog.BuildPage`: its cards carry the intended alternative text, not the doubly escaped name of line 138 (see "## Findings"). `Catalog.ThumbAltVersusScript` states exactly where the two differ. `build_html` on plugins that do not conform is left out: `main` never passes it one.
- `argparse`'s own exits are not modelled: `-h` prints the usage and exits 0, and a usage error exits 2. `Catalog.Run` starts after a successful `parse_args`, from whether `-i` and `-o` were given and whether the input names a directory.
- `getopt` is simplified. Arguments are not permuted: a non-option is stepped over, and `--` ends the options.
- `atoi` is modelled on unbounded integers: out-of-range values do not wrap to 32 bits.
- `Sampling.UsleepArg`: `config.intervalMs * 1000` overflows a signed `int`, which is undefined behaviour in C++. The model reduces it modulo 2^32, as the conversion to `useconds_t` does on common targets.
- `Sampling.CalValues`: the values are exact reals, not IEEE doubles; rounding is not modelled.
- `Sampling.ErrorValues`: the counts are `unsigned long long`, so above 2^53 the conversion to `double` rounds. The model's values are exact.
- The sampling loop never ends in the program. The model runs a given number of iterations, `rounds`, and states its properties for every number.
- The progress `printf` after each iteration, and the last `values` it shows, are left out.
- `Ctrl+C` and signals are left out.
- `deviceDomains` is written but never read, so it is left out.
- `h3ppciGetDeviceProperties` is assumed to succeed; its result is not checked.
- A failed `h3ppciGetPortCount` leaves the count at 0, as its initial value does: that device contributes no port.
- NVTX handles are modelled as fresh sequential ids, for domains, schemas and counters alike. Their real values are opaque. That each monitored port has its own counter follows from this choice and is not derived: two ports of one device that report the same `portId` get the same name `Port_<id>_<module>` in the same domain, yet the model still registers two counters for them.
- Names are carried in events as their ingredients: the device properties and index, or the port id and module. `Facade.NameOf` renders the name string when needed.
- The library's other calls (`h3ppciPerfGet`, attached devices) are not used by the sampler.

## Findings

| source | as written | input that shows it | evidently intended | confidence | as-written member | corrected member |
|---|---|---|---|---|---|---|
| scripts/BuildHTMLFromJSONFiles.py:138 | `alt = escape(first.get("Description", name))` falls back to `name`, which line 123 has already escaped | a plugin named `AT&T` whose first image has no `Description`: the alt text is `AT&amp;amp;T`, which a browser shows as `AT&amp;T` | fall back to the raw name and escape it once, giving `AT&amp;T` | not executed; high, the double escape follows from the two lines alone | `Catalog.ImageAltDoubleEscapes` | `Catalog.ImageAltDecodes` |
