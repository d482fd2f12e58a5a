/** The catalog script's driver. `collect_plugins` keeps, in file-name order,
    the manifests that load and validate; `build_html` renders one
    table-of-contents row and one card per kept plugin; `main` turns the
    outcome into an exit status. Reading files and writing the page are
    left to the caller: a manifest arrives as `Some(document)` or, when it
    could not be read or parsed, as `None`. */
module Catalog {
  import opened Wrappers
  import opened JsonValues
  import opened Manifest
  import opened HtmlEscape
  import opened Text

  // ---------------------------------------------------------------------
  // collect_plugins

  /** The validator reports no problem for the loaded document. The
      validator is a parameter here; the script's is `Manifest.Validate`. */
  predicate Accepted(doc: Option<Json>, validate: Json -> Validation)
  {
    doc.Some? && validate(doc.value) == Report([])
  }

  /** The validator raises on the loaded document. */
  predicate Raises(doc: Option<Json>, validate: Json -> Validation)
  {
    doc.Some? && validate(doc.value).Raised?
  }

  /** What `collect_plugins` ends with: the kept plugins with the positions
      they came from, or the `TypeError` of the first document that raised. */
  datatype Collection =
    | Collected(plugins: seq<Json>, kept: seq<nat>)
    | Crashed(at: nat, fault: Fault)

  /** `collect_plugins` over the documents of the `*.json` files in sorted
      order: unreadable files and rejected manifests are skipped, and an
      exception of the validator ends the scan. */
  method CollectPlugins(docs: seq<Option<Json>>, validate: Json -> Validation) returns (r: Collection)
    ensures r.Crashed? <==> exists i | 0 <= i < |docs| :: Raises(docs[i], validate)
    ensures r.Crashed? ==>
      && r.at < |docs| && Raises(docs[r.at], validate) && r.fault == validate(docs[r.at].value).fault
      && forall i | 0 <= i < r.at :: !Raises(docs[i], validate)
    ensures r.Collected? ==> |r.plugins| == |r.kept|
    ensures r.Collected? ==> forall j | 0 <= j < |r.kept| :: r.kept[j] < |docs| && docs[r.kept[j]] == Some(r.plugins[j])
    ensures r.Collected? ==> forall j, k | 0 <= j < k < |r.kept| :: r.kept[j] < r.kept[k]
    ensures r.Collected? ==> forall i | 0 <= i < |docs| :: Accepted(docs[i], validate) <==> i in r.kept
  {
    var plugins: seq<Json> := [];
    var kept: seq<nat> := [];
    var i := 0;
    while i < |docs|
      invariant 0 <= i <= |docs|
      invariant |plugins| == |kept|
      invariant forall j | 0 <= j < |kept| :: kept[j] < i && docs[kept[j]] == Some(plugins[j])
      invariant forall j, k | 0 <= j < k < |kept| :: kept[j] < kept[k]
      invariant forall t | 0 <= t < i :: !Raises(docs[t], validate) && (Accepted(docs[t], validate) <==> t in kept)
    {
      if docs[i].Some? {
        var data := docs[i].value;
        var v := validate(data);
        if v.Raised? {
          return Crashed(i, v.fault);
        }
        if v.problems == [] {
          plugins := plugins + [data];
          kept := kept + [i];
        }
      }
      i := i + 1;
    }
    return Collected(plugins, kept);
  }

  /** With the script's validator, the kept documents are exactly the conforming ones. */
  lemma AcceptedIffConforms(doc: Option<Json>)
    ensures Accepted(doc, Validate) <==> doc.Some? && Conforms(doc.value)
  {
    if doc.Some? {
      ValidIffConforms(doc.value);
    }
  }

  // ---------------------------------------------------------------------
  // build_html

  /** The value of a text key that `p.get(key, default)` hands to `escape`:
      the string, or the default when the key is absent. */
  function TextField(m: map<string, Json>, key: string, default: string): string
  {
    if key in m && m[key].JString? then m[key].s else default
  }

  predicate NullAt(m: map<string, Json>, key: string)
  {
    key in m && m[key].JNull?
  }

  /** The entries of `p.get("Images") or []`. */
  function ImagesOf(m: map<string, Json>): seq<Json>
  {
    if "Images" in m && m["Images"].JArray? then m["Images"].items else []
  }

  /** `escape` is handed `None` while the card of a manifest is rendered:
      the validator lets null through for the text keys, and `escape(None)`
      raises `AttributeError`. A null `MinNsightSystemsVersion` does not
      raise: `str(None)` is the text `None`. */
  predicate CardRaises(p: Json)
    requires p.JObject?
  {
    var m := p.fields;
    || NullAt(m, "Company") || NullAt(m, "Name") || NullAt(m, "Description")
    || NullAt(m, "SiteURL") || NullAt(m, "SetupNotes")
    || (|ImagesOf(m)| > 0 && ImagesOf(m)[0].JObject? && NullAt(ImagesOf(m)[0].fields, "Description"))
  }

  function NameOf(p: Json): string
    requires p.JObject?
  {
    TextField(p.fields, "Name", "Unnamed")
  }

  /** `f"plugin-{i}"` */
  function Anchor(i: nat): string
  {
    "plugin-" + IntToString(i)
  }

  /** One row of the table of contents, linking to a card by its anchor. */
  function TocRow(anchor: string, escapedName: string): string
  {
    "        <li><a href=\"#" + anchor + "\">" + escapedName + "</a></li>"
  }

  /** The thumbnail of a card: the image path, used as link and source, and
      the alternative text, both before escaping. */
  datatype Thumb = Thumb(path: string, alt: string)

  /** The values a card is rendered from, before escaping, with the plugin's
      position. Rendering them into markup is not modelled. */
  datatype Card = Card(
    index: nat,
    name: string,
    description: string,
    thumb: Option<Thumb>,
    architectures: string,
    operatingSystems: string,
    minVersion: string,
    setupNotes: string,
    siteUrl: string,
    company: string)

  /** `str(v)` of a text key: `None` for null, `""` when absent. */
  function StrOf(m: map<string, Json>, key: string): string
  {
    if key in m && m[key].JString? then m[key].s
    else if key in m && m[key].JNull? then "None"
    else ""
  }

  /** The strings of a list-valued key, joined by `", "`. */
  function ListText(m: map<string, Json>, key: string): string
  {
    if key in m && m[key].JArray? then Join(StringsOf(m[key].items), ", ") else ""
  }

  function StringsOf(items: seq<Json>): seq<string>
  {
    if |items| == 0 then []
    else (if items[0].JString? then [items[0].s] else []) + StringsOf(items[1..])
  }

  /** The thumbnail of the first image entry, shown when its `Path` is a non-empty string. */
  function ThumbOf(m: map<string, Json>): Option<Thumb>
  {
    var images := ImagesOf(m);
    if |images| == 0 || !images[0].JObject? then None
    else
      var first := images[0].fields;
      var path := TextField(first, "Path", "");
      if path == "" then None else Some(Thumb(path, AltText(FirstDescription(m), NameOf(JObject(m)))))
  }

  /** The `Description` text of the first image entry, if it has one. */
  function FirstDescription(m: map<string, Json>): Option<string>
  {
    var images := ImagesOf(m);
    if |images| == 0 || !images[0].JObject? then None
    else
      var first := images[0].fields;
      if "Description" in first && first["Description"].JString? then Some(first["Description"].s) else None
  }

  /** The card of the `i`-th plugin. */
  function CardOf(i: nat, p: Json): Card
    requires p.JObject?
  {
    var m := p.fields;
    Card(
      i,
      NameOf(p),
      TextField(m, "Description", ""),
      ThumbOf(m),
      ListText(m, "Architectures"),
      ListText(m, "OperatingSystems"),
      StrOf(m, "MinNsightSystemsVersion"),
      TextField(m, "SetupNotes", ""),
      TextField(m, "SiteURL", ""),
      TextField(m, "Company", "Unnamed"))
  }

  /** The page: the rows of the table of contents and the cards, in the order of the plugins. */
  datatype Page = Page(toc: seq<string>, cards: seq<Card>)

  /** The anchor a card is shown under, `f"plugin-{i}"` of its position. */
  function CardAnchor(card: Card): string
  {
    Anchor(card.index)
  }

  /** The table of contents: one row per card, linking to the card's anchor under its escaped name. */
  function TocOf(cards: seq<Card>): (r: seq<string>)
    ensures |r| == |cards|
  {
    seq(|cards|, k requires 0 <= k < |cards| => TocRow(CardAnchor(cards[k]), Escape(cards[k].name)))
  }

  /** `build_html` up to the text of the page: `None` when rendering some card
      raises. Its caller hands it the collected plugins, which conform. */
  method BuildPage(plugins: seq<Json>) returns (r: Option<Page>)
    requires forall i | 0 <= i < |plugins| :: plugins[i].JObject?
    requires forall p | p in plugins :: Conforms(p)
    ensures r.None? <==> exists i | 0 <= i < |plugins| :: CardRaises(plugins[i])
    ensures r.Some? ==> |r.value.cards| == |plugins| && r.value.toc == TocOf(r.value.cards)
    ensures r.Some? ==> forall i | 0 <= i < |plugins| :: r.value.cards[i] == CardOf(i, plugins[i])
  {
    var cards: seq<Card> := [];
    var i := 0;
    while i < |plugins|
      invariant 0 <= i <= |plugins|
      invariant |cards| == i
      invariant forall t | 0 <= t < i :: !CardRaises(plugins[t])
      invariant forall t | 0 <= t < i :: cards[t] == CardOf(t, plugins[t])
    {
      var p := plugins[i];
      if CardRaises(p) {
        return None;
      }
      cards := cards + [CardOf(i, p)];
      i := i + 1;
    }
    return Some(Page(TocOf(cards), cards));
  }

  /** The `i`-th row of a built page links to the `i`-th plugin's anchor, and
      its text decodes to that plugin's name and can neither close the link
      nor start a tag. */
  lemma TocRowOfPlugin(plugins: seq<Json>, page: Page, i: nat)
    requires i < |plugins| == |page.cards| && plugins[i].JObject?
    requires page.toc == TocOf(page.cards) && page.cards[i] == CardOf(i, plugins[i])
    ensures page.toc[i] == TocRow(Anchor(i), Escape(NameOf(plugins[i])))
    ensures Unescape(Escape(NameOf(plugins[i]))) == NameOf(plugins[i])
    ensures forall k | 0 <= k < |Escape(NameOf(plugins[i]))| ::
      Escape(NameOf(plugins[i]))[k] != '<' && Escape(NameOf(plugins[i]))[k] != '"'
  {
    EscapeRoundTrip(NameOf(plugins[i]));
    EscapeHasNoMarkup(NameOf(plugins[i]));
  }

  /** Distinct plugins get distinct anchors, so every row links to its own card. */
  lemma AnchorsDistinct(i: nat, j: nat)
    ensures Anchor(i) == Anchor(j) <==> i == j
  {
    if Anchor(i) == Anchor(j) {
      var n := |"plugin-"|;
      assert Anchor(i)[n..] == IntToString(i);
      assert Anchor(j)[n..] == IntToString(j);
      AtoiIntToString(i);
      AtoiIntToString(j);
    }
  }

  // ---------------------------------------------------------------------
  // The alternative text of a thumbnail

  /** The alternative text as written: `escape(first.get("Description", name))`,
      where `name` already holds the escaped name, so a missing description
      escapes the name twice. */
  function ImageAltAsWritten(description: Option<string>, name: string): string
  {
    Escape(if description.Some? then description.value else Escape(name))
  }

  /** The text the alternative text is meant to show: the description, or else the name. */
  function AltText(description: Option<string>, name: string): string
  {
    if description.Some? then description.value else name
  }

  /** The alternative text as intended: `AltText` escaped once. */
  function ImageAlt(description: Option<string>, name: string): string
  {
    Escape(AltText(description, name))
  }

  /** The intended alternative text decodes to the description, or else to the name. */
  lemma ImageAltDecodes(description: Option<string>, name: string)
    ensures Unescape(ImageAlt(description, name)) == if description.Some? then description.value else name
  {
    EscapeRoundTrip(AltText(description, name));
  }

  /** The two agree exactly when there is a description or the name holds
      none of the four special characters. */
  lemma ImageAltAgreesIff(description: Option<string>, name: string)
    ensures ImageAltAsWritten(description, name) == ImageAlt(description, name) <==>
      description.Some? || Safe(name)
  {
    if description.None? {
      EscapeTwiceIff(name);
    }
  }

  /** A plugin named, say, `AT&T` whose first image entry has no description
      gets the alternative text `AT&amp;amp;T`, which a browser shows as
      `AT&amp;T`; the intended text is `AT&amp;T`, shown as `AT&T`. */
  lemma ImageAltDoubleEscapes(a: string, b: string)
    requires Safe(a) && Safe(b)
    ensures ImageAltAsWritten(None, a + "&" + b) == a + "&amp;amp;" + b
    ensures ImageAlt(None, a + "&" + b) == a + "&amp;" + b
    ensures Unescape(ImageAltAsWritten(None, a + "&" + b)) != a + "&" + b
  {
    EscapeAroundAmpersand(a, b);
    var b' := "amp;" + b;
    assert Safe(b') by {
      assert Safe("amp;");
      assert forall k | 0 <= k < |b'| :: b'[k] == if k < 4 then "amp;"[k] else b[k - 4];
    }
    EscapeAroundAmpersand(a, b');
    assert a + "&" + b' == a + "&amp;" + b;
    assert a + "&amp;" + b' == a + "&amp;amp;" + b;
    EscapeRoundTrip(a + "&amp;" + b);
  }

  /** A card's thumbnail shows the intended alternative text. It is what the
      script writes exactly when the first image has a description or the
      name holds no special character; otherwise the script escapes the
      name twice. */
  lemma ThumbAltVersusScript(m: map<string, Json>)
    requires ThumbOf(m).Some?
    ensures Unescape(Escape(ThumbOf(m).value.alt)) ==
      if FirstDescription(m).Some? then FirstDescription(m).value else NameOf(JObject(m))
    ensures Escape(ThumbOf(m).value.alt) == ImageAltAsWritten(FirstDescription(m), NameOf(JObject(m))) <==>
      FirstDescription(m).Some? || Safe(NameOf(JObject(m)))
  {
    ImageAltDecodes(FirstDescription(m), NameOf(JObject(m)));
    ImageAltAgreesIff(FirstDescription(m), NameOf(JObject(m)));
  }

  /** One `&` between two safe texts is the only character `escape` changes. */
  lemma EscapeAroundAmpersand(a: string, b: string)
    requires Safe(a) && Safe(b)
    ensures Escape(a + "&" + b) == a + "&amp;" + b
  {
    EscapeIsSubstitution(a + "&" + b);
    EscapeCharsAppend(a + "&", b);
    EscapeCharsAppend(a, "&");
    EntitiesOfSafe(a);
    EntitiesOfSafe(b);
  }

  // ---------------------------------------------------------------------
  // main

  /** How the script ends: an exit status, the page written (status 0), or
      an uncaught exception (Python's status 1 with a traceback). */
  datatype Outcome = Exit(code: int) | Wrote(page: Page) | Traceback

  /** The loaded documents the validator accepts, in order: the plugins
      `collect_plugins` returns when no validation raises. */
  function KeptOf(docs: seq<Option<Json>>, validate: Json -> Validation): seq<Json>
  {
    if |docs| == 0 then []
    else (if Accepted(docs[0], validate) then [docs[0].value] else []) + KeptOf(docs[1..], validate)
  }

  /** What `CollectPlugins` promises of a collection it returns. */
  predicate Picks(docs: seq<Option<Json>>, validate: Json -> Validation, plugins: seq<Json>, kept: seq<nat>)
  {
    && |plugins| == |kept|
    && (forall j | 0 <= j < |kept| :: kept[j] < |docs| && docs[kept[j]] == Some(plugins[j]))
    && (forall j, k | 0 <= j < k < |kept| :: kept[j] < kept[k])
    && (forall i | 0 <= i < |docs| :: Accepted(docs[i], validate) <==> i in kept)
  }

  /** A collection with those properties is exactly the accepted documents in order. */
  lemma {:induction false} PicksAreKept(docs: seq<Option<Json>>, validate: Json -> Validation, plugins: seq<Json>, kept: seq<nat>)
    requires Picks(docs, validate, plugins, kept)
    ensures plugins == KeptOf(docs, validate)
    decreases |docs|
  {
    if |docs| > 0 {
      if Accepted(docs[0], validate) {
        PicksFirst(docs, validate, plugins, kept);
        PicksAreKept(docs[1..], validate, plugins[1..], ShiftDown(kept[1..]));
        assert plugins == [docs[0].value] + plugins[1..];
      } else {
        PicksSkip(docs, validate, plugins, kept);
        PicksAreKept(docs[1..], validate, plugins, ShiftDown(kept));
      }
    }
  }

  /** The positions one earlier. */
  function ShiftDown(ks: seq<nat>): (r: seq<nat>)
    requires forall j | 0 <= j < |ks| :: ks[j] > 0
    ensures |r| == |ks| && forall j | 0 <= j < |ks| :: r[j] + 1 == ks[j]
  {
    seq(|ks|, j requires 0 <= j < |ks| => ks[j] - 1)
  }

  /** An accepted first document is the first plugin, and the rest of the
      collection picks from the rest of the documents. */
  lemma PicksFirst(docs: seq<Option<Json>>, validate: Json -> Validation, plugins: seq<Json>, kept: seq<nat>)
    requires Picks(docs, validate, plugins, kept) && |docs| > 0 && Accepted(docs[0], validate)
    ensures 0 < |kept| && kept[0] == 0 && plugins[0] == docs[0].value
    ensures forall j | 0 <= j < |kept[1..]| :: kept[1..][j] > 0
    ensures Picks(docs[1..], validate, plugins[1..], ShiftDown(kept[1..]))
  {
    assert 0 in kept;
    var tail := kept[1..];
    assert forall j | 0 <= j < |tail| :: tail[j] == kept[j + 1] && kept[0] < kept[j + 1];
    PicksShift(docs, validate, plugins[1..], tail);
  }

  /** A rejected first document leaves the collection picking from the rest. */
  lemma PicksSkip(docs: seq<Option<Json>>, validate: Json -> Validation, plugins: seq<Json>, kept: seq<nat>)
    requires Picks(docs, validate, plugins, kept) && |docs| > 0 && !Accepted(docs[0], validate)
    ensures forall j | 0 <= j < |kept| :: kept[j] > 0
    ensures Picks(docs[1..], validate, plugins, ShiftDown(kept))
  {
    assert forall j | 0 <= j < |kept| :: kept[j] != 0;
    PicksShift(docs, validate, plugins, kept);
  }

  /** Positions past the first document, shifted down, pick from the rest. */
  lemma PicksShift(docs: seq<Option<Json>>, validate: Json -> Validation, plugins: seq<Json>, ks: seq<nat>)
    requires |docs| > 0 && |plugins| == |ks|
    requires forall j | 0 <= j < |ks| :: 0 < ks[j] < |docs| && docs[ks[j]] == Some(plugins[j])
    requires forall j, k | 0 <= j < k < |ks| :: ks[j] < ks[k]
    requires forall i | 1 <= i < |docs| :: Accepted(docs[i], validate) <==> i in ks
    ensures Picks(docs[1..], validate, plugins, ShiftDown(ks))
  {
    var rest, r := docs[1..], ShiftDown(ks);
    forall j | 0 <= j < |r| ensures r[j] < |rest| && rest[r[j]] == Some(plugins[j]) {
      assert rest[r[j]] == docs[ks[j]];
    }
    forall i | 0 <= i < |rest| ensures Accepted(rest[i], validate) <==> i in r {
      assert rest[i] == docs[i + 1];
      if i + 1 in ks {
        var j :| 0 <= j < |ks| && ks[j] == i + 1;
        assert r[j] == i;
      }
    }
  }

  /** The page lists `plugins`: card `j` is the card of the `j`-th plugin. */
  predicate Shows(page: Page, plugins: seq<Json>)
  {
    |page.cards| == |plugins| && forall j | 0 <= j < |plugins| :: plugins[j].JObject? && page.cards[j] == CardOf(j, plugins[j])
  }

  predicate AnyAccepted(docs: seq<Option<Json>>, validate: Json -> Validation)
  {
    exists i | 0 <= i < |docs| :: Accepted(docs[i], validate)
  }

  /** The script's validator accepts only conforming manifests. */
  lemma ValidatorConforms()
    ensures forall d | Validate(d) == Report([]) :: d.JObject? && Conforms(d)
  {
    forall d | Validate(d) == Report([]) ensures d.JObject? && Conforms(d) {
      ValidIffConforms(d);
    }
  }

  /** `main`: without `-i` the input path is `None` and resolving it raises;
      otherwise the input must be a directory and an output file must be
      named, and no kept plugin is an error. `inputIsDir` says whether the
      given input path names a directory. A written page lists exactly the
      accepted manifests, and a card that hands `None` to `escape` ends the
      script in a traceback. */
  method Run(inputGiven: bool, inputIsDir: bool, outputGiven: bool, docs: seq<Option<Json>>) returns (r: Outcome)
    ensures !inputGiven ==> r == Traceback
    ensures inputGiven && (!inputIsDir || !outputGiven) ==> r == Exit(1)
    ensures r.Exit? ==> r.code == 1
    ensures inputGiven && inputIsDir && outputGiven && (exists i | 0 <= i < |docs| :: Raises(docs[i], Validate)) ==>
      r == Traceback
    ensures inputGiven && inputIsDir && outputGiven && !AnyAccepted(docs, Validate) ==>
      (forall i | 0 <= i < |docs| :: !Raises(docs[i], Validate)) ==> r == Exit(1)
    ensures inputGiven && inputIsDir && outputGiven && AnyAccepted(docs, Validate) ==>
      (forall i | 0 <= i < |docs| :: !Raises(docs[i], Validate)) ==>
      (forall i | 0 <= i < |docs| && Accepted(docs[i], Validate) :: !CardRaises(docs[i].value)) ==> r.Wrote?
    ensures inputGiven && inputIsDir && outputGiven ==>
      (exists i | 0 <= i < |docs| && Accepted(docs[i], Validate) :: CardRaises(docs[i].value)) ==> r == Traceback
    ensures r.Wrote? ==> inputGiven && inputIsDir && outputGiven && AnyAccepted(docs, Validate) && 0 < |r.page.toc| == |r.page.cards|
    ensures r.Wrote? ==> forall i | 0 <= i < |docs| :: !Raises(docs[i], Validate)
    ensures r.Wrote? ==> Shows(r.page, KeptOf(docs, Validate))
  {
    ValidatorConforms();
    r := RunWith(inputGiven, inputIsDir, outputGiven, docs, Validate);
  }

  /** `main` with the validator as a parameter, for any validator that
      accepts only conforming manifests. */
  method RunWith(inputGiven: bool, inputIsDir: bool, outputGiven: bool, docs: seq<Option<Json>>, validate: Json -> Validation)
    returns (r: Outcome)
    requires forall d | validate(d) == Report([]) :: d.JObject? && Conforms(d)
    ensures !inputGiven ==> r == Traceback
    ensures inputGiven && (!inputIsDir || !outputGiven) ==> r == Exit(1)
    ensures r.Exit? ==> r.code == 1
    ensures inputGiven && inputIsDir && outputGiven && (exists i | 0 <= i < |docs| :: Raises(docs[i], validate)) ==>
      r == Traceback
    ensures inputGiven && inputIsDir && outputGiven && !AnyAccepted(docs, validate) ==>
      (forall i | 0 <= i < |docs| :: !Raises(docs[i], validate)) ==> r == Exit(1)
    ensures inputGiven && inputIsDir && outputGiven && AnyAccepted(docs, validate) ==>
      (forall i | 0 <= i < |docs| :: !Raises(docs[i], validate)) ==>
      (forall i | 0 <= i < |docs| && Accepted(docs[i], validate) :: !CardRaises(docs[i].value)) ==> r.Wrote?
    ensures inputGiven && inputIsDir && outputGiven ==>
      (exists i | 0 <= i < |docs| && Accepted(docs[i], validate) :: CardRaises(docs[i].value)) ==> r == Traceback
    ensures r.Wrote? ==> inputGiven && inputIsDir && outputGiven && AnyAccepted(docs, validate) && 0 < |r.page.toc| == |r.page.cards|
    ensures r.Wrote? ==> forall i | 0 <= i < |docs| :: !Raises(docs[i], validate)
    ensures r.Wrote? ==> Shows(r.page, KeptOf(docs, validate))
  {
    if !inputGiven {
      return Traceback;
    }
    if !inputIsDir || !outputGiven {
      return Exit(1);
    }
    var c := CollectPlugins(docs, validate);
    if c.Crashed? {
      return Traceback;
    }
    if |c.plugins| == 0 {
      return Exit(1);
    }
    assert Accepted(docs[c.kept[0]], validate);
    forall j | 0 <= j < |c.plugins|
      ensures c.plugins[j].JObject? && Conforms(c.plugins[j])
    {
      assert Accepted(docs[c.kept[j]], validate);
    }
    PicksAreKept(docs, validate, c.plugins, c.kept);
    var page := BuildPage(c.plugins);
    if page.None? {
      return Traceback;
    }
    forall i | 0 <= i < |docs| && Accepted(docs[i], validate) ensures docs[i].value.JObject? && !CardRaises(docs[i].value) {
      var j :| 0 <= j < |c.kept| && c.kept[j] == i;
      assert c.plugins[j] == docs[i].value;
    }
    return Wrote(page.value);
  }
}
