/** The plugin-manifest validator of the catalog script: the checks that
    `validate_plugin_json` makes on one parsed JSON document, in the order it
    makes them. Each problem it reports is a tag here; the English message
    text is not modelled. Two Python behaviours are kept: `bool` is a kind of
    `int`, and building `set(val)` or `sorted(invalid)` can raise `TypeError`,
    which escapes the validator instead of being reported. */
module Manifest {
  import opened JsonValues
  import opened Seqs
  import opened Wrappers

  const RequiredKeys: seq<string> :=
    ["SchemaVersion", "Name", "Description", "Company", "SiteURL", "Architectures", "OperatingSystems"]
  const ValidArchitectures: set<string> := {"x64", "aarch64"}
  const ValidOperatingSystems: set<string> := {"Windows", "Linux"}

  /** Keys checked for "null or string" before the arrays, and after the images. */
  const EarlyStringKeys: seq<string> := ["Name", "Description", "Company", "SiteURL"]
  const LateStringKeys: seq<string> := ["MinNsightSystemsVersion", "SetupNotes"]

  datatype Problem =
    | RootNotObject
    | MissingKey(key: string)
    | SchemaVersionNotOne
    | NotString(key: string)
    | NotArray(key: string)
    | ItemNotString(key: string, index: nat)
    | ItemsNotAllowed(key: string)
    | ImagesNotArray
    | ImageNotObject(index: nat)
    | ImagePathNotString(index: nat)
    | ImageDescriptionNotString(index: nat)

  /** The `TypeError`s Python raises while validating. */
  datatype Fault =
    | UnhashableItem(key: string)   // `set(val)` met a list or a dict
    | UnorderableItems(key: string) // `sorted(invalid)` compared, say, a str with an int

  /** What a call of the validator ends with: the list it returns, or an exception. */
  datatype Validation = Report(problems: seq<Problem>) | Raised(fault: Fault)

  // ---------------------------------------------------------------------
  // The sections of the report, in order

  function MissingKeys(m: map<string, Json>, keys: seq<string>): (r: seq<Problem>)
    ensures forall p | p in r :: p.MissingKey? && p.key in keys && p.key !in m
    ensures forall i | 0 <= i < |keys| && keys[i] !in m :: MissingKey(keys[i]) in r
    ensures Distinct(keys) ==> Distinct(r)
  {
    if |keys| == 0 then []
    else
      var rest := MissingKeys(m, keys[1..]);
      assert Distinct(keys) ==> Distinct(keys[1..]) && keys[0] !in keys[1..] by {
        if Distinct(keys) {
          forall a, b | 0 <= a < b < |keys[1..]| ensures keys[1..][a] != keys[1..][b] {
            assert keys[1..][a] == keys[a + 1] && keys[1..][b] == keys[b + 1];
          }
          forall k | 0 <= k < |keys[1..]| ensures keys[1..][k] != keys[0] {
            assert keys[1..][k] == keys[k + 1];
          }
        }
      }
      assert forall i | 1 <= i < |keys| :: keys[i] == keys[1..][i - 1];
      var head := if keys[0] in m then [] else [MissingKey(keys[0])];
      assert Distinct(keys) ==> Distinct(head + rest) by {
        if Distinct(keys) { DistinctAppend(head, rest); }
      }
      head + rest
  }

  /** `isinstance(v, int) and v == 1`: true for `1` and for `True`. */
  predicate IsIntOne(v: Json)
  {
    v == JInt(1) || v == JBool(true)
  }

  function SchemaVersionProblems(m: map<string, Json>): seq<Problem>
  {
    if "SchemaVersion" in m && !IsIntOne(m["SchemaVersion"]) then [SchemaVersionNotOne] else []
  }

  function StringProblems(m: map<string, Json>, keys: seq<string>): (r: seq<Problem>)
    ensures forall p | p in r :: p.NotString? && p.key in keys && p.key in m && !IsStrOrNone(m[p.key])
    ensures forall i | 0 <= i < |keys| && keys[i] in m && !IsStrOrNone(m[keys[i]]) :: NotString(keys[i]) in r
    ensures Distinct(keys) ==> Distinct(r)
  {
    if |keys| == 0 then []
    else
      var rest := StringProblems(m, keys[1..]);
      assert Distinct(keys) ==> Distinct(keys[1..]) && keys[0] !in keys[1..] by {
        if Distinct(keys) {
          forall a, b | 0 <= a < b < |keys[1..]| ensures keys[1..][a] != keys[1..][b] {
            assert keys[1..][a] == keys[a + 1] && keys[1..][b] == keys[b + 1];
          }
          forall k | 0 <= k < |keys[1..]| ensures keys[1..][k] != keys[0] {
            assert keys[1..][k] == keys[k + 1];
          }
        }
      }
      assert forall i | 1 <= i < |keys| :: keys[i] == keys[1..][i - 1];
      var head := if keys[0] in m && !IsStrOrNone(m[keys[0]]) then [NotString(keys[0])] else [];
      assert Distinct(keys) ==> Distinct(head + rest) by {
        if Distinct(keys) { DistinctAppend(head, rest); }
      }
      head + rest
  }

  /** The per-item loop: one problem for each item at index `from` or later that is not a string. */
  function ItemProblems(key: string, items: seq<Json>, from: nat): (r: seq<Problem>)
    requires from <= |items|
    ensures forall p | p in r ::
      p.ItemNotString? && p.key == key && from <= p.index < |items| && !IsStr(items[p.index])
    ensures forall i | from <= i < |items| && !IsStr(items[i]) :: ItemNotString(key, i) in r
    ensures Distinct(r)
    decreases |items| - from
  {
    if from == |items| then []
    else
      var rest := ItemProblems(key, items, from + 1);
      var head := if IsStr(items[from]) then [] else [ItemNotString(key, from)];
      DistinctAppend(head, rest);
      head + rest
  }

  /** The item is outside the allowed set: Python's `x in allowed` holds only for equal strings. */
  predicate Disallowed(v: Json, allowed: set<string>)
  {
    !(v.JString? && v.s in allowed)
  }

  predicate HasUnhashable(items: seq<Json>)
  {
    exists i | 0 <= i < |items| :: !Hashable(items[i])
  }

  predicate HasDisallowed(items: seq<Json>, allowed: set<string>)
  {
    exists i | 0 <= i < |items| :: Disallowed(items[i], allowed)
  }

  /** `sorted(invalid)` fails: two invalid items fall in groups Python cannot compare. */
  predicate MixedDisallowed(items: seq<Json>, allowed: set<string>)
    requires !HasUnhashable(items)
  {
    exists i, j | 0 <= i < |items| && 0 <= j < |items| ::
      Disallowed(items[i], allowed) && Disallowed(items[j], allowed) && GroupOf(items[i]) != GroupOf(items[j])
  }

  /** Building `set(items)` or sorting the invalid ones raises `TypeError`. */
  predicate ListRaises(items: seq<Json>, allowed: set<string>)
  {
    HasUnhashable(items) || MixedDisallowed(items, allowed)
  }

  /** A problem the array section for `key` can report. */
  predicate IsArrayProblem(p: Problem, key: string)
  {
    (p.NotArray? || p.ItemNotString? || p.ItemsNotAllowed?) && p.key == key
  }

  /** The checks on the value of `Architectures` or `OperatingSystems` once it is a list. */
  function ListCheck(key: string, items: seq<Json>, allowed: set<string>): (v: Validation)
    ensures v.Raised? <==> ListRaises(items, allowed)
    ensures v.Raised? ==> v.fault.key == key
    ensures v.Report? ==> Distinct(v.problems)
    ensures v.Report? ==> forall p | p in v.problems :: IsArrayProblem(p, key) && !p.NotArray?
    ensures v.Report? ==> forall i: nat ::
      ItemNotString(key, i) in v.problems <==> i < |items| && !IsStr(items[i])
    ensures v.Report? ==> (ItemsNotAllowed(key) in v.problems <==> HasDisallowed(items, allowed))
  {
    var itemProblems := ItemProblems(key, items, 0);
    if HasUnhashable(items) then Raised(UnhashableItem(key))
    else if !HasDisallowed(items, allowed) then Report(itemProblems)
    else if MixedDisallowed(items, allowed) then Raised(UnorderableItems(key))
    else
      DistinctAppend(itemProblems, [ItemsNotAllowed(key)]);
      Report(itemProblems + [ItemsNotAllowed(key)])
  }

  /** The whole section for one of the two list-valued keys. */
  function ArrayKeyCheck(m: map<string, Json>, key: string, allowed: set<string>): (v: Validation)
    ensures v.Raised? <==> key in m && m[key].JArray? && ListRaises(m[key].items, allowed)
    ensures v.Raised? ==> v.fault.key == key
    ensures v.Report? ==> Distinct(v.problems)
    ensures v.Report? ==> forall p | p in v.problems :: IsArrayProblem(p, key)
    ensures v.Report? ==> (NotArray(key) in v.problems <==> key in m && !m[key].JArray?)
    ensures v.Report? ==> forall i: nat ::
      ItemNotString(key, i) in v.problems <==> key in m && m[key].JArray? && i < |m[key].items| && !IsStr(m[key].items[i])
    ensures v.Report? ==>
      (ItemsNotAllowed(key) in v.problems <==> key in m && m[key].JArray? && HasDisallowed(m[key].items, allowed))
  {
    if key !in m then Report([])
    else if !m[key].JArray? then Report([NotArray(key)])
    else ListCheck(key, m[key].items, allowed)
  }

  /** An `Images` entry that is not an object, or whose non-null `Path` or
      `Description` is not a string. */
  predicate EntryNotObject(e: Json) { !e.JObject? }

  predicate EntryBadField(e: Json, field: string)
  {
    e.JObject? && field in e.fields && !IsStrOrNone(e.fields[field])
  }

  /** The checks on the entries of `Images` from index `from` on. */
  function EntryProblems(entries: seq<Json>, from: nat): (r: seq<Problem>)
    requires from <= |entries|
    ensures forall p | p in r :: IsImageProblem(p) && !p.ImagesNotArray?
    ensures forall i: nat :: ImageNotObject(i) in r <==> from <= i < |entries| && EntryNotObject(entries[i])
    ensures forall i: nat :: ImagePathNotString(i) in r <==> from <= i < |entries| && EntryBadField(entries[i], "Path")
    ensures forall i: nat ::
      ImageDescriptionNotString(i) in r <==> from <= i < |entries| && EntryBadField(entries[i], "Description")
    ensures Distinct(r)
    decreases |entries| - from
  {
    if from == |entries| then []
    else
      var rest := EntryProblems(entries, from + 1);
      var head := EntryCheck(entries[from], from);
      EntriesJoin(entries, from, head, rest);
      head + rest
  }

  /** The problems of entry `from` followed by those of the later entries are
      the problems of the entries from `from` on. */
  lemma EntriesJoin(entries: seq<Json>, from: nat, head: seq<Problem>, rest: seq<Problem>)
    requires from < |entries|
    requires forall p | p in head :: IsImageProblem(p) && !p.ImagesNotArray? && ImageIndex(p) == from
    requires ImageNotObject(from) in head <==> EntryNotObject(entries[from])
    requires ImagePathNotString(from) in head <==> EntryBadField(entries[from], "Path")
    requires ImageDescriptionNotString(from) in head <==> EntryBadField(entries[from], "Description")
    requires Distinct(head)
    requires forall p | p in rest :: IsImageProblem(p) && !p.ImagesNotArray?
    requires forall i: nat :: ImageNotObject(i) in rest <==> from + 1 <= i < |entries| && EntryNotObject(entries[i])
    requires forall i: nat :: ImagePathNotString(i) in rest <==> from + 1 <= i < |entries| && EntryBadField(entries[i], "Path")
    requires forall i: nat ::
      ImageDescriptionNotString(i) in rest <==> from + 1 <= i < |entries| && EntryBadField(entries[i], "Description")
    requires Distinct(rest)
    ensures forall p | p in head + rest :: IsImageProblem(p) && !p.ImagesNotArray?
    ensures forall i: nat :: ImageNotObject(i) in head + rest <==> from <= i < |entries| && EntryNotObject(entries[i])
    ensures forall i: nat :: ImagePathNotString(i) in head + rest <==> from <= i < |entries| && EntryBadField(entries[i], "Path")
    ensures forall i: nat ::
      ImageDescriptionNotString(i) in head + rest <==> from <= i < |entries| && EntryBadField(entries[i], "Description")
    ensures Distinct(head + rest)
  {
    assert forall p | p in rest :: ImageIndex(p) > from;
    DistinctAppend(head, rest);
  }

  /** The checks on the entry at index `i` of `Images`. */
  function EntryCheck(e: Json, i: nat): (r: seq<Problem>)
    ensures forall p | p in r :: IsImageProblem(p) && !p.ImagesNotArray? && ImageIndex(p) == i
    ensures ImageNotObject(i) in r <==> EntryNotObject(e)
    ensures ImagePathNotString(i) in r <==> EntryBadField(e, "Path")
    ensures ImageDescriptionNotString(i) in r <==> EntryBadField(e, "Description")
    ensures Distinct(r)
  {
    if !e.JObject? then [ImageNotObject(i)]
    else
      (if EntryBadField(e, "Path") then [ImagePathNotString(i)] else [])
      + (if EntryBadField(e, "Description") then [ImageDescriptionNotString(i)] else [])
  }

  /** The entry index an image problem is about; -1 for other problems. */
  function ImageIndex(p: Problem): int
  {
    match p
    case ImageNotObject(i) => i
    case ImagePathNotString(i) => i
    case ImageDescriptionNotString(i) => i
    case _ => -1
  }

  predicate IsImageProblem(p: Problem)
  {
    p.ImagesNotArray? || p.ImageNotObject? || p.ImagePathNotString? || p.ImageDescriptionNotString?
  }

  function ImageProblems(m: map<string, Json>): (r: seq<Problem>)
    ensures forall p | p in r :: IsImageProblem(p)
    ensures Distinct(r)
  {
    if "Images" !in m then []
    else if !m["Images"].JArray? then [ImagesNotArray]
    else EntryProblems(m["Images"].items, 0)
  }

  // ---------------------------------------------------------------------
  // The validator

  /** `validate_plugin_json(data)` */
  function Validate(doc: Json): Validation
  {
    if !doc.JObject? then Report([RootNotObject])
    else
      var m := doc.fields;
      var archs := ArrayKeyCheck(m, "Architectures", ValidArchitectures);
      var oses := ArrayKeyCheck(m, "OperatingSystems", ValidOperatingSystems);
      if archs.Raised? then archs
      else if oses.Raised? then oses
      else Report(Sections(m, archs.problems, oses.problems))
  }

  /** The report of an object document, section by section. */
  function Sections(m: map<string, Json>, archs: seq<Problem>, oses: seq<Problem>): seq<Problem>
  {
    MissingKeys(m, RequiredKeys) + SchemaVersionProblems(m) + StringProblems(m, EarlyStringKeys)
      + archs + oses + ImageProblems(m) + StringProblems(m, LateStringKeys)
  }

  // ---------------------------------------------------------------------
  // The manifest format, stated key by key

  const ArrayKeys: seq<string> := ["Architectures", "OperatingSystems"]
  const StringKeys: seq<string> := EarlyStringKeys + LateStringKeys

  function AllowedFor(key: string): set<string>
  {
    if key == "Architectures" then ValidArchitectures else ValidOperatingSystems
  }

  /** A list whose every item is one of the allowed strings. */
  predicate ListOf(v: Json, allowed: set<string>)
  {
    v.JArray? && forall i | 0 <= i < |v.items| :: v.items[i].JString? && v.items[i].s in allowed
  }

  /** A list of objects whose `Path` and `Description`, when present, are null or strings. */
  predicate ImagesWellFormed(v: Json)
  {
    v.JArray? && forall i | 0 <= i < |v.items| ::
      !EntryNotObject(v.items[i]) && !EntryBadField(v.items[i], "Path") && !EntryBadField(v.items[i], "Description")
  }

  /** A manifest the catalog accepts: an object with every required key, a
      `SchemaVersion` equal to the integer 1, the six text keys null or
      strings, both lists made of allowed strings only, and an optional
      well-formed `Images` list. */
  predicate Conforms(doc: Json)
  {
    && doc.JObject?
    && (forall k | k in RequiredKeys :: k in doc.fields)
    && ("SchemaVersion" in doc.fields ==> IsIntOne(doc.fields["SchemaVersion"]))
    && (forall k | k in StringKeys && k in doc.fields :: IsStrOrNone(doc.fields[k]))
    && (forall k | k in ArrayKeys && k in doc.fields :: ListOf(doc.fields[k], AllowedFor(k)))
    && ("Images" in doc.fields ==> ImagesWellFormed(doc.fields["Images"]))
  }

  lemma ArrayProblemShape(p: Problem, key: string)
    requires IsArrayProblem(p, key)
    ensures p == NotArray(key) || p == ItemsNotAllowed(key) || (p.ItemNotString? && p == ItemNotString(key, p.index))
  {
  }

  lemma ImageProblemShape(p: Problem)
    requires IsImageProblem(p) && !p.ImagesNotArray?
    ensures ImageIndex(p) >= 0
    ensures p == ImageNotObject(ImageIndex(p)) || p == ImagePathNotString(ImageIndex(p))
      || p == ImageDescriptionNotString(ImageIndex(p))
  {
  }

  lemma ArrayKeyClean(m: map<string, Json>, key: string, allowed: set<string>)
    ensures ArrayKeyCheck(m, key, allowed) == Report([]) <==> (key in m ==> ListOf(m[key], allowed))
  {
    var v := ArrayKeyCheck(m, key, allowed);
    if key in m && ListOf(m[key], allowed) {
      var items := m[key].items;
      assert !HasUnhashable(items);
      assert !HasDisallowed(items, allowed);
      assert v.Report?;
      if |v.problems| > 0 {
        var p := v.problems[0];
        ArrayProblemShape(p, key);
        assert false;
      }
    }
    if v == Report([]) && key in m {
      assert m[key].JArray?;
      var items := m[key].items;
      forall i | 0 <= i < |items| ensures items[i].JString? && items[i].s in allowed {
        assert !(ItemNotString(key, i) in v.problems);
        assert !Disallowed(items[i], allowed);
      }
    }
  }

  lemma EntriesClean(entries: seq<Json>)
    ensures EntryProblems(entries, 0) == [] <==> ImagesWellFormed(JArray(entries))
  {
    var r := EntryProblems(entries, 0);
    if ImagesWellFormed(JArray(entries)) && |r| > 0 {
      var p := r[0];
      ImageProblemShape(p);
      assert false;
    }
    if r == [] {
      forall i | 0 <= i < |entries|
        ensures !EntryNotObject(entries[i]) && !EntryBadField(entries[i], "Path")
        ensures !EntryBadField(entries[i], "Description")
      {
        assert ImageNotObject(i) !in r;
        assert ImagePathNotString(i) !in r;
        assert ImageDescriptionNotString(i) !in r;
      }
    }
  }

  lemma MissingKeysClean(m: map<string, Json>)
    ensures MissingKeys(m, RequiredKeys) == [] <==> forall k | k in RequiredKeys :: k in m
  {
    var missing := MissingKeys(m, RequiredKeys);
    if missing != [] {
      assert missing[0] in missing;
    }
  }

  lemma StringKeysClean(m: map<string, Json>)
    ensures StringProblems(m, EarlyStringKeys) + StringProblems(m, LateStringKeys) == []
      <==> forall k | k in StringKeys && k in m :: IsStrOrNone(m[k])
  {
    var early := StringProblems(m, EarlyStringKeys);
    var late := StringProblems(m, LateStringKeys);
    if early != [] {
      assert early[0] in early;
    }
    if late != [] {
      assert late[0] in late;
    }
    forall k | k in StringKeys
      ensures k in EarlyStringKeys || k in LateStringKeys
    {
    }
  }

  /** An object's report is empty exactly when nothing raised and every section is empty. */
  lemma ReportEmptyIff(doc: Json)
    requires doc.JObject?
    ensures Validate(doc) == Report([]) <==>
      && ArrayKeyCheck(doc.fields, "Architectures", ValidArchitectures) == Report([])
      && ArrayKeyCheck(doc.fields, "OperatingSystems", ValidOperatingSystems) == Report([])
      && MissingKeys(doc.fields, RequiredKeys) == []
      && SchemaVersionProblems(doc.fields) == []
      && StringProblems(doc.fields, EarlyStringKeys) + StringProblems(doc.fields, LateStringKeys) == []
      && ImageProblems(doc.fields) == []
  {
  }

  lemma ArrayKeysClause(m: map<string, Json>)
    ensures (forall k | k in ArrayKeys && k in m :: ListOf(m[k], AllowedFor(k))) <==>
      ("Architectures" in m ==> ListOf(m["Architectures"], ValidArchitectures)) &&
      ("OperatingSystems" in m ==> ListOf(m["OperatingSystems"], ValidOperatingSystems))
  {
    assert forall k | k in ArrayKeys :: k == "Architectures" || k == "OperatingSystems";
  }

  /** The validator returns an empty list exactly for the documents that
      conform to the manifest format. */
  lemma ValidIffConforms(doc: Json)
    ensures Validate(doc) == Report([]) <==> Conforms(doc)
  {
    if doc.JObject? {
      ReportEmptyIff(doc);
      SectionsCleanIffConforms(doc.fields);
    }
  }

  /** Every section of an object's report is empty exactly when the object conforms. */
  lemma SectionsCleanIffConforms(m: map<string, Json>)
    ensures
      (&& ArrayKeyCheck(m, "Architectures", ValidArchitectures) == Report([])
       && ArrayKeyCheck(m, "OperatingSystems", ValidOperatingSystems) == Report([])
       && MissingKeys(m, RequiredKeys) == []
       && SchemaVersionProblems(m) == []
       && StringProblems(m, EarlyStringKeys) + StringProblems(m, LateStringKeys) == []
       && ImageProblems(m) == [])
      <==> Conforms(JObject(m))
  {
    ArrayKeyClean(m, "Architectures", ValidArchitectures);
    ArrayKeyClean(m, "OperatingSystems", ValidOperatingSystems);
    MissingKeysClean(m);
    StringKeysClean(m);
    ArrayKeysClause(m);
    ImagesClean(m);
    SchemaClean(m);
  }

  lemma ImagesClean(m: map<string, Json>)
    ensures ImageProblems(m) == [] <==> ("Images" in m ==> ImagesWellFormed(m["Images"]))
  {
    if "Images" in m && m["Images"].JArray? {
      EntriesClean(m["Images"].items);
    }
  }

  lemma SchemaClean(m: map<string, Json>)
    ensures SchemaVersionProblems(m) == [] <==> ("SchemaVersion" in m ==> IsIntOne(m["SchemaVersion"]))
  {
  }

  // ---------------------------------------------------------------------
  // What the report of an object document holds

  /** The two sections that can raise, as `Validate` computes them. */
  function ArchsOf(m: map<string, Json>): Validation
  {
    ArrayKeyCheck(m, "Architectures", ValidArchitectures)
  }

  function OsesOf(m: map<string, Json>): Validation
  {
    ArrayKeyCheck(m, "OperatingSystems", ValidOperatingSystems)
  }

  /** Validation raises exactly when one of the two lists holds a list or a
      dict, or holds invalid items that Python cannot sort together. */
  lemma RaisedIff(doc: Json)
    ensures Validate(doc).Raised? <==>
      doc.JObject? && exists k | k in ArrayKeys ::
        k in doc.fields && doc.fields[k].JArray? && ListRaises(doc.fields[k].items, AllowedFor(k))
  {
    if doc.JObject? {
      assert forall k | k in ArrayKeys :: k == "Architectures" || k == "OperatingSystems";
      assert "Architectures" in ArrayKeys && "OperatingSystems" in ArrayKeys;
    }
  }

  /** The section of the report a problem can only come from: 1 for missing
      keys, 2 for `SchemaVersion`, 3 for the early text keys, 4 and 5 for the
      two lists, 6 for `Images`, 7 for the late text keys. */
  function Rank(p: Problem): nat
  {
    match p
    case RootNotObject => 0
    case MissingKey(_) => 1
    case SchemaVersionNotOne => 2
    case NotString(k) => if k in LateStringKeys then 7 else 3
    case NotArray(k) => ListRank(k)
    case ItemNotString(k, _) => ListRank(k)
    case ItemsNotAllowed(k) => ListRank(k)
    case ImagesNotArray => 6
    case ImageNotObject(_) => 6
    case ImagePathNotString(_) => 6
    case ImageDescriptionNotString(_) => 6
  }

  function ListRank(key: string): nat
  {
    if key == "Architectures" then 4 else 5
  }

  ghost predicate Ranked(s: seq<Problem>, r: nat)
  {
    forall p | p in s :: Rank(p) == r
  }

  /** Each section holds problems of its own rank only. */
  lemma SectionsRanked(m: map<string, Json>)
    ensures Ranked(MissingKeys(m, RequiredKeys), 1)
    ensures Ranked(SchemaVersionProblems(m), 2)
    ensures Ranked(StringProblems(m, EarlyStringKeys), 3)
    ensures ArchsOf(m).Report? ==> Ranked(ArchsOf(m).problems, 4)
    ensures OsesOf(m).Report? ==> Ranked(OsesOf(m).problems, 5)
    ensures Ranked(ImageProblems(m), 6)
    ensures Ranked(StringProblems(m, LateStringKeys), 7)
  {
    MissingRanked(m);
    SchemaRanked(m);
    EarlyRanked(m);
    ArrayRanked(m);
    ImagesRanked(m);
    LateRanked(m);
  }

  lemma MissingRanked(m: map<string, Json>)
    ensures Ranked(MissingKeys(m, RequiredKeys), 1)
  {
  }

  lemma SchemaRanked(m: map<string, Json>)
    ensures Ranked(SchemaVersionProblems(m), 2)
  {
  }

  lemma ImagesRanked(m: map<string, Json>)
    ensures Ranked(ImageProblems(m), 6)
  {
  }

  lemma EarlyRanked(m: map<string, Json>)
    ensures Ranked(StringProblems(m, EarlyStringKeys), 3)
  {
    forall p | p in StringProblems(m, EarlyStringKeys) ensures Rank(p) == 3 {
      EarlyNotLate(p.key);
    }
  }

  /** No key is checked both early and late: their lengths already differ. */
  lemma EarlyNotLate(k: string)
    requires k in EarlyStringKeys
    ensures k !in LateStringKeys
  {
    assert |k| == 4 || |k| == 11 || |k| == 7;
    assert forall l | l in LateStringKeys :: |l| == 23 || |l| == 10;
  }

  lemma LateRanked(m: map<string, Json>)
    ensures Ranked(StringProblems(m, LateStringKeys), 7)
  {
  }

  lemma ArrayRanked(m: map<string, Json>)
    ensures ArchsOf(m).Report? ==> Ranked(ArchsOf(m).problems, 4)
    ensures OsesOf(m).Report? ==> Ranked(OsesOf(m).problems, 5)
  {
  }

  /** A problem of rank `j` is in the report exactly when it is in section `j`. */
  lemma PickSection(s1: seq<Problem>, s2: seq<Problem>, s3: seq<Problem>, s4: seq<Problem>,
                    s5: seq<Problem>, s6: seq<Problem>, s7: seq<Problem>, x: Problem)
    requires Ranked(s1, 1) && Ranked(s2, 2) && Ranked(s3, 3) && Ranked(s4, 4)
    requires Ranked(s5, 5) && Ranked(s6, 6) && Ranked(s7, 7)
    ensures x in s1 + s2 + s3 + s4 + s5 + s6 + s7 <==>
      (x in s1 && Rank(x) == 1) || (x in s2 && Rank(x) == 2) || (x in s3 && Rank(x) == 3)
      || (x in s4 && Rank(x) == 4) || (x in s5 && Rank(x) == 5) || (x in s6 && Rank(x) == 6)
      || (x in s7 && Rank(x) == 7)
  {
  }

  /** Sections of distinct ranks, each free of repetitions, join without repetitions. */
  lemma RankedDistinct(s1: seq<Problem>, s2: seq<Problem>, s3: seq<Problem>, s4: seq<Problem>,
                       s5: seq<Problem>, s6: seq<Problem>, s7: seq<Problem>)
    requires Ranked(s1, 1) && Ranked(s2, 2) && Ranked(s3, 3) && Ranked(s4, 4)
    requires Ranked(s5, 5) && Ranked(s6, 6) && Ranked(s7, 7)
    requires Distinct(s1) && Distinct(s2) && Distinct(s3) && Distinct(s4)
    requires Distinct(s5) && Distinct(s6) && Distinct(s7)
    ensures Distinct(s1 + s2 + s3 + s4 + s5 + s6 + s7)
  {
    var t6 := s6 + s7;
    DistinctAppend(s6, s7);
    var t5 := s5 + t6;
    DistinctAppend(s5, t6);
    var t4 := s4 + t5;
    DistinctAppend(s4, t5);
    var t3 := s3 + t4;
    DistinctAppend(s3, t4);
    var t2 := s2 + t3;
    DistinctAppend(s2, t3);
    DistinctAppend(s1, t2);
    assert s1 + s2 + s3 + s4 + s5 + s6 + s7 == s1 + t2;
  }

  /** The key lists name each key once. */
  lemma KeyListsDistinct()
    ensures Distinct(RequiredKeys) && Distinct(EarlyStringKeys) && Distinct(LateStringKeys)
  {
  }

  /** The report of an object document whose two lists do not raise. */
  function ReportOf(m: map<string, Json>): seq<Problem>
    requires ArchsOf(m).Report? && OsesOf(m).Report?
  {
    Sections(m, ArchsOf(m).problems, OsesOf(m).problems)
  }

  lemma ReportIsSections(doc: Json)
    requires doc.JObject? && Validate(doc).Report?
    ensures ArchsOf(doc.fields).Report? && OsesOf(doc.fields).Report?
    ensures Validate(doc).problems == ReportOf(doc.fields)
  {
  }

  lemma ArrayKeysAre(k: string)
    ensures k in ArrayKeys <==> k == "Architectures" || k == "OperatingSystems"
  {
  }

  /** The sections join without repetitions. */
  lemma SectionsDistinct(m: map<string, Json>)
    requires ArchsOf(m).Report? && OsesOf(m).Report?
    ensures Distinct(ReportOf(m))
  {
    SectionsRanked(m);
    KeyListsDistinct();
    RankedDistinct(MissingKeys(m, RequiredKeys), SchemaVersionProblems(m), StringProblems(m, EarlyStringKeys),
      ArchsOf(m).problems, OsesOf(m).problems, ImageProblems(m), StringProblems(m, LateStringKeys));
  }

  /** Reports are free of repetitions. */
  lemma ReportDistinct(doc: Json)
    requires Validate(doc).Report?
    ensures Distinct(Validate(doc).problems)
  {
    if doc.JObject? {
      ReportIsSections(doc);
      SectionsDistinct(doc.fields);
    }
  }

  /** Section `j` of the report, counted from 1. */
  function SectionAt(m: map<string, Json>, j: nat): seq<Problem>
    requires ArchsOf(m).Report? && OsesOf(m).Report?
  {
    match j
    case 1 => MissingKeys(m, RequiredKeys)
    case 2 => SchemaVersionProblems(m)
    case 3 => StringProblems(m, EarlyStringKeys)
    case 4 => ArchsOf(m).problems
    case 5 => OsesOf(m).problems
    case 6 => ImageProblems(m)
    case 7 => StringProblems(m, LateStringKeys)
    case _ => []
  }

  /** Problem `x` is in the report exactly when the section of its rank holds it. */
  lemma InSection(m: map<string, Json>, x: Problem)
    requires ArchsOf(m).Report? && OsesOf(m).Report?
    ensures x in ReportOf(m) <==> x in SectionAt(m, Rank(x))
  {
    SectionsRanked(m);
    PickSection(MissingKeys(m, RequiredKeys), SchemaVersionProblems(m), StringProblems(m, EarlyStringKeys),
      ArchsOf(m).problems, OsesOf(m).problems, ImageProblems(m), StringProblems(m, LateStringKeys), x);
  }

  /** A root that is not an object gets exactly one problem, and only such a
      root gets that problem. */
  lemma RootReported(doc: Json)
    ensures !doc.JObject? ==> Validate(doc) == Report([RootNotObject])
    ensures Validate(doc).Report? && RootNotObject in Validate(doc).problems ==> !doc.JObject?
  {
    if doc.JObject? && Validate(doc).Report? {
      ReportIsSections(doc);
      InSection(doc.fields, RootNotObject);
    }
  }

  // The lemmas below describe the list of problems of an object, so they say
  // nothing when validating it raises instead (see `RaisedIff`).

  /** Each absent required key is reported; nothing else is reported missing. */
  lemma MissingKeyReported(doc: Json, k: string)
    requires doc.JObject?
    ensures Validate(doc).Report? ==>
      (MissingKey(k) in Validate(doc).problems <==> k in RequiredKeys && k !in doc.fields)
  {
    if Validate(doc).Report? {
      ReportIsSections(doc);
      var m := doc.fields;
      InSection(m, MissingKey(k));
      if k in RequiredKeys && k !in m {
        var i :| 0 <= i < |RequiredKeys| && RequiredKeys[i] == k;
        assert MissingKey(RequiredKeys[i]) in MissingKeys(m, RequiredKeys);
      }
    }
  }

  /** A present `SchemaVersion` other than the integer 1 (or `True`) is reported. */
  lemma SchemaVersionReported(doc: Json)
    requires doc.JObject?
    ensures Validate(doc).Report? ==>
      (SchemaVersionNotOne in Validate(doc).problems <==>
        "SchemaVersion" in doc.fields && doc.fields["SchemaVersion"] != JInt(1) && doc.fields["SchemaVersion"] != JBool(true))
  {
    if Validate(doc).Report? {
      ReportIsSections(doc);
      InSection(doc.fields, SchemaVersionNotOne);
    }
  }

  /** A text key holding anything but null or a string is reported. */
  lemma StringKeyReported(doc: Json, k: string)
    requires doc.JObject?
    ensures Validate(doc).Report? ==>
      (NotString(k) in Validate(doc).problems <==>
        k in StringKeys && k in doc.fields && !IsStrOrNone(doc.fields[k]))
  {
    if Validate(doc).Report? {
      ReportIsSections(doc);
      InSection(doc.fields, NotString(k));
      StringKeySection(doc.fields, k);
    }
  }

  lemma StringKeySection(m: map<string, Json>, k: string)
    requires ArchsOf(m).Report? && OsesOf(m).Report?
    ensures NotString(k) in SectionAt(m, Rank(NotString(k))) <==> k in StringKeys && k in m && !IsStrOrNone(m[k])
  {
    if k in LateStringKeys {
      assert SectionAt(m, Rank(NotString(k))) == StringProblems(m, LateStringKeys);
      if k in m && !IsStrOrNone(m[k]) {
        var i :| 0 <= i < |LateStringKeys| && LateStringKeys[i] == k;
        assert NotString(LateStringKeys[i]) in StringProblems(m, LateStringKeys);
      }
    } else {
      assert SectionAt(m, Rank(NotString(k))) == StringProblems(m, EarlyStringKeys);
      if k in EarlyStringKeys && k in m && !IsStrOrNone(m[k]) {
        var i :| 0 <= i < |EarlyStringKeys| && EarlyStringKeys[i] == k;
        assert NotString(EarlyStringKeys[i]) in StringProblems(m, EarlyStringKeys);
      }
    }
  }

  /** A list-valued key holding something other than a list is reported. */
  lemma NotArrayReported(doc: Json, k: string)
    requires doc.JObject?
    ensures Validate(doc).Report? ==>
      (NotArray(k) in Validate(doc).problems <==>
        k in ArrayKeys && k in doc.fields && !doc.fields[k].JArray?)
  {
    if Validate(doc).Report? {
      ReportIsSections(doc);
      InSection(doc.fields, NotArray(k));
      ArraySection(doc.fields, k, 0);
    }
  }

  /** The three problems of the list sections, each found in the section of its key. */
  lemma ArraySection(m: map<string, Json>, k: string, i: nat)
    requires ArchsOf(m).Report? && OsesOf(m).Report?
    ensures NotArray(k) in SectionAt(m, Rank(NotArray(k))) <==> k in ArrayKeys && k in m && !m[k].JArray?
    ensures ItemNotString(k, i) in SectionAt(m, Rank(ItemNotString(k, i))) <==>
      k in ArrayKeys && k in m && m[k].JArray? && i < |m[k].items| && !IsStr(m[k].items[i])
    ensures ItemsNotAllowed(k) in SectionAt(m, Rank(ItemsNotAllowed(k))) <==>
      k in ArrayKeys && k in m && m[k].JArray? && HasDisallowed(m[k].items, AllowedFor(k))
  {
    ArrayKeysAre(k);
    if k == "Architectures" {
      assert SectionAt(m, Rank(NotArray(k))) == ArchsOf(m).problems;
      assert SectionAt(m, Rank(ItemNotString(k, i))) == ArchsOf(m).problems;
      assert SectionAt(m, Rank(ItemsNotAllowed(k))) == ArchsOf(m).problems;
    } else {
      assert SectionAt(m, Rank(NotArray(k))) == OsesOf(m).problems;
      assert SectionAt(m, Rank(ItemNotString(k, i))) == OsesOf(m).problems;
      assert SectionAt(m, Rank(ItemsNotAllowed(k))) == OsesOf(m).problems;
    }
  }

  /** Every item of either list that is not a string gets its own indexed problem. */
  lemma ItemReported(doc: Json, k: string, i: nat)
    requires doc.JObject?
    ensures Validate(doc).Report? ==>
      (ItemNotString(k, i) in Validate(doc).problems <==>
        k in ArrayKeys && k in doc.fields && doc.fields[k].JArray? && i < |doc.fields[k].items|
        && !IsStr(doc.fields[k].items[i]))
  {
    if Validate(doc).Report? {
      ReportIsSections(doc);
      InSection(doc.fields, ItemNotString(k, i));
      ArraySection(doc.fields, k, i);
    }
  }

  /** Items outside the allowed set add one problem for the whole list. */
  lemma NotAllowedReported(doc: Json, k: string)
    requires doc.JObject?
    ensures Validate(doc).Report? ==>
      (ItemsNotAllowed(k) in Validate(doc).problems <==>
        k in ArrayKeys && k in doc.fields && doc.fields[k].JArray? && HasDisallowed(doc.fields[k].items, AllowedFor(k)))
  {
    if Validate(doc).Report? {
      ReportIsSections(doc);
      InSection(doc.fields, ItemsNotAllowed(k));
      ArraySection(doc.fields, k, 0);
    }
  }

  /** A hashable item that is not a string draws two problems: its own, and
      the one for items outside the allowed set. */
  lemma NonStringItemTwoProblems(doc: Json, k: string, i: nat)
    requires doc.JObject?
    requires k in ArrayKeys && k in doc.fields && doc.fields[k].JArray?
    requires i < |doc.fields[k].items| && !IsStr(doc.fields[k].items[i])
    ensures Validate(doc).Report? ==>
      ItemNotString(k, i) in Validate(doc).problems
    ensures Validate(doc).Report? ==>
      ItemsNotAllowed(k) in Validate(doc).problems
  {
    if Validate(doc).Report? {
      ItemReported(doc, k, i);
      NotAllowedReported(doc, k);
      assert Disallowed(doc.fields[k].items[i], AllowedFor(k));
    }
  }

  /** Without an `Images` key no image problem is ever reported. */
  lemma ImagesOptional(doc: Json)
    requires doc.JObject?
    requires "Images" !in doc.fields
    ensures Validate(doc).Report? ==>
      forall p | p in Validate(doc).problems :: !IsImageProblem(p)
  {
    if Validate(doc).Report? {
      forall p | p in Validate(doc).problems
        ensures !IsImageProblem(p)
      {
        if p.ImagesNotArray? {
          ImagesNotArrayReported(doc);
        } else if IsImageProblem(p) {
          ImageProblemShape(p);
          ImageReported(doc, ImageIndex(p));
        }
      }
    }
  }

  /** An `Images` value other than a list is reported. */
  lemma ImagesNotArrayReported(doc: Json)
    requires doc.JObject?
    ensures Validate(doc).Report? ==>
      (ImagesNotArray in Validate(doc).problems <==> "Images" in doc.fields && !doc.fields["Images"].JArray?)
  {
    if Validate(doc).Report? {
      ReportIsSections(doc);
      ImageSection(doc.fields, 0);
      InSection(doc.fields, ImagesNotArray);
    }
  }

  /** The problems about entry `i` of `Images`. */
  lemma ImageReported(doc: Json, i: nat)
    requires doc.JObject?
    ensures Validate(doc).Report? ==>
      (ImageNotObject(i) in Validate(doc).problems <==>
        EntryAt(doc, i).Some? && EntryNotObject(EntryAt(doc, i).value))
    ensures Validate(doc).Report? ==>
      (ImagePathNotString(i) in Validate(doc).problems <==>
        EntryAt(doc, i).Some? && EntryBadField(EntryAt(doc, i).value, "Path"))
    ensures Validate(doc).Report? ==>
      (ImageDescriptionNotString(i) in Validate(doc).problems <==>
        EntryAt(doc, i).Some? && EntryBadField(EntryAt(doc, i).value, "Description"))
  {
    if Validate(doc).Report? {
      ReportIsSections(doc);
      ImageReportedIn(doc.fields, i);
    }
  }

  lemma ImageReportedIn(m: map<string, Json>, i: nat)
    requires ArchsOf(m).Report? && OsesOf(m).Report?
    ensures ImageNotObject(i) in ReportOf(m) <==>
      "Images" in m && m["Images"].JArray? && i < |m["Images"].items| && EntryNotObject(m["Images"].items[i])
    ensures ImagePathNotString(i) in ReportOf(m) <==>
      "Images" in m && m["Images"].JArray? && i < |m["Images"].items| && EntryBadField(m["Images"].items[i], "Path")
    ensures ImageDescriptionNotString(i) in ReportOf(m) <==>
      "Images" in m && m["Images"].JArray? && i < |m["Images"].items|
      && EntryBadField(m["Images"].items[i], "Description")
  {
    ImageSection(m, i);
    InSection(m, ImageNotObject(i));
    InSection(m, ImagePathNotString(i));
    InSection(m, ImageDescriptionNotString(i));
  }

  lemma ImageSection(m: map<string, Json>, i: nat)
    requires ArchsOf(m).Report? && OsesOf(m).Report?
    ensures ImagesNotArray in SectionAt(m, 6) <==> "Images" in m && !m["Images"].JArray?
    ensures ImageNotObject(i) in SectionAt(m, 6) <==>
      "Images" in m && m["Images"].JArray? && i < |m["Images"].items| && EntryNotObject(m["Images"].items[i])
    ensures ImagePathNotString(i) in SectionAt(m, 6) <==>
      "Images" in m && m["Images"].JArray? && i < |m["Images"].items| && EntryBadField(m["Images"].items[i], "Path")
    ensures ImageDescriptionNotString(i) in SectionAt(m, 6) <==>
      "Images" in m && m["Images"].JArray? && i < |m["Images"].items|
      && EntryBadField(m["Images"].items[i], "Description")
  {
  }

  /** Entry `i` of the `Images` list, when there is one. */
  function EntryAt(doc: Json, i: nat): Option<Json>
    requires doc.JObject?
  {
    var m := doc.fields;
    if "Images" in m && m["Images"].JArray? && i < |m["Images"].items| then Some(m["Images"].items[i]) else None
  }
}
