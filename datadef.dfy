/** The schema lookup table (`datadef.json`): category -> code -> entry,
    and the loop of `parse_datadef` that builds it from the records of the
    definition file. */
module Datadef {
  import opened Wrappers
  import opened Tree

  /** One lookup entry, a JSON object. `name` and `tags` are its keys of the
      same name, `excludeItemName` says whether that key is present, and
      `otherKeys` holds the names of any further keys (they only matter for
      truthiness). `otherKeys` is meant not to hold `name`, `tags` or
      `excludeItemName`, which the other fields describe; nothing enforces this. */
  datatype Entry = Entry(name: Option<string>, tags: Option<seq<string>>, excludeItemName: bool, otherKeys: set<string>)

  /** Python truthiness of the entry's dict: it is true unless the dict is empty. */
  predicate Truthy(e: Entry)
  {
    e.name.Some? || e.tags.Some? || e.excludeItemName || e.otherKeys != {}
  }

  type Lookup = map<string, map<string, Entry>>

  const Categories: set<string> := {"state", "action", "event"}

  /** The entry `parse_datadef` writes: `{'name': nameLocal}`. */
  function NameEntry(name: string): (e: Entry)
    ensures Truthy(e) && e.name == Some(name) && e.tags.None? && !e.excludeItemName
  {
    Entry(Some(name), None, false, {})
  }

  /** The `KeyError` raised when a record lacks an attribute. */
  datatype Error = MissingAttribute(key: string)

  /** The record defines `code` in category `cat`. */
  predicate Defines(record: Element, cat: string, code: string)
  {
    record.tag == cat && "code" in record.attrib && record.attrib["code"] == code
  }

  /** A record of one of the three categories that lacks `nameLocal` or `code`. */
  predicate Malformed(record: Element)
  {
    record.tag in Categories && ("nameLocal" !in record.attrib || "code" !in record.attrib)
  }

  /** The attribute whose absence is reported: the right-hand side
      `element.attrib['nameLocal']` is evaluated before the target's `element.attrib['code']`. */
  function MissingKey(record: Element): (r: string)
  {
    if "nameLocal" !in record.attrib then "nameLocal" else "code"
  }

  /** One iteration of the loop. */
  function Insert(lookup: Lookup, record: Element): (r: Result<Lookup, Error>)
    requires lookup.Keys == Categories
    ensures r.Ok? ==> r.value.Keys == Categories
  {
    if record.tag !in Categories then Ok(lookup)
    else if "nameLocal" !in record.attrib then Err(MissingAttribute("nameLocal"))
    else if "code" !in record.attrib then Err(MissingAttribute("code"))
    else Ok(lookup[record.tag := lookup[record.tag][record.attrib["code"] := NameEntry(record.attrib["nameLocal"])]])
  }

  /** The table after the records, in order, starting from three empty categories. */
  function Build(records: seq<Element>): (r: Result<Lookup, Error>)
    ensures r.Ok? ==> r.value.Keys == Categories
    decreases |records|
  {
    if records == [] then Ok(map["state" := map[], "action" := map[], "event" := map[]])
    else
      match Build(records[..|records| - 1])
      case Err(e) => Err(e)
      case Ok(lookup) => Insert(lookup, records[|records| - 1])
  }

  /** The record loop of `parse_datadef` (reading `datadef.xml` and writing
      `datadef.json` are not modelled): `root` is the definition file's root. */
  method ParseDatadef(root: Element) returns (r: Result<Lookup, Error>)
    ensures r == Build(root.children)
  {
    var records := root.children;
    var lookup: Lookup := map["state" := map[], "action" := map[], "event" := map[]];
    var i := 0;
    while i < |records|
      invariant 0 <= i <= |records|
      invariant Build(records[..i]) == Ok(lookup)
    {
      assert records[..i + 1][..i] == records[..i];
      var next := InsertRecord(lookup, records[i]);
      if next.Err? {
        BuildErrorPersists(records, i + 1);
        return Err(next.error);
      }
      lookup := next.value;
      i := i + 1;
    }
    assert records[..i] == records;
    r := Ok(lookup);
  }

  /** The loop body (lines 59-60): a record of one of the three categories
      stores `{'name': nameLocal}` under its code. */
  method InsertRecord(lookup: Lookup, element: Element) returns (r: Result<Lookup, Error>)
    requires lookup.Keys == Categories
    ensures r == Insert(lookup, element)
  {
    if element.tag in {"state", "action", "event"} {
      if "nameLocal" !in element.attrib {
        return Err(MissingAttribute("nameLocal"));
      }
      var entry := NameEntry(element.attrib["nameLocal"]);
      if "code" !in element.attrib {
        return Err(MissingAttribute("code"));
      }
      return Ok(lookup[element.tag := lookup[element.tag][element.attrib["code"] := entry]]);
    }
    r := Ok(lookup);
  }

  /** Once a prefix of the records fails, the whole build fails the same way. */
  lemma {:induction false} BuildErrorPersists(records: seq<Element>, k: nat)
    requires k <= |records| && Build(records[..k]).Err?
    ensures Build(records) == Build(records[..k])
    decreases |records| - k
  {
    if k < |records| {
      assert records[..k + 1][..k] == records[..k];
      BuildErrorPersists(records, k + 1);
    } else {
      assert records[..k] == records;
    }
  }

  /** The build fails exactly when some record of a category lacks `nameLocal`
      or `code`, and it reports the first such record's missing key. */
  lemma {:induction false} BuildErrors(records: seq<Element>)
    ensures Build(records).Err? <==> exists i :: 0 <= i < |records| && Malformed(records[i])
    ensures Build(records).Err? ==>
      exists i :: 0 <= i < |records| && Malformed(records[i])
                  && Build(records).error == MissingAttribute(MissingKey(records[i]))
                  && forall j :: 0 <= j < i ==> !Malformed(records[j])
    decreases |records|
  {
    if records != [] {
      var init := records[..|records| - 1];
      var last := records[|records| - 1];
      BuildErrors(init);
      assert forall i :: 0 <= i < |init| ==> init[i] == records[i];
      if Build(init).Ok? {
        assert forall i :: 0 <= i < |init| ==> !Malformed(records[i]);
      }
    }
  }

  /** In a built table, `code` is present in category `cat` exactly when some
      record defines it. */
  lemma {:induction false} BuildKeys(records: seq<Element>, cat: string, code: string)
    requires Build(records).Ok? && cat in Categories
    ensures code in Build(records).value[cat] <==> exists i :: 0 <= i < |records| && Defines(records[i], cat, code)
    decreases |records|
  {
    if records != [] {
      var n := |records|;
      var init := records[..n - 1];
      assert Build(init).Ok?;
      BuildKeys(init, cat, code);
      assert forall i :: 0 <= i < |init| ==> init[i] == records[i];
    }
  }

  /** The entry of a built table is `{'name': nameLocal}` of the LAST record
      that defines the code: later records overwrite earlier ones. */
  lemma {:induction false} BuildEntries(records: seq<Element>, cat: string, code: string)
    requires Build(records).Ok? && cat in Categories && code in Build(records).value[cat]
    ensures exists i :: 0 <= i < |records| && Defines(records[i], cat, code) && "nameLocal" in records[i].attrib
                        && Build(records).value[cat][code] == NameEntry(records[i].attrib["nameLocal"])
                        && forall j :: i < j < |records| ==> !Defines(records[j], cat, code)
    decreases |records|
  {
    var n := |records|;
    var init := records[..n - 1];
    var last := records[n - 1];
    assert Build(init).Ok?;
    var li := Build(init).value;
    assert Build(records) == Insert(li, last);
    var l := Build(records).value;
    if Defines(last, cat, code) {
      assert l[cat][code] == NameEntry(last.attrib["nameLocal"]);
      assert Defines(records[n - 1], cat, code) && "nameLocal" in records[n - 1].attrib
             && l[cat][code] == NameEntry(records[n - 1].attrib["nameLocal"]);
    } else {
      assert code in li[cat] && l[cat][code] == li[cat][code];
      BuildEntries(init, cat, code);
      var i :| 0 <= i < |init| && Defines(init[i], cat, code) && "nameLocal" in init[i].attrib
               && li[cat][code] == NameEntry(init[i].attrib["nameLocal"])
               && forall j :: i < j < |init| ==> !Defines(init[j], cat, code);
      assert init[i] == records[i];
      forall j | i < j < n ensures !Defines(records[j], cat, code) {
        if j < n - 1 { assert init[j] == records[j]; }
      }
      assert Defines(records[i], cat, code) && "nameLocal" in records[i].attrib
             && l[cat][code] == NameEntry(records[i].attrib["nameLocal"]);
    }
  }

  /** Every entry has the shape parse_datadef writes. */
  predicate PlainEntries(lookup: Lookup)
  {
    forall cat, code :: cat in lookup && code in lookup[cat] ==>
      lookup[cat][code].name.Some? && lookup[cat][code] == NameEntry(lookup[cat][code].name.value)
  }

  /** A built table has exactly the three categories and only plain `{'name': …}` entries. */
  lemma BuiltIsPlain(records: seq<Element>)
    requires Build(records).Ok?
    ensures Build(records).value.Keys == Categories
    ensures PlainEntries(Build(records).value)
  {
    var l: Lookup := Build(records).value;
    forall cat: string, code: string | cat in l && code in l[cat]
      ensures l[cat][code].name.Some? && l[cat][code] == NameEntry(l[cat][code].name.value)
    {
      BuildEntries(records, cat, code);
    }
  }
}
