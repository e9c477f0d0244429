/** `parse_tasker_data`: parse the exported profile (repairing the text and
    parsing once more if the first parse fails), walk every element, and
    collect tags, names and plugin identifiers. */
module Classifier {
  import opened Wrappers
  import opened Tree
  import opened Strings
  import opened Datadef
  import Sanitizers

  /** The three result sets. `plugins` holds `None` where the source adds the
      `text` of a `Str` element that has none. */
  datatype Classification = Classification(tags: set<string>, names: set<string>, plugins: set<Option<string>>)

  const Nothing := Classification({}, {}, {})

  function Union(a: Classification, b: Classification): (r: Classification)
  {
    Classification(a.tags + b.tags, a.names + b.names, a.plugins + b.plugins)
  }

  /** The exceptions parse_tasker_data lets escape. */
  datatype Error =
    | MalformedDocument                              // both parses failed
    | UnknownCategory(category: string)              // KeyError on lookup[tag.lower()]
    | MissingName(category: string, code: string)    // KeyError on entry['name']
    | MissingPluginArgument                          // find('Str[@sr="arg1"]') is None, so .text fails

  const PluginTypePath: seq<string> := ["Bundle", "Vals", "plugintypeid"]
  const SubbundledPath: seq<string> := ["Bundle", "Vals", "net.dinglisch.android.tasker.subbundled"]

  predicate IsRuleElement(e: Element)
  {
    e.tag in {"State", "Event", "Action"}
  }

  predicate HasPluginBundle(e: Element)
  {
    HasChildPath(e, PluginTypePath) || HasChildPath(e, SubbundledPath)
  }

  /** The comma-separated pieces of an `appPkg` text that contain no `%`, stripped. */
  function AppPackages(text: string): (r: set<Option<string>>)
  {
    set p | p in Split(text, ',') && '%' !in p :: Some(Strip(p))
  }

  /** Each package id is a stripped piece of the text between commas: it
      holds neither `,` nor `%`, and neither starts nor ends with whitespace. */
  lemma AppPackagesShape(text: string)
    ensures forall p :: p in AppPackages(text) ==> p.Some? && PackageId(p.value)
  {
    forall p | p in AppPackages(text) ensures p.Some? && PackageId(p.value) {
      var pieces := Split(text, ',');
      var piece :| piece in pieces && '%' !in piece && p == Some(Strip(piece));
      SplitPieces(text, ',');
      StrippedPiece(piece);
    }
  }

  /** A package id as the loop produces it. */
  predicate PackageId(t: string)
  {
    ',' !in t && '%' !in t && (t != [] ==> !IsSpace(t[0]) && !IsSpace(t[|t| - 1]))
  }

  lemma StrippedPiece(piece: string)
    requires ',' !in piece && '%' !in piece
    ensures PackageId(Strip(piece))
  {
    StripKeeps(piece);
  }

  /** Empty pieces are not filtered out: a trailing comma yields the empty id. */
  lemma AppPackagesEmptyPiece(text: string)
    ensures Some([]) in AppPackages(text + ",")
  {
    var pieces := Split(text + ",", ',');
    SplitTrailing(text, ',');
    assert pieces[|pieces| - 1] in pieces;
    assert Strip([]) == [];
  }

  /** What one element of the walk adds (lines 94-107), or the exception it raises. */
  function Contribution(e: Element, lookup: Lookup): (r: Result<Classification, Error>)
  {
    if IsRuleElement(e) && Find(e, "code").Some? then
      RuleContribution(e, Lower(e.tag), Find(e, "code").value.text, lookup)
    else if e.tag == "App" then AppContribution(e)
    else Ok(Nothing)
  }

  /** An `App` element: the packages of its `appPkg` text, when it has one. */
  function AppContribution(e: Element): (r: Result<Classification, Error>)
  {
    if Find(e, "appPkg").Some? && Find(e, "appPkg").value.text.Some? then
      Ok(Classification({}, {}, AppPackages(Find(e, "appPkg").value.text.value)))
    else Ok(Nothing)
  }

  /** A State/Event/Action element with a `code` child: look the code text up
      under the element's category. */
  function RuleContribution(e: Element, category: string, code: Option<string>, lookup: Lookup): (r: Result<Classification, Error>)
  {
    if category !in lookup then Err(UnknownCategory(category))
    else if code.Some? && code.value in lookup[category] && Truthy(lookup[category][code.value]) then
      HitContribution(category, code.value, lookup[category][code.value])
    else MissContribution(e)
  }

  /** A hit: the entry's name unless it is excluded, and all of its tags. */
  function HitContribution(category: string, code: string, entry: Entry): (r: Result<Classification, Error>)
  {
    if !entry.excludeItemName && entry.name.None? then Err(MissingName(category, code))
    else
      Ok(Classification(
        if entry.tags.Some? then set t | t in entry.tags.value else {},
        if !entry.excludeItemName then {entry.name.value} else {},
        {}))
  }

  /** A miss: the plugin argument when the element carries a plugin bundle. */
  function MissContribution(e: Element): (r: Result<Classification, Error>)
  {
    if HasPluginBundle(e) then
      match FindWithAttribute(e, "Str", "sr", "arg1")
      case None => Err(MissingPluginArgument)
      case Some(arg) => Ok(Classification({}, {}, {arg.text}))
    else Ok(Nothing)
  }

  /** What each element contributes, as one function over the elements. */
  type Contributor = Element -> Result<Classification, Error>

  /** The walk over `es` in order, starting from `acc`; it stops at the first exception. */
  function Visit(es: seq<Element>, f: Contributor, acc: Classification): (r: Result<Classification, Error>)
    decreases |es|
  {
    if es == [] then Ok(acc)
    else
      match f(es[0])
      case Err(x) => Err(x)
      case Ok(d) => Visit(es[1..], f, Union(acc, d))
  }

  /** `Contribution` with the lookup table fixed. */
  function ContributionOf(lookup: Lookup): (r: Contributor)
  {
    e => Contribution(e, lookup)
  }

  /** The classification of a parsed tree: the walk over `root.iter()`. */
  function ClassifyTree(root: Element, lookup: Lookup): (r: Result<Classification, Error>)
  {
    Visit(PreOrder(root), ContributionOf(lookup), Nothing)
  }

  // ---------------------------------------------------------------------
  // What an element contributes, rule by rule

  /** The lookup entry a State/Event/Action element resolves to, when the
      lookup hit is a truthy entry. */
  function HitEntry(e: Element, lookup: Lookup): (r: Option<Entry>)
  {
    if IsRuleElement(e) && Find(e, "code").Some? && Lower(e.tag) in lookup
       && Find(e, "code").value.text.Some? && Find(e, "code").value.text.value in lookup[Lower(e.tag)]
       && Truthy(lookup[Lower(e.tag)][Find(e, "code").value.text.value])
    then Some(lookup[Lower(e.tag)][Find(e, "code").value.text.value])
    else None
  }

  /** A name comes only from a hit whose entry has no `excludeItemName` key. */
  predicate ContributesName(e: Element, lookup: Lookup, n: string)
  {
    HitEntry(e, lookup).Some? && !HitEntry(e, lookup).value.excludeItemName && HitEntry(e, lookup).value.name == Some(n)
  }

  /** A tag comes only from a hit, and every tag of the entry comes. */
  predicate ContributesTag(e: Element, lookup: Lookup, t: string)
  {
    HitEntry(e, lookup).Some? && HitEntry(e, lookup).value.tags.Some? && t in HitEntry(e, lookup).value.tags.value
  }

  /** A plugin comes from a State/Event/Action element with a `code` child
      that misses in the lookup and carries a plugin bundle (the text of its
      first `Str[@sr="arg1"]` child), or from an `App` element (each
      comma-separated piece of its `appPkg` text without `%`, stripped). */
  predicate ContributesPlugin(e: Element, lookup: Lookup, p: Option<string>)
  {
    (IsRuleElement(e) && Find(e, "code").Some? && Lower(e.tag) in lookup && HitEntry(e, lookup).None?
     && HasPluginBundle(e) && FindWithAttribute(e, "Str", "sr", "arg1").Some?
     && p == FindWithAttribute(e, "Str", "sr", "arg1").value.text)
    ||
    (e.tag == "App" && Find(e, "appPkg").Some? && Find(e, "appPkg").value.text.Some?
     && exists piece :: piece in Split(Find(e, "appPkg").value.text.value, ',') && '%' !in piece && p == Some(Strip(piece)))
  }

  /** When an element raises no exception, it adds exactly the names, tags and
      plugins the three rules above describe. */
  lemma ContributionMembers(e: Element, lookup: Lookup)
    requires Contribution(e, lookup).Ok?
    ensures forall n :: n in Contribution(e, lookup).value.names <==> ContributesName(e, lookup, n)
    ensures forall t :: t in Contribution(e, lookup).value.tags <==> ContributesTag(e, lookup, t)
    ensures forall p :: p in Contribution(e, lookup).value.plugins <==> ContributesPlugin(e, lookup, p)
  {
  }

  /** The exceptions, element by element. */
  lemma ContributionErrors(e: Element, lookup: Lookup)
    ensures Contribution(e, lookup).Err? && Contribution(e, lookup).error.UnknownCategory? <==>
      IsRuleElement(e) && Find(e, "code").Some? && Lower(e.tag) !in lookup
    ensures Contribution(e, lookup).Err? && Contribution(e, lookup).error.MissingName? <==>
      HitEntry(e, lookup).Some? && !HitEntry(e, lookup).value.excludeItemName && HitEntry(e, lookup).value.name.None?
    ensures Contribution(e, lookup) == Err(MissingPluginArgument) <==>
      IsRuleElement(e) && Find(e, "code").Some? && Lower(e.tag) in lookup && HitEntry(e, lookup).None?
      && HasPluginBundle(e) && FindWithAttribute(e, "Str", "sr", "arg1").None?
    ensures Contribution(e, lookup) != Err(MalformedDocument)
  {
  }

  /** A State/Event/Action element without a direct `code` child, and an
      element that is neither such an element nor an `App`, contribute nothing. */
  lemma SkippedElements(e: Element, lookup: Lookup)
    requires (IsRuleElement(e) && Find(e, "code").None?) || (!IsRuleElement(e) && e.tag != "App")
    ensures Contribution(e, lookup) == Ok(Nothing)
  {
  }

  /** A lookup miss without a plugin bundle contributes nothing; a code text
      that is absent always misses. */
  lemma MissWithoutBundle(e: Element, lookup: Lookup)
    requires IsRuleElement(e) && Find(e, "code").Some? && Lower(e.tag) in lookup
    requires HitEntry(e, lookup).None? && !HasPluginBundle(e)
    ensures Contribution(e, lookup) == Ok(Nothing)
  {
  }

  /** The category is the element's own tag, lowercased. */
  lemma RuleCategories()
    ensures Lower("State") == "state" && Lower("Event") == "event" && Lower("Action") == "action"
  {
    assert Lower("State") == ['s', 't', 'a', 't', 'e'];
    assert Lower("Event") == ['e', 'v', 'e', 'n', 't'];
    assert Lower("Action") == ['a', 'c', 't', 'i', 'o', 'n'];
  }

  // ---------------------------------------------------------------------
  // The walk

  /** The walk either raises an exception or collects, on top of `acc`,
      what every element contributes. */
  lemma {:induction false} VisitMembers(es: seq<Element>, f: Contributor, acc: Classification)
    requires Visit(es, f, acc).Ok?
    ensures forall e :: e in es ==> f(e).Ok?
    ensures forall n :: n in Visit(es, f, acc).value.names <==>
      n in acc.names || exists e :: e in es && f(e).Ok? && n in f(e).value.names
    ensures forall t :: t in Visit(es, f, acc).value.tags <==>
      t in acc.tags || exists e :: e in es && f(e).Ok? && t in f(e).value.tags
    ensures forall p :: p in Visit(es, f, acc).value.plugins <==>
      p in acc.plugins || exists e :: e in es && f(e).Ok? && p in f(e).value.plugins
    decreases |es|
  {
    if es != [] {
      VisitMembers(es[1..], f, Union(acc, f(es[0]).value));
      assert forall e :: e in es <==> e == es[0] || e in es[1..];
    }
  }

  /** The walk fails exactly when some element raises. */
  lemma {:induction false} VisitErrors(es: seq<Element>, f: Contributor, acc: Classification)
    ensures Visit(es, f, acc).Err? <==> exists i :: 0 <= i < |es| && f(es[i]).Err?
    decreases |es|
  {
    if es != [] && f(es[0]).Ok? {
      VisitErrors(es[1..], f, Union(acc, f(es[0]).value));
      if Visit(es, f, acc).Err? {
        var i :| 0 <= i < |es[1..]| && f(es[1..][i]).Err?;
        assert es[i + 1] == es[1..][i];
      } else {
        forall i | 0 <= i < |es| ensures f(es[i]).Ok? {
          if i > 0 { assert es[i] == es[1..][i - 1]; }
        }
      }
    }
  }

  /** The exception raised is the one of the first element that raises. */
  lemma {:induction false} VisitFirstError(es: seq<Element>, f: Contributor, acc: Classification)
    requires Visit(es, f, acc).Err?
    ensures exists i :: 0 <= i < |es| && f(es[i]) == Err(Visit(es, f, acc).error)
                        && forall j :: 0 <= j < i ==> f(es[j]).Ok?
    decreases |es|
  {
    if f(es[0]).Ok? {
      VisitFirstError(es[1..], f, Union(acc, f(es[0]).value));
      var i :| 0 <= i < |es[1..]| && f(es[1..][i]) == Err(Visit(es, f, acc).error)
               && forall j :: 0 <= j < i ==> f(es[1..][j]).Ok?;
      assert es[i + 1] == es[1..][i];
      forall j | 0 <= j < i + 1 ensures f(es[j]).Ok? {
        if j > 0 { assert es[j] == es[1..][j - 1]; }
      }
    } else {
      assert f(es[0]) == Err(Visit(es, f, acc).error);
    }
  }

  /** The classification of a tree: every element at any depth, root
      included, is classified; a success holds exactly what the elements
      contribute. */
  lemma ClassifyTreeMembers(root: Element, lookup: Lookup)
    requires ClassifyTree(root, lookup).Ok?
    ensures forall e :: InTree(e, root) ==> Contribution(e, lookup).Ok?
    ensures forall n :: n in ClassifyTree(root, lookup).value.names <==> exists e :: InTree(e, root) && ContributesName(e, lookup, n)
    ensures forall t :: t in ClassifyTree(root, lookup).value.tags <==> exists e :: InTree(e, root) && ContributesTag(e, lookup, t)
    ensures forall p :: p in ClassifyTree(root, lookup).value.plugins <==> exists e :: InTree(e, root) && ContributesPlugin(e, lookup, p)
  {
    var f := ContributionOf(lookup);
    VisitMembers(PreOrder(root), f, Nothing);
    forall e | InTree(e, root) ensures f(e).Ok? && f(e) == Contribution(e, lookup) {
      PreOrderMembers(e, root);
    }
    ClassifyTreeNames(root, lookup);
    ClassifyTreeTags(root, lookup);
    ClassifyTreePlugins(root, lookup);
  }

  lemma ClassifyTreeNames(root: Element, lookup: Lookup)
    requires ClassifyTree(root, lookup).Ok?
    ensures forall n :: n in ClassifyTree(root, lookup).value.names <==> exists e :: InTree(e, root) && ContributesName(e, lookup, n)
  {
    var f := ContributionOf(lookup);
    VisitMembers(PreOrder(root), f, Nothing);
    forall n ensures n in ClassifyTree(root, lookup).value.names <==> exists e :: InTree(e, root) && ContributesName(e, lookup, n) {
      if n in ClassifyTree(root, lookup).value.names {
        var e :| e in PreOrder(root) && f(e).Ok? && n in f(e).value.names;
        PreOrderMembers(e, root);
        ContributionMembers(e, lookup);
      }
      if e :| InTree(e, root) && ContributesName(e, lookup, n) {
        PreOrderMembers(e, root);
        ContributionMembers(e, lookup);
      }
    }
  }

  lemma ClassifyTreeTags(root: Element, lookup: Lookup)
    requires ClassifyTree(root, lookup).Ok?
    ensures forall t :: t in ClassifyTree(root, lookup).value.tags <==> exists e :: InTree(e, root) && ContributesTag(e, lookup, t)
  {
    var f := ContributionOf(lookup);
    VisitMembers(PreOrder(root), f, Nothing);
    forall t ensures t in ClassifyTree(root, lookup).value.tags <==> exists e :: InTree(e, root) && ContributesTag(e, lookup, t) {
      if t in ClassifyTree(root, lookup).value.tags {
        var e :| e in PreOrder(root) && f(e).Ok? && t in f(e).value.tags;
        PreOrderMembers(e, root);
        ContributionMembers(e, lookup);
      }
      if e :| InTree(e, root) && ContributesTag(e, lookup, t) {
        PreOrderMembers(e, root);
        ContributionMembers(e, lookup);
      }
    }
  }

  lemma ClassifyTreePlugins(root: Element, lookup: Lookup)
    requires ClassifyTree(root, lookup).Ok?
    ensures forall p :: p in ClassifyTree(root, lookup).value.plugins <==> exists e :: InTree(e, root) && ContributesPlugin(e, lookup, p)
  {
    var f := ContributionOf(lookup);
    VisitMembers(PreOrder(root), f, Nothing);
    forall p ensures p in ClassifyTree(root, lookup).value.plugins <==> exists e :: InTree(e, root) && ContributesPlugin(e, lookup, p) {
      if p in ClassifyTree(root, lookup).value.plugins {
        var e :| e in PreOrder(root) && f(e).Ok? && p in f(e).value.plugins;
        PreOrderMembers(e, root);
        ContributionMembers(e, lookup);
      }
      if e :| InTree(e, root) && ContributesPlugin(e, lookup, p) {
        PreOrderMembers(e, root);
        ContributionMembers(e, lookup);
      }
    }
  }

  /** The classification fails exactly when some element of the tree raises. */
  lemma ClassifyTreeErrors(root: Element, lookup: Lookup)
    ensures ClassifyTree(root, lookup).Err? <==> exists e :: InTree(e, root) && Contribution(e, lookup).Err?
  {
    var es := PreOrder(root);
    var f := ContributionOf(lookup);
    VisitErrors(es, f, Nothing);
    forall e ensures e in es <==> InTree(e, root) {
      PreOrderMembers(e, root);
    }
    if ClassifyTree(root, lookup).Err? {
      var i :| 0 <= i < |es| && f(es[i]).Err?;
      assert es[i] in es;
    } else {
      forall e | InTree(e, root) ensures Contribution(e, lookup).Ok? {
        assert f(e) == Contribution(e, lookup);
        var i :| 0 <= i < |es| && es[i] == e;
      }
    }
  }

  /** `acc` extended by what one element contributes, or that element's exception. */
  function Extend(acc: Classification, c: Result<Classification, Error>): (r: Result<Classification, Error>)
    ensures c.Err? <==> r.Err?
    ensures r.Err? ==> r.error == c.error
    ensures r.Ok? ==> r.value.tags == acc.tags + c.value.tags && r.value.names == acc.names + c.value.names
                      && r.value.plugins == acc.plugins + c.value.plugins
  {
    match c
    case Err(x) => Err(x)
    case Ok(d) => Ok(Union(acc, d))
  }

  /** One pass of the loop body (lines 94-107): the three sets after
      `element`, or the exception the element raises. */
  method VisitElement(element: Element, lookup: Lookup, acc: Classification)
    returns (r: Result<Classification, Error>)
    ensures r == Extend(acc, ContributionOf(lookup)(element))
  {
    assert ContributionOf(lookup)(element) == Contribution(element, lookup);
    var code := Find(element, "code");
    if element.tag in {"State", "Event", "Action"} && code.Some? {
      r := VisitRule(element, Lower(element.tag), code.value.text, lookup, acc);
    } else if element.tag == "App" {
      r := VisitApp(element, acc);
    } else {
      assert acc.tags + {} == acc.tags && acc.names + {} == acc.names && acc.plugins + {} == acc.plugins;
      r := Ok(acc);
    }
  }

  /** Lines 94-104: a State/Event/Action element with a `code` child. */
  method VisitRule(element: Element, category: string, code: Option<string>, lookup: Lookup, acc: Classification)
    returns (r: Result<Classification, Error>)
    ensures r == Extend(acc, RuleContribution(element, category, code, lookup))
  {
    if category !in lookup {
      return Err(UnknownCategory(category));
    }
    if code.Some? && code.value in lookup[category] && Truthy(lookup[category][code.value]) {
      r := VisitHit(category, code.value, lookup[category][code.value], acc);
    } else {
      r := VisitMiss(element, acc);
    }
  }

  /** Lines 97-101: the entry's name and tags join the sets. */
  method VisitHit(category: string, code: string, entry: Entry, acc: Classification)
    returns (r: Result<Classification, Error>)
    ensures r == Extend(acc, HitContribution(category, code, entry))
  {
    var allTags, allNames := acc.tags, acc.names;
    if !entry.excludeItemName {
      if entry.name.None? {
        return Err(MissingName(category, code));
      }
      allNames := allNames + {entry.name.value};
    }
    if entry.tags.Some? {
      allTags := allTags + set t | t in entry.tags.value;
    }
    assert acc.tags + {} == acc.tags && acc.names + {} == acc.names && acc.plugins + {} == acc.plugins;
    r := Ok(Classification(allTags, allNames, acc.plugins));
  }

  /** Lines 102-104: a miss with a plugin bundle adds the plugin argument. */
  method VisitMiss(element: Element, acc: Classification) returns (r: Result<Classification, Error>)
    ensures r == Extend(acc, MissContribution(element))
  {
    var plugins := acc.plugins;
    if HasChildPath(element, PluginTypePath) || HasChildPath(element, SubbundledPath) {
      var arg := FindWithAttribute(element, "Str", "sr", "arg1");
      if arg.None? {
        return Err(MissingPluginArgument);
      }
      plugins := plugins + {arg.value.text};
    }
    assert acc.tags + {} == acc.tags && acc.names + {} == acc.names && acc.plugins + {} == acc.plugins;
    r := Ok(Classification(acc.tags, acc.names, plugins));
  }

  /** Lines 105-107: an `App` element adds its package names. */
  method VisitApp(element: Element, acc: Classification) returns (r: Result<Classification, Error>)
    ensures r == Extend(acc, AppContribution(element))
  {
    var plugins := acc.plugins;
    var pkg := Find(element, "appPkg");
    if pkg.Some? && pkg.value.text.Some? {
      var pkgs := Split(pkg.value.text.value, ',');
      plugins := plugins + set p | p in pkgs && '%' !in p :: Some(Strip(p));
    }
    assert acc.tags + {} == acc.tags && acc.names + {} == acc.names && acc.plugins + {} == acc.plugins;
    r := Ok(Classification(acc.tags, acc.names, plugins));
  }

  /** The loop of parse_tasker_data (lines 90-109) over the elements of `root.iter()`. */
  method Classify(root: Element, lookup: Lookup) returns (r: Result<Classification, Error>)
    ensures r == ClassifyTree(root, lookup)
  {
    ghost var f := ContributionOf(lookup);
    var allTags: set<string> := {};
    var allNames: set<string> := {};
    var plugins: set<Option<string>> := {};
    var rest := PreOrder(root);
    while rest != []
      invariant ClassifyTree(root, lookup) == Visit(rest, f, Classification(allTags, allNames, plugins))
      decreases |rest|
    {
      var next := VisitElement(rest[0], lookup, Classification(allTags, allNames, plugins));
      if next.Err? {
        return Err(next.error);
      }
      allTags, allNames, plugins := next.value.tags, next.value.names, next.value.plugins;
      rest := rest[1..];
    }
    r := Ok(Classification(allTags, allNames, plugins));
  }

  // ---------------------------------------------------------------------
  // Parse with fallback

  /** The repaired text of the second attempt: control characters stripped,
      then namespaces rewritten, with the tags found in the stripped text. */
  function Sanitize(text: string, isC: char -> bool, nsTagsOf: string -> seq<string>): (r: string)
  {
    var stripped := Sanitizers.RemoveControlCharacters(text, isC);
    Sanitizers.RewriteAll(stripped, nsTagsOf(stripped))
  }

  /** Lines 84-88: the direct parse, and only if it fails, one parse of the repaired text. */
  function ParseWithFallback(text: string, parse: string -> Option<Element>, isC: char -> bool,
                             nsTagsOf: string -> seq<string>): (r: Option<Element>)
  {
    if parse(text).Some? then parse(text) else parse(Sanitize(text, isC, nsTagsOf))
  }

  /** The repaired text is the stripped text with some colons turned into
      underscores; when `_` is not category C, it holds no category-C character. */
  lemma SanitizeShape(text: string, isC: char -> bool, nsTagsOf: string -> seq<string>)
    ensures ColonRewrite(Sanitizers.RemoveControlCharacters(text, isC), Sanitize(text, isC, nsTagsOf))
    ensures |Sanitize(text, isC, nsTagsOf)| <= |text|
    ensures !isC('_') ==> forall i :: 0 <= i < |Sanitize(text, isC, nsTagsOf)| ==> !isC(Sanitize(text, isC, nsTagsOf)[i])
  {
    var stripped := Sanitizers.RemoveControlCharacters(text, isC);
    Sanitizers.RewriteAllColonRewrite(stripped, nsTagsOf(stripped));
  }

  /** A text with neither category-C characters nor colons is repaired into
      itself, so when its direct parse fails the second attempt fails too. */
  lemma FallbackOnCleanText(text: string, parse: string -> Option<Element>, isC: char -> bool,
                            nsTagsOf: string -> seq<string>)
    requires forall i :: 0 <= i < |text| ==> !isC(text[i])
    requires ':' !in text
    ensures Sanitize(text, isC, nsTagsOf) == text
    ensures ParseWithFallback(text, parse, isC, nsTagsOf) == parse(text)
  {
    Sanitizers.RemoveControlCharactersClean(text, isC);
    Sanitizers.RewriteAllNoColon(text, nsTagsOf(text));
  }

  /** The recovery the fallback exists for: when the direct parse fails and
      stripping the control characters leaves a text without colons, the
      second attempt parses exactly the stripped text. So a document whose
      only defect is injected control characters is read as the clean one. */
  lemma FallbackRecovers(text: string, parse: string -> Option<Element>, isC: char -> bool,
                         nsTagsOf: string -> seq<string>)
    requires parse(text).None?
    requires ':' !in Sanitizers.RemoveControlCharacters(text, isC)
    ensures Sanitize(text, isC, nsTagsOf) == Sanitizers.RemoveControlCharacters(text, isC)
    ensures ParseWithFallback(text, parse, isC, nsTagsOf) == parse(Sanitizers.RemoveControlCharacters(text, isC))
  {
    var stripped := Sanitizers.RemoveControlCharacters(text, isC);
    Sanitizers.RewriteAllNoColon(stripped, nsTagsOf(stripped));
  }

  /** Control characters injected into a clean, colon-free document: when
      the direct parse of the injected text fails, the result is the parse of
      the clean document. */
  lemma FallbackRecoversInjected(clean: string, text: string, parse: string -> Option<Element>,
                                 isC: char -> bool, nsTagsOf: string -> seq<string>)
    requires Sanitizers.RemoveControlCharacters(text, isC) == clean
    requires ':' !in clean
    requires parse(text).None?
    ensures ParseWithFallback(text, parse, isC, nsTagsOf) == parse(clean)
  {
    FallbackRecovers(text, parse, isC, nsTagsOf);
  }

  /** `parse_tasker_data(tasker_data)` with the loaded lookup table passed in
      and the XML parser, the Unicode category test and the namespace-tag
      search as parameters. */
  method ParseTaskerData(taskerData: string, lookup: Lookup, parse: string -> Option<Element>,
                         isC: char -> bool, nsTagsOf: string -> seq<string>)
    returns (r: Result<Classification, Error>)
    ensures ParseWithFallback(taskerData, parse, isC, nsTagsOf).None? ==> r == Err(MalformedDocument)
    ensures ParseWithFallback(taskerData, parse, isC, nsTagsOf).Some? ==>
      r == ClassifyTree(ParseWithFallback(taskerData, parse, isC, nsTagsOf).value, lookup)
    ensures parse(taskerData).None? && ':' !in Sanitizers.RemoveControlCharacters(taskerData, isC)
            && parse(Sanitizers.RemoveControlCharacters(taskerData, isC)).Some? ==>
      r == ClassifyTree(parse(Sanitizers.RemoveControlCharacters(taskerData, isC)).value, lookup)
  {
    var root := parse(taskerData);
    if root.None? {
      var stripped := Sanitizers.RemoveControlCharacters(taskerData, isC);
      var cleaned := Sanitizers.RemoveNamespaces(stripped, nsTagsOf(stripped));
      if ':' !in stripped {
        FallbackRecovers(taskerData, parse, isC, nsTagsOf);
      }
      root := parse(cleaned);
      if root.None? {
        return Err(MalformedDocument);
      }
    }
    r := Classify(root.value, lookup);
  }

  // ---------------------------------------------------------------------
  // With a table built by parse_datadef

  /** Against a table built by parse_datadef, the only exception left is a
      plugin bundle without its argument: every category is present and every
      entry has a name. */
  lemma ClassifyWithBuiltLookupErrors(records: seq<Element>, root: Element)
    requires Build(records).Ok?
    ensures ClassifyTree(root, Build(records).value).Err? ==> ClassifyTree(root, Build(records).value).error == MissingPluginArgument
  {
    var l := Build(records).value;
    var result := ClassifyTree(root, l);
    if result.Err? {
      BuiltIsPlain(records);
      RuleCategories();
      VisitFirstError(PreOrder(root), ContributionOf(l), Nothing);
      var i :| 0 <= i < |PreOrder(root)| && ContributionOf(l)(PreOrder(root)[i]) == Err(result.error)
               && forall j :: 0 <= j < i ==> ContributionOf(l)(PreOrder(root)[j]).Ok?;
      var e := PreOrder(root)[i];
      assert Contribution(e, l) == Err(result.error);
      ContributionErrors(e, l);
    }
  }

  /** A table built by parse_datadef holds only `{'name': …}` entries, so
      classifying against it never yields a tag. */
  lemma ClassifyWithBuiltLookupTags(records: seq<Element>, root: Element)
    requires Build(records).Ok? && ClassifyTree(root, Build(records).value).Ok?
    ensures ClassifyTree(root, Build(records).value).value.tags == {}
  {
    var l := Build(records).value;
    BuiltIsPlain(records);
    ClassifyTreeMembers(root, l);
  }

  /** Against a table built by parse_datadef every name collected is the
      `nameLocal` of a definition record. */
  lemma ClassifyWithBuiltLookupNames(records: seq<Element>, root: Element)
    requires Build(records).Ok? && ClassifyTree(root, Build(records).value).Ok?
    ensures forall n :: n in ClassifyTree(root, Build(records).value).value.names ==>
        exists i :: 0 <= i < |records| && "nameLocal" in records[i].attrib && records[i].attrib["nameLocal"] == n
  {
    var l := Build(records).value;
    var result := ClassifyTree(root, l);
    ClassifyTreeMembers(root, l);
    forall n | n in result.value.names
      ensures exists i :: 0 <= i < |records| && "nameLocal" in records[i].attrib && records[i].attrib["nameLocal"] == n
    {
      var e :| InTree(e, root) && ContributesName(e, l, n);
      BuildEntries(records, Lower(e.tag), Find(e, "code").value.text.value);
    }
  }
}
