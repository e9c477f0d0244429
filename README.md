# taskernet-collector: the classifier of `server/utils.py`, in Dafny

This project models the part of the taskernet-collector server that reads an
exported Tasker profile (an XML document) and classifies it. It then proves
properties of that model.

Classifying a profile means parsing the text. If the first parse fails, the
text is repaired and parsed once more. Then every element of the tree is
walked, and three sets are collected:

- the **tags** and **names** of the State, Event and Action elements whose
  code the schema lookup table knows;
- the **plugins**: the argument of each unknown element that carries a
  plugin bundle, and the package ids of each `App` element.

The project also models the record loop of `parse_datadef`, which builds
that lookup table, and the four text sanitisers of the same file.

Modules, one per concern of `server/utils.py`:

| file | module | what it models |
|---|---|---|
| `wrappers.dfy` | `Wrappers` | `Option` and `Result` |
| `tree.dfy` | `Tree` | the parsed XML tree, `iter()` as a pre-order walk, `find` over direct children |
| `strings.dfy` | `Strings` | the Python `str` methods the code calls: `replace`, `split`, `strip`, `lower` |
| `sanitizers.dfy` | `Sanitizers` | `remove_control_characters`, `remove_namespaces`, `remove_html_tags`, `remove_unicode` |
| `datadef.dfy` | `Datadef` | the lookup table and the record loop of `parse_datadef` |
| `classifier.dfy` | `Classifier` | `parse_tasker_data`: the fallback parse and the classification loop |

How the model is built:

- **Pure code becomes functions.** The pure sanitisers (`remove_control_characters`,
  `remove_html_tags`, `remove_unicode`) are recursive functions.
  Their properties are lemmas.
- **Loops become methods.** Three loops in the source change variables step
  by step:
  - the `root.iter()` loop that fills three sets;
  - the `replace` loop of `remove_namespaces`;
  - the loop that fills the lookup dict.

  Each is a `method` with a `while` loop. Its `ensures` ties the result to a
  specification function: `ClassifyTree`, `RewriteAll` or `Build`. Lemmas
  then prove what the source promises about that function.
- **The loop body of the classifier is split into methods.** There is one
  method per branch of the `if`/`elif`: `VisitRule`, `VisitHit`,
  `VisitMiss` and `VisitApp`. Each is proved equal to what the element
  contributes (`Contribution` and its parts).
- **Python exceptions become `Err` values.** Each exception that escapes
  `parse_tasker_data` has its own `Error` case:
  - `MalformedDocument`: both parses fail;
  - `UnknownCategory`: `KeyError` on `lookup[tag.lower()]`;
  - `MissingName`: `KeyError` on `entry['name']`;
  - `MissingPluginArgument`: `.text` of a missing `Str[@sr="arg1"]`.

  In `parse_datadef`, a missing `code` or `nameLocal` attribute is
  `MissingAttribute`. Python evaluates the right-hand side of line 60 first,
  so a record that lacks both attributes reports `nameLocal`.
- **`find` never searches deeper than the children.**
  - `find(tag)` is the first direct child with that tag.
  - `find('Str[@sr="arg1"]')` is the first direct child with that tag and
    attribute.
  - `find('./Bundle/Vals/x') is not None` holds when a chain of direct
    children with those tags exists (`HasChildPath`).
- **Dict truthiness is modelled.** `if tasker_element:` is false for an empty
  dict. So an entry with no keys at all counts as a miss (`Truthy`).
- **A missing text becomes `None` in the plugin set.** A `Str` element
  without text adds `None` to `plugins`, as Python does. So the plugin set
  has type `set<Option<string>>`.

Where the intended behaviour and the code disagree, the model follows the
code:

- **How deep the plugin bundle may sit.** The intended behaviour is that a
  plugin bundle counts at any depth below the element. The code
  (`server/utils.py:103`) calls `element.find('./Bundle/Vals/…')`, which only
  follows direct children from the element itself.
- **Empty package ids.** The intended behaviour is that empty pieces of an
  `appPkg` text are dropped. The code (`server/utils.py:106-107`) keeps them,
  so a trailing comma yields the empty id. `AppPackagesEmptyPiece` proves
  this.
- **Plugin arguments without text.** The intended behaviour is that every
  plugin argument is a string. The code (`server/utils.py:104`) adds the
  `Str` child's `text` even when that is `None`.

## Model

| member | source | states |
|---|---|---|
| Tree.PreOrderMembers | server/utils.py:93 | `root.iter()` visits exactly the root and every descendant at any depth, in both directions |
| Tree.Find | server/utils.py:94-95 | `find(tag)` yields a direct child with that tag; it yields nothing exactly when no direct child has the tag |
| Tree.FindWithAttribute | server/utils.py:104 | `find('Str[@sr="arg1"]')` yields a direct `Str` child whose `sr` is `arg1`; it yields nothing exactly when there is none |
| Tree.FirstWithIsFirst | server/utils.py:104 | the child found is the first match in document order: no earlier child matches |
| Strings.ColonToUnderscore | server/utils.py:77 | `e.replace(':', '_')` keeps the length and turns each colon, and only a colon, into `_` |
| Strings.ReplaceColonRewrite | server/utils.py:79 | replacing every occurrence of a pattern by its colon-rewritten copy keeps the length and changes only colons into underscores |
| Strings.Split | server/utils.py:106 | `split(',')` always yields at least one piece |
| Strings.SplitJoin | server/utils.py:106 | joining the pieces of the split with the separator gives the text back |
| Strings.SplitPieces | server/utils.py:106 | no piece of the split contains the separator |
| Strings.SplitTrailing | server/utils.py:106 | a text ending in the separator splits into at least two pieces, the last one empty |
| Strings.TrimStartShape | server/utils.py:107 | trimming the front removes exactly the leading whitespace: the rest is a suffix whose first character is not whitespace |
| Strings.TrimEndShape | server/utils.py:107 | trimming the end removes exactly the trailing whitespace: the rest is a prefix whose last character is not whitespace |
| Strings.StripKeeps | server/utils.py:107 | `strip()` keeps only characters of the piece and leaves no whitespace at either end |
| Sanitizers.RemoveControlCharacters | server/utils.py:72-73 | no category-C character remains and the text never grows |
| Sanitizers.RemoveControlCharactersCounts | server/utils.py:73 | every other character is kept exactly as often as it occurs, and every category-C character is removed |
| Sanitizers.RemoveControlCharactersOrder | server/utils.py:73 | the kept characters keep their relative order (the output is a subsequence of the input) |
| Sanitizers.RemoveControlCharactersAppend | server/utils.py:73 | stripping works character by character: it distributes over concatenation |
| Sanitizers.RemoveControlCharactersClean | server/utils.py:73 | a text without category-C characters is left unchanged |
| Sanitizers.RemoveControlCharactersIdempotent | server/utils.py:73 | stripping twice equals stripping once |
| Sanitizers.RemoveControlCharactersExample | server/utils.py:73 | `"a\x00b\x1Fc"` becomes `"abc"` when NUL and 0x1F are category C and the letters are not |
| Sanitizers.RemoveNamespaces | server/utils.py:75-80 | the loop yields the replacements applied in list order; the output has the input's length and differs only where a `:` became `_` |
| Sanitizers.RewriteAllColonRewrite | server/utils.py:76-79 | whatever tags the pattern finds, in whatever order the set lists them, only colons become underscores and the length is kept |
| Sanitizers.RewriteAllNoColon | server/utils.py:75-80 | a text without colons comes out of the namespace rewriting unchanged |
| Sanitizers.TagClose | server/utils.py:17 | the lazy `.*?>` ends at the first `>` after the `<` provided no newline comes first; otherwise it does not match |
| Sanitizers.RemoveHtmlTagsShrinks | server/utils.py:22-23 | removing tags keeps the remaining characters in order and never lengthens the text |
| Sanitizers.RemoveHtmlTagsNoOpen | server/utils.py:22-23 | a text without `<` is left unchanged |
| Sanitizers.RemoveHtmlTagsAtNewline | server/utils.py:17 | `.` does not match a newline, so removal works line by line |
| Sanitizers.RemoveHtmlTagsNoTag | server/utils.py:22-23 | the output holds no `<…>` span without a newline in it, so the pattern matches nothing more |
| Sanitizers.RemoveHtmlTagsFixed | server/utils.py:22-23 | a text without such a span is left unchanged |
| Sanitizers.RemoveHtmlTagsIdempotent | server/utils.py:22-23 | removing tags twice equals removing them once |
| Sanitizers.RemoveUnicodeAscii | server/utils.py:25-26 | the output is all ASCII and never longer than the input |
| Sanitizers.RemoveUnicodeOnAscii | server/utils.py:25-26 | an all-ASCII text is left unchanged |
| Sanitizers.RemoveUnicodeIdempotent | server/utils.py:25-26 | applying it twice equals applying it once |
| Sanitizers.RemoveUnicodeRun | server/utils.py:18 | a nonempty run of non-ASCII characters becomes exactly one space |
| Sanitizers.RemoveUnicodeSplit | server/utils.py:18 | an ASCII character is kept and splits the text: both sides are rewritten independently |
| Sanitizers.RemoveUnicodeKeepsAscii | server/utils.py:25-26 | every ASCII character of the input appears in the output, in its order |
| Datadef.NameEntry | server/utils.py:60 | the entry written is a truthy `{'name': nameLocal}` without tags or exclusion |
| Datadef.Insert | server/utils.py:59-60 | one record keeps the table's three categories |
| Datadef.Build | server/utils.py:49-60 | a successful build has exactly the keys `state`, `action` and `event` |
| Datadef.InsertRecord | server/utils.py:59-60 | the loop body: records of the three categories store `{'name': nameLocal}` under their code; others are skipped; a missing attribute raises |
| Datadef.ParseDatadef | server/utils.py:48-60 | the loop over the root's records computes the build of those records, or its first error |
| Datadef.BuildErrorPersists | server/utils.py:58-60 | once a prefix of the records fails, the whole loop fails with the same error |
| Datadef.BuildErrors | server/utils.py:58-60 | the build fails exactly when some category record lacks `nameLocal` or `code`; it reports the first such record's missing key, `nameLocal` first |
| Datadef.BuildKeys | server/utils.py:58-60 | a code is present in a category exactly when some record of that category defines it, so only the three tags insert anything |
| Datadef.BuildEntries | server/utils.py:58-60 | each entry is `{'name': nameLocal}` of the last record that defines the code: later records overwrite earlier ones |
| Datadef.BuiltIsPlain | server/utils.py:49-60 | a built table has the three categories and only `{'name': …}` entries |
| Classifier.AppPackagesShape | server/utils.py:106-107 | each package id is present (never `None`), holds neither `,` nor `%`, and has no surrounding whitespace |
| Classifier.AppPackagesEmptyPiece | server/utils.py:106-107 | empty pieces are not filtered out: an `appPkg` text ending in a comma yields the empty id |
| Classifier.ContributionMembers | server/utils.py:94-107 | an element that raises nothing adds exactly: the name of a truthy hit without `excludeItemName`; every tag of a hit; the plugin argument of a miss with a bundle; the stripped `%`-free pieces of an `App`'s `appPkg` text |
| Classifier.ContributionErrors | server/utils.py:94-104 | an element raises an unknown category exactly when its category is missing from the table; a missing name exactly on a hit without `excludeItemName` and without `name`; a missing plugin argument exactly on a miss with a bundle and no `Str[@sr="arg1"]` child |
| Classifier.SkippedElements | server/utils.py:94 | a State/Event/Action element without a direct `code` child, and any element that is neither such an element nor an `App`, contribute nothing |
| Classifier.MissWithoutBundle | server/utils.py:102-103 | a miss without either bundle path contributes nothing |
| Classifier.RuleCategories | server/utils.py:96 | the categories looked up are `state`, `event` and `action`, the lowercased tags |
| Classifier.VisitMembers | server/utils.py:93-107 | a walk that raises nothing collects on top of its start exactly the union of what the elements contribute |
| Classifier.VisitErrors | server/utils.py:93-107 | the walk fails exactly when some element raises |
| Classifier.VisitFirstError | server/utils.py:93-107 | the exception that escapes is the one of the first element that raises |
| Classifier.ClassifyTreeMembers | server/utils.py:90-109 | on success every element of the tree raised nothing, and the three sets hold exactly what the elements at any depth contribute |
| Classifier.ClassifyTreeNames | server/utils.py:98-99 | a name is in the result exactly when some element of the tree contributes it |
| Classifier.ClassifyTreeTags | server/utils.py:100-101 | a tag is in the result exactly when some element of the tree contributes it |
| Classifier.ClassifyTreePlugins | server/utils.py:102-107 | a plugin is in the result exactly when some element of the tree contributes it |
| Classifier.ClassifyTreeErrors | server/utils.py:93-107 | the classification fails exactly when some element of the tree raises |
| Classifier.VisitElement | server/utils.py:94-107 | one pass of the loop body adds the element's contribution to the three sets, or raises its exception |
| Classifier.VisitRule | server/utils.py:94-104 | a State/Event/Action element with a `code` child: either the category is unknown, or the element is a hit or a miss |
| Classifier.VisitHit | server/utils.py:97-101 | a hit adds the entry's name unless excluded (raising when there is none) and all of its tags |
| Classifier.VisitMiss | server/utils.py:102-104 | a miss with a bundle adds the text of the first `Str[@sr="arg1"]` child, raising when there is none |
| Classifier.VisitApp | server/utils.py:105-107 | an `App` element with `appPkg` text adds its package ids |
| Classifier.Classify | server/utils.py:90-109 | the loop over `root.iter()` computes the classification of the tree, stopping at the first exception |
| Classifier.SanitizeShape | server/utils.py:87 | the repaired text is the control-stripped text with only some colons turned into underscores; it is no longer than the input and, when `_` is not category C, holds no category-C character |
| Classifier.FallbackOnCleanText | server/utils.py:84-88 | a text without category-C characters or colons is repaired into itself, so the second parse sees the same text |
| Classifier.FallbackRecovers | server/utils.py:84-88 | when the direct parse fails and the control-stripped text has no colon, the second attempt parses exactly the stripped text |
| Classifier.FallbackRecoversInjected | server/utils.py:84-88 | for control characters injected into a clean colon-free document: when the direct parse of the injected text fails, the result is the parse of the clean document |
| Classifier.ParseTaskerData | server/utils.py:82-109 | the direct parse first; only on failure one parse of the repaired text; a second failure raises; otherwise the tree is classified; a document that fails only through control characters and has no colon is classified as its stripped text |
| Classifier.ClassifyWithBuiltLookupErrors | server/utils.py:94-104 | against a table built by the record loop, the only exception left is a plugin bundle without its argument |
| Classifier.ClassifyWithBuiltLookupTags | server/utils.py:100-101 | a table built by the record loop holds no tags, so the tag set comes out empty |
| Classifier.ClassifyWithBuiltLookupNames | server/utils.py:98-99 | against a built table every name collected is the `nameLocal` of some definition record |

## Left out

- `parse_link` and `share_object_id` (lines 29-46) are not modelled. They are thin wrappers over URL parsing and quoting with a blanket `except`.
- `get_datadef` (lines 65-70) is file I/O behind `functools.lru_cache`. `ParseTaskerData` takes the loaded table as its `lookup` parameter instead.
- The file I/O of `parse_datadef` is not modelled: reading `datadef.xml` (lines 55-56) and writing `datadef.json` (lines 62-63). `ParseDatadef` takes the root element. The JSON round trip between the build and the load is taken to preserve the table.
- `ET.fromstring` (lines 85, 88) is the parameter `parse`, a partial function. `None` stands for a raised parse error.
- `unicodedata.category(ch)[0] == 'C'` (line 73) is the parameter `isC`. The Unicode database is not encoded.
- `list(set(XML_NS_RE.findall(xml)))` (line 76) is a parameter: `nsTags`, or `nsTagsOf` for the fallback parse. The regex is not modelled, and neither is the order Python's set gives the list. The length and colon-only properties hold for any list in any order.
- The regex engine is not modelled. `<.*?>` and `[^\x00-\x7F]+` are hand-written scanners (`RemoveHtmlTags`, `RemoveUnicode`).
- `Strings.Lower` lowercases ASCII letters only. It is applied only to the tags `State`, `Event` and `Action` (line 96), where that is exact.
- Python strings may hold lone surrogate code points. Dafny's `char` cannot, so such text is not representable.
- Line 109 turns each set into a list. The model returns the sets; the list order Python produces is not modelled.
- JSON values of unexpected shape are not modelled, such as an entry that is not a dict, a `name` that is not a string, or `tags` that is not a list of strings. An entry is a record of its `name`, `tags` and `excludeItemName` keys plus the names of any other keys; the other keys only matter for truthiness.
- Sanitizers.DropNonAscii: its contract states only that the text does not grow. Its other properties are proved in the lemmas that use it.
- `TASKERNET_RE`, `COLLECTOR_COMMAND_SEARCH_RE`, `COLLECTOR_IGNORE_RE`, the PRAW constants and the `googleplay_api` import are not modelled. They are not used by the modelled functions.
- Classifier.FallbackRecovers: it assumes the stripped text holds no colon. In `XML_NS_RE` (`</?.+?:.+?>`, line 20) the `.` also matches `>` and text, so a match that starts at a `<` runs on to the first colon of its line, even one in text content; the rewrite can then change such text (`<Str sr="arg1">a: b</Str>` becomes `<Str sr="arg1">a_ b</Str>`). The regex is a parameter here, so for text with colons the model promises only that colons turn into underscores (`SanitizeShape`), not that the repaired text equals the stripped one.
- Classifier.FallbackRecoversInjected: it says nothing when the direct parse of the injected text succeeds. The parser may accept an injected character, for example a tab or newline (category Cc) or U+200B (category Cf) inside `<code>`. Then line 85 keeps the character in the tree, and the classification can differ from that of the clean document: a code that would hit can miss.
- Entries: nothing enforces that `Entry.otherKeys` leaves out `name`, `tags` and `excludeItemName`; the lemmas hold for every value, and only the values that respect this describe a real dict.
- Calling `parse_tasker_data` twice on the same input gives the same result. This follows from determinism, since every member is a function of its inputs, so no lemma states it.
