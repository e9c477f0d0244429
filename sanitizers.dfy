/** The text sanitisers of server/utils.py: control-character stripping and
    namespace rewriting (used to repair a document before the second parse),
    and HTML-tag and non-ASCII removal. */
module Sanitizers {
  import opened Wrappers
  import opened Strings

  // ---------------------------------------------------------------------
  // remove_control_characters

  /** `remove_control_characters(s)`: the characters of `s` whose Unicode
      general category is not C*, in order. `isC` stands for
      `unicodedata.category(ch)[0] == 'C'`. */
  function RemoveControlCharacters(s: string, isC: char -> bool): (r: string)
    ensures forall i :: 0 <= i < |r| ==> !isC(r[i])
    ensures |r| <= |s|
    decreases |s|
  {
    if s == [] then [] else (if isC(s[0]) then [] else [s[0]]) + RemoveControlCharacters(s[1..], isC)
  }

  /** Stripping works character by character: it distributes over concatenation. */
  lemma {:induction false} RemoveControlCharactersAppend(a: string, b: string, isC: char -> bool)
    ensures RemoveControlCharacters(a + b, isC) == RemoveControlCharacters(a, isC) + RemoveControlCharacters(b, isC)
    decreases |a|
  {
    if a == [] {
      assert a + b == b;
    } else {
      var head := if isC(a[0]) then [] else [a[0]];
      assert (a + b)[0] == a[0];
      assert (a + b)[1..] == a[1..] + b;
      assert RemoveControlCharacters(a + b, isC) == head + RemoveControlCharacters(a[1..] + b, isC);
      assert RemoveControlCharacters(a, isC) == head + RemoveControlCharacters(a[1..], isC);
      RemoveControlCharactersAppend(a[1..], b, isC);
    }
  }

  /** Every character that is not category C is kept, as often as it occurs,
      and every category-C character is gone. */
  lemma {:induction false} RemoveControlCharactersCounts(s: string, isC: char -> bool, c: char)
    ensures multiset(RemoveControlCharacters(s, isC))[c] == if isC(c) then 0 else multiset(s)[c]
    decreases |s|
  {
    if s != [] {
      RemoveControlCharactersCounts(s[1..], isC, c);
      assert s == [s[0]] + s[1..];
    }
  }

  /** The kept characters keep their relative order. */
  lemma {:induction false} RemoveControlCharactersOrder(s: string, isC: char -> bool)
    ensures IsSubsequence(RemoveControlCharacters(s, isC), s)
    decreases |s|
  {
    if s != [] {
      RemoveControlCharactersOrder(s[1..], isC);
      if !isC(s[0]) {
        assert RemoveControlCharacters(s, isC) == [s[0]] + RemoveControlCharacters(s[1..], isC);
      } else {
        assert RemoveControlCharacters(s, isC) == RemoveControlCharacters(s[1..], isC);
        SubsequenceDropFront(RemoveControlCharacters(s[1..], isC), s);
      }
    }
  }

  lemma {:induction false} SubsequenceDropFront(r: string, s: string)
    requires s != [] && IsSubsequence(r, s[1..])
    ensures IsSubsequence(r, s)
    decreases |s|, 0
  {
    if r != [] && r[0] == s[0] {
      SubsequenceTail(r, s[1..]);
    }
  }

  lemma {:induction false} SubsequenceTail(r: string, s: string)
    requires r != [] && IsSubsequence(r, s)
    ensures IsSubsequence(r[1..], s)
    decreases |s|, 1
  {
    if r[0] == s[0] {
      SubsequenceDropFront(r[1..], s);
    } else {
      SubsequenceTail(r, s[1..]);
      SubsequenceDropFront(r[1..], s);
    }
  }

  /** Text without category-C characters is left alone; hence stripping twice is stripping once. */
  lemma {:induction false} RemoveControlCharactersClean(s: string, isC: char -> bool)
    requires forall i :: 0 <= i < |s| ==> !isC(s[i])
    ensures RemoveControlCharacters(s, isC) == s
    decreases |s|
  {
    if s != [] {
      RemoveControlCharactersClean(s[1..], isC);
      assert s == [s[0]] + s[1..];
    }
  }

  lemma RemoveControlCharactersIdempotent(s: string, isC: char -> bool)
    ensures RemoveControlCharacters(RemoveControlCharacters(s, isC), isC) == RemoveControlCharacters(s, isC)
  {
    RemoveControlCharactersClean(RemoveControlCharacters(s, isC), isC);
  }

  /** `remove_control_characters("a\x00b\x1Fc") == "abc"`. */
  lemma RemoveControlCharactersExample(isC: char -> bool)
    requires isC('\0') && isC('\U{1F}')
    requires !isC('a') && !isC('b') && !isC('c')
    ensures RemoveControlCharacters("a\0b\U{1F}c", isC) == "abc"
  {
    var s := "a\0b\U{1F}c";
    assert s == "a" + "\0" + "b" + "\U{1F}" + "c";
    RemoveControlCharactersAppend("a", "\0" + "b" + "\U{1F}" + "c", isC);
    RemoveControlCharactersAppend("\0", "b" + "\U{1F}" + "c", isC);
    RemoveControlCharactersAppend("b", "\U{1F}" + "c", isC);
    RemoveControlCharactersAppend("\U{1F}", "c", isC);
  }

  // ---------------------------------------------------------------------
  // remove_namespaces

  /** The text after the replacements for `tags`, applied in list order:
      each tag is replaced by its copy with colons turned into underscores. */
  function RewriteAll(xml: string, tags: seq<string>): (r: string)
    decreases |tags|
  {
    if tags == [] then xml
    else
      var last := tags[|tags| - 1];
      Replace(RewriteAll(xml, tags[..|tags| - 1]), last, ColonToUnderscore(last))
  }

  /** Whatever tags are replaced and in whatever order, the text keeps its
      length and only colons become underscores. */
  lemma {:induction false} RewriteAllColonRewrite(xml: string, tags: seq<string>)
    ensures ColonRewrite(xml, RewriteAll(xml, tags))
    decreases |tags|
  {
    if tags != [] {
      var last := tags[|tags| - 1];
      var before := RewriteAll(xml, tags[..|tags| - 1]);
      RewriteAllColonRewrite(xml, tags[..|tags| - 1]);
      ReplaceColonRewrite(before, last, ColonToUnderscore(last));
      ColonRewriteTransitive(xml, before, RewriteAll(xml, tags));
    }
  }

  /** `remove_namespaces(xml)` with `nsTags` standing for
      `list(set(XML_NS_RE.findall(xml)))`, whose order Python's set decides. */
  method RemoveNamespaces(xml: string, nsTags: seq<string>) returns (r: string)
    ensures r == RewriteAll(xml, nsTags)
    ensures |r| == |xml|
    ensures forall i :: 0 <= i < |xml| ==> r[i] == xml[i] || (xml[i] == ':' && r[i] == '_')
  {
    var repls := seq(|nsTags|, k requires 0 <= k < |nsTags| => ColonToUnderscore(nsTags[k]));
    r := xml;
    var i := 0;
    while i < |nsTags|
      invariant 0 <= i <= |nsTags|
      invariant r == RewriteAll(xml, nsTags[..i])
    {
      r := Replace(r, nsTags[i], repls[i]);
      assert nsTags[..i + 1][..i] == nsTags[..i];
      i := i + 1;
    }
    assert nsTags[..i] == nsTags;
    RewriteAllColonRewrite(xml, nsTags);
  }

  /** A text without colons comes out of the namespace rewriting unchanged. */
  lemma RewriteAllNoColon(xml: string, tags: seq<string>)
    requires ':' !in xml
    ensures RewriteAll(xml, tags) == xml
  {
    RewriteAllColonRewrite(xml, tags);
    var r := RewriteAll(xml, tags);
    forall i | 0 <= i < |xml| ensures r[i] == xml[i] {
      assert xml[i] != ':';
    }
  }

  // ---------------------------------------------------------------------
  // remove_html_tags: re.sub(r'<.*?>', '', text)

  /** Where the lazy `.*?>` that starts at `k` ends: the first `>` at or after
      `k`, provided no newline comes before it (`.` does not match a newline). */
  function TagClose(s: string, k: nat): (r: Option<nat>)
    requires k <= |s|
    ensures r.Some? ==> k <= r.value < |s| && s[r.value] == '>'
                        && forall j :: k <= j < r.value ==> s[j] != '>' && s[j] != '\n'
    ensures r.None? ==> forall j :: k <= j < |s| && s[j] == '>' ==> exists m :: k <= m < j && s[m] == '\n'
    decreases |s| - k
  {
    if k == |s| then None
    else if s[k] == '>' then Some(k)
    else if s[k] == '\n' then None
    else TagClose(s, k + 1)
  }

  /** `remove_html_tags(text)`: scanning left to right, each `<` that has a
      following `>` before any newline is removed together with everything up
      to and including that `>`. */
  function RemoveHtmlTags(s: string): (r: string)
    decreases |s|
  {
    if s == [] then []
    else if s[0] == '<' && TagClose(s, 1).Some? then RemoveHtmlTags(s[TagClose(s, 1).value + 1..])
    else [s[0]] + RemoveHtmlTags(s[1..])
  }

  /** Removal keeps characters in order and never lengthens the text. */
  lemma {:induction false} RemoveHtmlTagsShrinks(s: string)
    ensures IsSubsequence(RemoveHtmlTags(s), s)
    ensures |RemoveHtmlTags(s)| <= |s|
    decreases |s|
  {
    if s == [] {
    } else if s[0] == '<' && TagClose(s, 1).Some? {
      var j := TagClose(s, 1).value;
      RemoveHtmlTagsShrinks(s[j + 1..]);
      SubsequenceOfSuffix(RemoveHtmlTags(s[j + 1..]), s, j + 1);
    } else {
      RemoveHtmlTagsShrinks(s[1..]);
      assert RemoveHtmlTags(s)[1..] == RemoveHtmlTags(s[1..]);
    }
  }

  lemma {:induction false} SubsequenceOfSuffix(r: string, s: string, k: nat)
    requires k <= |s| && IsSubsequence(r, s[k..])
    ensures IsSubsequence(r, s)
    decreases k
  {
    if k > 0 {
      assert s[k..] == s[1..][k - 1..];
      SubsequenceOfSuffix(r, s[1..], k - 1);
      SubsequenceDropFront(r, s);
    }
  }

  /** Text with no `<` is left unchanged. */
  lemma {:induction false} RemoveHtmlTagsNoOpen(s: string)
    requires '<' !in s
    ensures RemoveHtmlTags(s) == s
    decreases |s|
  {
    if s != [] {
      RemoveHtmlTagsNoOpen(s[1..]);
      assert s == [s[0]] + s[1..];
    }
  }

  /** No `<` of the text is followed by a `>` without a newline in between. */
  predicate NoTag(s: string)
  {
    forall i, j :: 0 <= i < j < |s| && s[i] == '<' && s[j] == '>' ==> exists m :: i < m < j && s[m] == '\n'
  }

  /** A tag never spans a newline, so removal works line by line. */
  lemma {:induction false} RemoveHtmlTagsAtNewline(a: string, b: string)
    ensures RemoveHtmlTags(a + "\n" + b) == RemoveHtmlTags(a) + "\n" + RemoveHtmlTags(b)
    decreases |a|
  {
    var s := a + "\n" + b;
    if a == [] {
      assert s == "\n" + b;
      assert s[1..] == b;
    } else {
      assert s[0] == a[0];
      if a[0] == '<' && TagClose(a, 1).Some? {
        var j := TagClose(a, 1).value;
        assert s == a + ("\n" + b);
        TagCloseExtend(a, "\n" + b, 1);
        assert s[j + 1..] == a[j + 1..] + "\n" + b;
        RemoveHtmlTagsAtNewline(a[j + 1..], b);
      } else {
        if a[0] == '<' {
          TagCloseExtendNone(a, b, 1);
        }
        assert s[1..] == a[1..] + "\n" + b;
        RemoveHtmlTagsAtNewline(a[1..], b);
      }
    }
  }

  lemma {:induction false} TagCloseExtend(a: string, b: string, k: nat)
    requires k <= |a| && TagClose(a, k).Some?
    ensures TagClose(a + b, k) == TagClose(a, k)
    decreases |a| - k
  {
    assert (a + b)[k] == a[k];
    if a[k] != '>' && a[k] != '\n' {
      TagCloseExtend(a, b, k + 1);
    }
  }

  lemma {:induction false} TagCloseExtendNone(a: string, b: string, k: nat)
    requires k <= |a| && TagClose(a, k).None?
    ensures TagClose(a + "\n" + b, k).None?
    decreases |a| - k
  {
    var s := a + "\n" + b;
    if k == |a| {
      assert s[k] == '\n';
    } else {
      assert s[k] == a[k];
      if a[k] != '\n' {
        TagCloseExtendNone(a, b, k + 1);
      }
    }
  }

  /** The output holds no tag left for the pattern to match. */
  lemma {:induction false} RemoveHtmlTagsNoTag(s: string)
    ensures NoTag(RemoveHtmlTags(s))
    decreases |s|
  {
    if s == [] {
    } else if s[0] == '<' && TagClose(s, 1).Some? {
      RemoveHtmlTagsNoTag(s[TagClose(s, 1).value + 1..]);
    } else {
      RemoveHtmlTagsNoTag(s[1..]);
      assert RemoveHtmlTags(s) == [s[0]] + RemoveHtmlTags(s[1..]);
      if s[0] == '<' {
        UnclosedOpen(s);
      } else {
        NoTagCons(s[0], RemoveHtmlTags(s[1..]));
      }
    }
  }

  /** A `<` the pattern cannot close stays, and no `>` of the output follows it on its line. */
  lemma UnclosedOpen(s: string)
    requires s != [] && s[0] == '<' && TagClose(s, 1).None?
    requires NoTag(RemoveHtmlTags(s[1..]))
    ensures NoTag([s[0]] + RemoveHtmlTags(s[1..]))
  {
    if '\n' in s[1..] {
      UnclosedOpenLine(s);
    } else {
      UnclosedOpenLast(s);
    }
  }

  /** The unclosed `<` is followed by a newline: the output has no `>` before it. */
  lemma UnclosedOpenLine(s: string)
    requires s != [] && s[0] == '<' && TagClose(s, 1).None? && '\n' in s[1..]
    requires NoTag(RemoveHtmlTags(s[1..]))
    ensures NoTag([s[0]] + RemoveHtmlTags(s[1..]))
  {
    var pre, post := FirstLineOfOutput(s);
    OpenBeforeLine(pre, post);
  }

  /** After an unclosed `<`, the output up to the first newline holds no `>`. */
  lemma FirstLineOfOutput(s: string) returns (pre: string, post: string)
    requires s != [] && TagClose(s, 1).None? && '\n' in s[1..]
    ensures RemoveHtmlTags(s[1..]) == pre + "\n" + post && '>' !in pre
  {
    var rest := s[1..];
    var k := FirstNewline(rest);
    pre := RemoveHtmlTags(rest[..k]);
    post := RemoveHtmlTags(rest[k + 1..]);
    assert rest == rest[..k] + "\n" + rest[k + 1..];
    RemoveHtmlTagsAtNewline(rest[..k], rest[k + 1..]);
    PrefixHasNoClose(s, k);
  }

  /** A `<` in front of a line without `>` opens no tag. */
  lemma OpenBeforeLine(pre: string, post: string)
    requires '>' !in pre && NoTag(pre + "\n" + post)
    ensures NoTag(['<'] + (pre + "\n" + post))
  {
    var r := ['<'] + (pre + "\n" + post);
    assert r[1..] == pre + "\n" + post;
    assert r[|pre| + 1] == '\n';
    forall j | 0 < j < |pre| + 1 ensures r[j] != '>' {
      assert r[j] == pre[j - 1];
    }
    NoTagPrefix(r, |pre| + 1);
  }

  lemma PrefixHasNoClose(s: string, k: nat)
    requires s != [] && TagClose(s, 1).None? && '\n' in s[1..] && k == FirstNewline(s[1..])
    ensures '>' !in RemoveHtmlTags(s[1..][..k])
  {
    var rest := s[1..];
    NoCloseBeforeNewline(s, 1, k + 1);
    assert '>' !in rest[..k];
    RemoveHtmlTagsShrinks(rest[..k]);
    SubsequenceMissing(RemoveHtmlTags(rest[..k]), rest[..k], '>');
  }

  /** The unclosed `<` is on the last line: the output has no `>` after it. */
  lemma UnclosedOpenLast(s: string)
    requires s != [] && s[0] == '<' && TagClose(s, 1).None? && '\n' !in s[1..]
    requires NoTag(RemoveHtmlTags(s[1..]))
    ensures NoTag([s[0]] + RemoveHtmlTags(s[1..]))
  {
    var rest := s[1..];
    var r := [s[0]] + RemoveHtmlTags(rest);
    NoCloseAtAll(s, 1);
    assert '>' !in rest;
    RemoveHtmlTagsShrinks(rest);
    SubsequenceMissing(RemoveHtmlTags(rest), rest, '>');
    assert forall j :: 0 < j < |r| ==> r[j] != '>' by {
      forall j | 0 < j < |r| ensures r[j] != '>' { assert r[j] == RemoveHtmlTags(rest)[j - 1]; }
    }
  }

  function FirstNewline(s: string): (k: nat)
    requires '\n' in s
    ensures k < |s| && s[k] == '\n' && '\n' !in s[..k]
  {
    if s[0] == '\n' then 0 else
      var k := FirstNewline(s[1..]);
      assert s[..k + 1] == [s[0]] + s[1..][..k];
      k + 1
  }

  lemma {:induction false} NoCloseBeforeNewline(s: string, k: nat, n: nat)
    requires k <= n < |s| && s[n] == '\n' && TagClose(s, k).None?
    requires forall j :: k <= j < n ==> s[j] != '\n'
    ensures forall j :: k <= j < n ==> s[j] != '>'
    decreases n - k
  {
    if k < n {
      NoCloseBeforeNewline(s, k + 1, n);
    }
  }

  lemma {:induction false} NoCloseAtAll(s: string, k: nat)
    requires k <= |s| && TagClose(s, k).None?
    requires forall j :: k <= j < |s| ==> s[j] != '\n'
    ensures forall j :: k <= j < |s| ==> s[j] != '>'
    decreases |s| - k
  {
    if k < |s| {
      NoCloseAtAll(s, k + 1);
    }
  }

  lemma {:induction false} SubsequenceMissing(r: string, s: string, c: char)
    requires IsSubsequence(r, s) && c !in s
    ensures c !in r
    decreases |s|
  {
    if r != [] {
      if r[0] == s[0] {
        SubsequenceMissing(r[1..], s[1..], c);
        assert r == [r[0]] + r[1..];
      } else {
        SubsequenceMissing(r, s[1..], c);
      }
    }
  }

  /** `r` starts with `<`, has no `>` before the newline at `n`, and satisfies NoTag after position 0. */
  lemma NoTagPrefix(r: string, n: nat)
    requires 0 < n < |r| && r[n] == '\n'
    requires forall j :: 0 < j < n ==> r[j] != '>'
    requires NoTag(r[1..])
    ensures NoTag(r)
  {
    forall i, j | 0 <= i < j < |r| && r[i] == '<' && r[j] == '>'
      ensures exists m :: i < m < j && r[m] == '\n'
    {
      if i == 0 {
        assert 0 < n < j;
      } else {
        assert r[1..][i - 1] == '<' && r[1..][j - 1] == '>';
        var m :| i - 1 < m < j - 1 && r[1..][m] == '\n';
        assert r[m + 1] == '\n';
      }
    }
  }

  lemma NoTagCons(c: char, r: string)
    requires c != '<' && NoTag(r)
    ensures NoTag([c] + r)
  {
    var t := [c] + r;
    forall i, j | 0 <= i < j < |t| && t[i] == '<' && t[j] == '>'
      ensures exists m :: i < m < j && t[m] == '\n'
    {
      assert i > 0;
      assert r[i - 1] == '<' && r[j - 1] == '>';
      var m :| i - 1 < m < j - 1 && r[m] == '\n';
      assert t[m + 1] == '\n';
    }
  }

  /** Text without a tag is a fixed point, so removing tags twice is removing them once. */
  lemma {:induction false} RemoveHtmlTagsFixed(s: string)
    requires NoTag(s)
    ensures RemoveHtmlTags(s) == s
    decreases |s|
  {
    if s != [] {
      assert !(s[0] == '<' && TagClose(s, 1).Some?);
      assert NoTag(s[1..]) by {
        forall i, j | 0 <= i < j < |s[1..]| && s[1..][i] == '<' && s[1..][j] == '>'
          ensures exists m :: i < m < j && s[1..][m] == '\n'
        {
          assert s[i + 1] == '<' && s[j + 1] == '>';
          var m :| i + 1 < m < j + 1 && s[m] == '\n';
          assert s[1..][m - 1] == '\n';
        }
      }
      RemoveHtmlTagsFixed(s[1..]);
      assert s == [s[0]] + s[1..];
    }
  }

  lemma RemoveHtmlTagsIdempotent(s: string)
    ensures RemoveHtmlTags(RemoveHtmlTags(s)) == RemoveHtmlTags(s)
  {
    RemoveHtmlTagsNoTag(s);
    RemoveHtmlTagsFixed(RemoveHtmlTags(s));
  }

  // ---------------------------------------------------------------------
  // remove_unicode: re.sub(r'[^\x00-\x7F]+', ' ', text)

  predicate IsAscii(c: char)
  {
    c as int < 0x80
  }

  predicate AllAscii(s: string)
  {
    forall i :: 0 <= i < |s| ==> IsAscii(s[i])
  }

  /** The text after its leading run of non-ASCII characters. */
  function DropNonAscii(s: string): (r: string)
    ensures |r| <= |s|
    decreases |s|
  {
    if s != [] && !IsAscii(s[0]) then DropNonAscii(s[1..]) else s
  }

  /** `remove_unicode(text)`: each maximal run of non-ASCII characters becomes one space. */
  function RemoveUnicode(s: string): (r: string)
    decreases |s|
  {
    if s == [] then []
    else if IsAscii(s[0]) then [s[0]] + RemoveUnicode(s[1..])
    else " " + RemoveUnicode(DropNonAscii(s[1..]))
  }

  /** The output is all ASCII and never longer than the input. */
  lemma {:induction false} RemoveUnicodeAscii(s: string)
    ensures AllAscii(RemoveUnicode(s))
    ensures |RemoveUnicode(s)| <= |s|
    decreases |s|
  {
    if s == [] {
    } else if IsAscii(s[0]) {
      RemoveUnicodeAscii(s[1..]);
      assert forall i :: 1 <= i < |RemoveUnicode(s)| ==> RemoveUnicode(s)[i] == RemoveUnicode(s[1..])[i - 1];
    } else {
      var rest := DropNonAscii(s[1..]);
      RemoveUnicodeAscii(rest);
      assert forall i :: 1 <= i < |RemoveUnicode(s)| ==> RemoveUnicode(s)[i] == RemoveUnicode(rest)[i - 1];
    }
  }

  /** All-ASCII text is left unchanged; hence the transformation is idempotent. */
  lemma {:induction false} RemoveUnicodeOnAscii(s: string)
    requires AllAscii(s)
    ensures RemoveUnicode(s) == s
    decreases |s|
  {
    if s != [] {
      assert IsAscii(s[0]);
      RemoveUnicodeOnAscii(s[1..]);
      assert s == [s[0]] + s[1..];
    }
  }

  lemma RemoveUnicodeIdempotent(s: string)
    ensures RemoveUnicode(RemoveUnicode(s)) == RemoveUnicode(s)
  {
    RemoveUnicodeAscii(s);
    RemoveUnicodeOnAscii(RemoveUnicode(s));
  }

  /** A nonempty run of non-ASCII characters becomes a single space. */
  lemma RemoveUnicodeRun(u: string)
    requires u != [] && forall i :: 0 <= i < |u| ==> !IsAscii(u[i])
    ensures RemoveUnicode(u) == " "
  {
    DropNonAsciiRun(u[1..]);
  }

  lemma {:induction false} DropNonAsciiRun(u: string)
    requires forall i :: 0 <= i < |u| ==> !IsAscii(u[i])
    ensures DropNonAscii(u) == []
    decreases |u|
  {
    if u != [] {
      DropNonAsciiRun(u[1..]);
    }
  }

  lemma {:induction false} DropNonAsciiAppend(a: string, b: string)
    ensures DropNonAscii(a + b) == if DropNonAscii(a) == [] then DropNonAscii(b) else DropNonAscii(a) + b
    decreases |a|
  {
    if a == [] {
      assert a + b == b;
    } else {
      assert (a + b)[0] == a[0];
      if !IsAscii(a[0]) {
        assert (a + b)[1..] == a[1..] + b;
        assert DropNonAscii(a + b) == DropNonAscii(a[1..] + b);
        assert DropNonAscii(a) == DropNonAscii(a[1..]);
        DropNonAsciiAppend(a[1..], b);
      } else {
        assert DropNonAscii(a + b) == a + b;
        assert DropNonAscii(a) == a;
      }
    }
  }

  /** An ASCII character splits the text: what is left of it and what is
      right of it are rewritten independently, and the character itself is kept. */
  lemma {:induction false} RemoveUnicodeSplit(a: string, c: char, b: string)
    requires IsAscii(c)
    ensures RemoveUnicode(a + [c] + b) == RemoveUnicode(a) + [c] + RemoveUnicode(b)
    decreases |a|
  {
    var s := a + [c] + b;
    if a == [] {
      assert s == [c] + b;
      assert s[1..] == b;
    } else if IsAscii(a[0]) {
      assert s[0] == a[0] && s[1..] == a[1..] + [c] + b;
      RemoveUnicodeSplit(a[1..], c, b);
    } else {
      assert s[0] == a[0] && s[1..] == a[1..] + ([c] + b);
      DropNonAsciiAppend(a[1..], [c] + b);
      var d := DropNonAscii(a[1..]);
      if d == [] {
        assert DropNonAscii([c] + b) == [c] + b;
        assert RemoveUnicode(a) == " " + RemoveUnicode([]);
        assert RemoveUnicode([c] + b) == [c] + RemoveUnicode(b);
      } else {
        assert DropNonAscii(s[1..]) == d + [c] + b;
        RemoveUnicodeSplit(d, c, b);
      }
    }
  }

  /** The ASCII characters of the text, in order. */
  function AsciiOnly(s: string): (r: string)
    ensures AllAscii(r)
    decreases |s|
  {
    if s == [] then [] else (if IsAscii(s[0]) then [s[0]] else []) + AsciiOnly(s[1..])
  }

  /** Every ASCII character of the input survives, in its order. */
  lemma {:induction false} RemoveUnicodeKeepsAscii(s: string)
    ensures IsSubsequence(AsciiOnly(s), RemoveUnicode(s))
    decreases |s|
  {
    if s != [] {
      if IsAscii(s[0]) {
        RemoveUnicodeKeepsAscii(s[1..]);
        assert AsciiOnly(s) == [s[0]] + AsciiOnly(s[1..]);
        assert RemoveUnicode(s) == [s[0]] + RemoveUnicode(s[1..]);
      } else {
        var rest := DropNonAscii(s[1..]);
        RemoveUnicodeKeepsAscii(rest);
        AsciiOnlyDrop(s[1..]);
        assert AsciiOnly(s) == AsciiOnly(rest);
        assert RemoveUnicode(s)[1..] == RemoveUnicode(rest);
        SubsequenceDropFront(AsciiOnly(s), RemoveUnicode(s));
      }
    }
  }

  lemma {:induction false} AsciiOnlyDrop(u: string)
    ensures AsciiOnly(DropNonAscii(u)) == AsciiOnly(u)
    decreases |u|
  {
    if u != [] && !IsAscii(u[0]) {
      AsciiOnlyDrop(u[1..]);
    }
  }
}
