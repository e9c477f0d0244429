/** The Python `str` methods the core calls: `replace`, `split` with a
    separator, `strip` with no argument, and `lower` on ASCII tags. */
module Strings {

  /** `s.replace(pat, rep)`: every non-overlapping occurrence of `pat`, found
      left to right, becomes `rep`; an empty `pat` puts `rep` between
      characters and at both ends, as Python does. */
  function Replace(s: string, pat: string, rep: string): (r: string)
    decreases |s|
  {
    if pat == [] then Interleave(s, rep)
    else if |s| < |pat| then s
    else if s[..|pat|] == pat then rep + Replace(s[|pat|..], pat, rep)
    else [s[0]] + Replace(s[1..], pat, rep)
  }

  function Interleave(s: string, sep: string): (r: string)
    decreases |s|
  {
    if s == [] then sep else sep + [s[0]] + Interleave(s[1..], sep)
  }

  lemma {:induction false} InterleaveEmpty(s: string)
    ensures Interleave(s, []) == s
    decreases |s|
  {
    if s != [] {
      InterleaveEmpty(s[1..]);
      assert s == [s[0]] + s[1..];
    }
  }

  /** `e.replace(':', '_')`. */
  function ColonToUnderscore(s: string): (r: string)
    ensures |r| == |s|
    ensures forall i :: 0 <= i < |s| ==> r[i] == (if s[i] == ':' then '_' else s[i])
    decreases |s|
  {
    if s == [] then [] else [if s[0] == ':' then '_' else s[0]] + ColonToUnderscore(s[1..])
  }

  /** `r` is `s` with some colons turned into underscores and nothing else changed. */
  predicate ColonRewrite(s: string, r: string)
  {
    |r| == |s| && forall i :: 0 <= i < |s| ==> r[i] == s[i] || (s[i] == ':' && r[i] == '_')
  }

  lemma ColonRewriteTransitive(a: string, b: string, c: string)
    requires ColonRewrite(a, b) && ColonRewrite(b, c)
    ensures ColonRewrite(a, c)
  {
  }

  lemma ColonRewriteConcat(a: string, b: string, a': string, b': string)
    requires ColonRewrite(a, a') && ColonRewrite(b, b')
    ensures ColonRewrite(a + b, a' + b')
  {
    forall i | 0 <= i < |a + b|
      ensures (a' + b')[i] == (a + b)[i] || ((a + b)[i] == ':' && (a' + b')[i] == '_')
    {
      if i >= |a| {
        assert (a + b)[i] == b[i - |a|] && (a' + b')[i] == b'[i - |a|];
      }
    }
  }

  /** Replacing a string by a colon-rewritten copy of itself keeps the length
      and changes only colons into underscores, wherever the occurrences are. */
  lemma {:induction false} ReplaceColonRewrite(s: string, pat: string, rep: string)
    requires ColonRewrite(pat, rep)
    ensures ColonRewrite(s, Replace(s, pat, rep))
    decreases |s|
  {
    if pat == [] {
      InterleaveEmpty(s);
    } else if |s| < |pat| {
    } else if s[..|pat|] == pat {
      ReplaceColonRewrite(s[|pat|..], pat, rep);
      ColonRewriteConcat(pat, s[|pat|..], rep, Replace(s[|pat|..], pat, rep));
      assert s == s[..|pat|] + s[|pat|..];
    } else {
      ReplaceColonRewrite(s[1..], pat, rep);
      ColonRewriteConcat([s[0]], s[1..], [s[0]], Replace(s[1..], pat, rep));
      assert s == [s[0]] + s[1..];
    }
  }

  /** `s.split(sep)`: the pieces between separators, always at least one. */
  function Split(s: string, sep: char): (pieces: seq<string>)
    ensures |pieces| >= 1
    decreases |s|
  {
    if s == [] then [[]]
    else if s[0] == sep then [[]] + Split(s[1..], sep)
    else
      var rest := Split(s[1..], sep);
      [[s[0]] + rest[0]] + rest[1..]
  }

  /** A trailing separator ends the split with an empty piece. */
  lemma {:induction false} SplitTrailing(t: string, sep: char)
    ensures |Split(t + [sep], sep)| >= 2
    ensures Split(t + [sep], sep)[|Split(t + [sep], sep)| - 1] == []
    decreases |t|
  {
    if t == [] {
      assert t + [sep] == [sep];
      assert [sep][1..] == [];
    } else {
      assert (t + [sep])[0] == t[0] && (t + [sep])[1..] == t[1..] + [sep];
      SplitTrailing(t[1..], sep);
    }
  }

  /** `sep.join(pieces)`. */
  function Join(pieces: seq<string>, sep: char): (r: string)
    requires |pieces| >= 1
    decreases |pieces|
  {
    if |pieces| == 1 then pieces[0] else pieces[0] + [sep] + Join(pieces[1..], sep)
  }

  /** Splitting and joining again gives back the text. */
  lemma {:induction false} SplitJoin(s: string, sep: char)
    ensures Join(Split(s, sep), sep) == s
    decreases |s|
  {
    if s == [] {
    } else if s[0] == sep {
      SplitJoin(s[1..], sep);
      assert Split(s, sep) == [[]] + Split(s[1..], sep);
      assert s == [sep] + s[1..];
    } else {
      SplitJoin(s[1..], sep);
      var rest := Split(s[1..], sep);
      var p := Split(s, sep);
      assert p == [[s[0]] + rest[0]] + rest[1..];
      if |rest| == 1 {
        assert Join(p, sep) == [s[0]] + rest[0];
      } else {
        assert Join(p, sep) == [s[0]] + rest[0] + [sep] + Join(rest[1..], sep);
        assert Join(rest, sep) == rest[0] + [sep] + Join(rest[1..], sep);
      }
      assert s == [s[0]] + s[1..];
    }
  }

  /** No piece holds the separator. */
  lemma {:induction false} SplitPieces(s: string, sep: char)
    ensures forall piece :: piece in Split(s, sep) ==> sep !in piece
    decreases |s|
  {
    if s != [] {
      SplitPieces(s[1..], sep);
      var rest := Split(s[1..], sep);
      if s[0] != sep {
        assert rest[0] in rest;
        assert forall piece :: piece in rest[1..] ==> piece in rest;
        assert sep !in [s[0]] + rest[0];
      }
    }
  }

  /** The characters `str.isspace()` accepts, which `str.strip()` removes. */
  predicate IsSpace(c: char)
  {
    ('\t' <= c <= '\r') || ('\U{1C}' <= c <= ' ') || c == '\U{85}' || c == '\U{A0}'
    || c == '\U{1680}' || ('\U{2000}' <= c <= '\U{200A}') || c == '\U{2028}' || c == '\U{2029}'
    || c == '\U{202F}' || c == '\U{205F}' || c == '\U{3000}'
  }

  /** `s` without its leading whitespace. */
  function TrimStart(s: string): (r: string)
    ensures |r| <= |s|
    decreases |s|
  {
    if s != [] && IsSpace(s[0]) then TrimStart(s[1..]) else s
  }

  /** `s` without its trailing whitespace. */
  function TrimEnd(s: string): (r: string)
    ensures |r| <= |s|
    decreases |s|
  {
    if s != [] && IsSpace(s[|s| - 1]) then TrimEnd(s[..|s| - 1]) else s
  }

  /** Trimming the front removes exactly the leading whitespace. */
  lemma {:induction false} TrimStartShape(s: string)
    ensures TrimStart(s) == s[|s| - |TrimStart(s)|..]
    ensures forall i :: 0 <= i < |s| - |TrimStart(s)| ==> IsSpace(s[i])
    ensures TrimStart(s) != [] ==> !IsSpace(TrimStart(s)[0])
    decreases |s|
  {
    if s != [] && IsSpace(s[0]) {
      TrimStartShape(s[1..]);
      var k := |s[1..]| - |TrimStart(s[1..])|;
      assert s[1..][k..] == s[k + 1..];
      forall i | 0 < i < k + 1 ensures IsSpace(s[i]) {
        assert s[i] == s[1..][i - 1];
      }
    }
  }

  /** Trimming the end removes exactly the trailing whitespace. */
  lemma {:induction false} TrimEndShape(s: string)
    ensures TrimEnd(s) == s[..|TrimEnd(s)|]
    ensures forall i :: |TrimEnd(s)| <= i < |s| ==> IsSpace(s[i])
    ensures TrimEnd(s) != [] ==> !IsSpace(TrimEnd(s)[|TrimEnd(s)| - 1])
    decreases |s|
  {
    if s != [] && IsSpace(s[|s| - 1]) {
      var init := s[..|s| - 1];
      TrimEndShape(init);
      assert init[..|TrimEnd(init)|] == s[..|TrimEnd(init)|];
      forall i | |TrimEnd(init)| <= i < |s| - 1 ensures IsSpace(s[i]) {
        assert s[i] == init[i];
      }
    }
  }

  /** `s.strip()`. */
  function Strip(s: string): (r: string)
  {
    TrimEnd(TrimStart(s))
  }

  /** What `strip` keeps: characters of `s` only, with no whitespace at
      either end. */
  lemma StripKeeps(s: string)
    ensures forall c :: c in Strip(s) ==> c in s
    ensures Strip(s) != [] ==> !IsSpace(Strip(s)[0]) && !IsSpace(Strip(s)[|Strip(s)| - 1])
  {
    var t := TrimStart(s);
    var r := TrimEnd(t);
    TrimStartShape(s);
    TrimEndShape(t);
    forall c | c in r ensures c in s {
      var i :| 0 <= i < |r| && r[i] == c;
      assert r[i] == t[i] == s[|s| - |t| + i];
    }
    if r != [] {
      assert r[0] == t[0];
    }
  }

  function LowerChar(c: char): (r: char)
  {
    if 'A' <= c <= 'Z' then (c as int + 32) as char else c
  }

  /** `s.lower()` restricted to ASCII, which is all it sees here (the three tags `State`, `Event`, `Action`). */
  function Lower(s: string): (r: string)
  {
    seq(|s|, i requires 0 <= i < |s| => LowerChar(s[i]))
  }

  /** `r` keeps some of the characters of `s`, in their order. */
  predicate IsSubsequence(r: string, s: string)
    decreases |s|
  {
    if r == [] then true
    else if s == [] then false
    else if r[0] == s[0] then IsSubsequence(r[1..], s[1..])
    else IsSubsequence(r, s[1..])
  }
}
