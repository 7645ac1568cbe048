/** The JavaScript string operations the bot relies on: truthiness of an
    optional string, `startsWith`, `indexOf`, `replace` with a string pattern
    (including the `$` patterns of the replacement text), `split` on a
    one-character separator, and `join`. */
module JsString {
  import opened Wrappers

  /** A string-or-undefined value is truthy in JavaScript exactly when it is
      defined and not the empty string. */
  predicate Truthy(v: Option<string>): (r: bool)
    ensures r <==> v != None && v != Some("")
  {
    v.Some? && v.value != ""
  }

  /** `s.startsWith(prefix)`: a case-sensitive prefix test. */
  predicate StartsWith(s: string, prefix: string): (r: bool)
    ensures r <==> |prefix| <= |s| && s == prefix + s[|prefix|..]
  {
    |prefix| <= |s| && s[..|prefix|] == prefix
  }

  /** `pat` occurs in `s` starting at index `i`. */
  predicate OccursAt(s: string, pat: string, i: int) {
    0 <= i && i + |pat| <= |s| && s[i..i + |pat|] == pat
  }

  /** `i` is the leftmost occurrence of `pat` in `s`. */
  predicate FirstOccursAt(s: string, pat: string, i: int) {
    OccursAt(s, pat, i) && forall j :: 0 <= j < i ==> !OccursAt(s, pat, j)
  }

  /** `s.indexOf(pat, from)`: the leftmost occurrence at or after `from`,
      or None where JavaScript answers -1. */
  function IndexOf(s: string, pat: string, from: nat): (r: Option<nat>)
    ensures r.Some? ==> from <= r.value && OccursAt(s, pat, r.value)
    ensures r.Some? ==> forall j :: from <= j < r.value ==> !OccursAt(s, pat, j)
    ensures r.None? ==> forall j :: from <= j ==> !OccursAt(s, pat, j)
    decreases |s| + 1 - from
  {
    if from + |pat| > |s| then None
    else if s[from..from + |pat|] == pat then Some(from)
    else IndexOf(s, pat, from + 1)
  }

  /** The replacement text of `String.prototype.replace` after expanding its
      `$` patterns (the GetSubstitution operation of ECMAScript) for a match
      without capture groups: `$$` is a dollar sign, `$&` the matched text,
      `` $` `` the text before the match and `$'` the text after it; every
      other character, including any other `$`, is copied as it is. */
  function Substitute(rep: string, before: string, matched: string, after: string): (r: string)
    ensures '$' !in rep ==> r == rep
    decreases |rep|
  {
    if |rep| == 0 then ""
    else if rep[0] == '$' && |rep| >= 2 && rep[1] == '$' then
      "$" + Substitute(rep[2..], before, matched, after)
    else if rep[0] == '$' && |rep| >= 2 && rep[1] == '&' then
      matched + Substitute(rep[2..], before, matched, after)
    else if rep[0] == '$' && |rep| >= 2 && rep[1] == '`' then
      before + Substitute(rep[2..], before, matched, after)
    else if rep[0] == '$' && |rep| >= 2 && rep[1] == '\'' then
      after + Substitute(rep[2..], before, matched, after)
    else
      [rep[0]] + Substitute(rep[1..], before, matched, after)
  }

  /** The four `$` patterns, each followed by further replacement text:
      `$$` gives one dollar sign, `$&` the matched text, `` $` `` the text
      before the match and `$'` the text after it. */
  lemma SubstitutePatterns(rest: string, before: string, matched: string, after: string)
    ensures Substitute("$$" + rest, before, matched, after) == "$" + Substitute(rest, before, matched, after)
    ensures Substitute("$&" + rest, before, matched, after) == matched + Substitute(rest, before, matched, after)
    ensures Substitute("$`" + rest, before, matched, after) == before + Substitute(rest, before, matched, after)
    ensures Substitute("$'" + rest, before, matched, after) == after + Substitute(rest, before, matched, after)
  {
  }

  /** `s.replace(pat, rep)` with a string pattern: only the leftmost
      occurrence of `pat` is replaced; without an occurrence, `s` is
      returned unchanged. */
  function Replace(s: string, pat: string, rep: string): (r: string)
    ensures (forall j :: !OccursAt(s, pat, j)) ==> r == s
  {
    match IndexOf(s, pat, 0)
    case None => s
    case Some(i) => s[..i] + Substitute(rep, s[..i], pat, s[i + |pat|..]) + s[i + |pat|..]
  }

  /** Only the leftmost occurrence is replaced, by the expanded replacement
      text; the text before it and after it is kept. */
  lemma ReplaceAtFirst(s: string, pat: string, rep: string, i: nat)
    requires FirstOccursAt(s, pat, i)
    ensures Replace(s, pat, rep) == s[..i] + Substitute(rep, s[..i], pat, s[i + |pat|..]) + s[i + |pat|..]
  {
  }

  /** A pattern whose first character appears nowhere after it, in itself or
      in what follows, occurs in `pat + tail` only at the start. */
  lemma OccursOnlyAtStart(pat: string, tail: string)
    requires |pat| > 0 && pat[0] !in pat[1..] + tail
    ensures FirstOccursAt(pat + tail, pat, 0)
    ensures forall j :: j != 0 ==> !OccursAt(pat + tail, pat, j)
  {
  }

  /** A pattern that starts the string and occurs nowhere else is replaced
      there: with a `$`-free replacement, the result is the replacement
      followed by the rest of the string. */
  lemma ReplaceLeading(pat: string, tail: string, rep: string)
    requires |pat| > 0 && pat[0] !in pat[1..] + tail
    requires '$' !in rep
    ensures Replace(pat + tail, pat, rep) == rep + tail
  {
  }

  /** With a replacement free of `$`, the replacement is inserted verbatim in
      place of the leftmost occurrence; the text before and after it is kept. */
  lemma ReplaceFirstVerbatim(s: string, pat: string, rep: string, i: nat)
    requires FirstOccursAt(s, pat, i)
    requires '$' !in rep
    ensures Replace(s, pat, rep) == s[..i] + rep + s[i + |pat|..]
    ensures Replace(s, pat, rep)[..i] == s[..i]
    ensures Replace(s, pat, rep)[i + |rep|..] == s[i + |pat|..]
  {
  }

  /** The number of occurrences of `c` in `s`. */
  function Count(s: string, c: char): nat {
    if |s| == 0 then 0 else (if s[0] == c then 1 else 0) + Count(s[1..], c)
  }

  /** `s.split(sep)` for a one-character separator: the pieces between
      consecutive separators, empty pieces included. */
  function Split(s: string, sep: char): (r: seq<string>)
    ensures |r| >= 1
    decreases |s|
  {
    if |s| == 0 then [""]
    else
      var rest := Split(s[1..], sep);
      if s[0] == sep then [""] + rest
      else [[s[0]] + rest[0]] + rest[1..]
  }

  /** `parts.join(sep)`. */
  function Join(parts: seq<string>, sep: char): string
  {
    if |parts| == 0 then ""
    else if |parts| == 1 then parts[0]
    else parts[0] + [sep] + Join(parts[1..], sep)
  }

  /** Splitting yields one more piece than there are separators. */
  lemma {:induction false} SplitCount(s: string, sep: char)
    ensures |Split(s, sep)| == Count(s, sep) + 1
    decreases |s|
  {
    if |s| > 0 {
      SplitCount(s[1..], sep);
    }
  }

  /** No piece of a split contains the separator. */
  lemma {:induction false} SplitPiecesHaveNoSeparator(s: string, sep: char)
    ensures forall k :: 0 <= k < |Split(s, sep)| ==> sep !in Split(s, sep)[k]
    decreases |s|
  {
    if |s| > 0 {
      SplitPiecesHaveNoSeparator(s[1..], sep);
      var rest := Split(s[1..], sep);
      if s[0] != sep {
        var r := Split(s, sep);
        assert r[0] == [s[0]] + rest[0];
        assert sep !in rest[0];
        forall k | 1 <= k < |r| ensures sep !in r[k] {
          assert r[k] == rest[k];
        }
      }
    }
  }

  /** Round trip: joining the pieces with the separator gives back the string. */
  lemma {:induction false} JoinSplit(s: string, sep: char)
    ensures Join(Split(s, sep), sep) == s
    decreases |s|
  {
    if |s| > 0 {
      JoinSplit(s[1..], sep);
      var rest := Split(s[1..], sep);
      var r := Split(s, sep);
      if s[0] == sep {
        assert r[1..] == rest;
        assert s == [sep] + s[1..];
      } else if |rest| == 1 {
        assert s == [s[0]] + s[1..];
      } else {
        assert r[1..] == rest[1..];
        assert Join(rest, sep) == rest[0] + [sep] + Join(rest[1..], sep);
        assert s == [s[0]] + s[1..];
      }
    }
  }

  /** A separator-free string splits into itself. */
  lemma {:induction false} SplitWithoutSeparator(p: string, sep: char)
    requires sep !in p
    ensures Split(p, sep) == [p]
    decreases |p|
  {
    if |p| > 0 {
      SplitWithoutSeparator(p[1..], sep);
      assert p == [p[0]] + p[1..];
    }
  }

  /** Splitting a separator-free piece followed by the separator peels it off. */
  lemma {:induction false} SplitPeel(p: string, sep: char, t: string)
    requires sep !in p
    ensures Split(p + [sep] + t, sep) == [p] + Split(t, sep)
    decreases |p|
  {
    var s := p + [sep] + t;
    if |p| == 0 {
      assert s[1..] == t;
    } else {
      assert s[1..] == p[1..] + [sep] + t;
      SplitPeel(p[1..], sep, t);
      assert p == [p[0]] + p[1..];
    }
  }

  /** The other round trip: a non-empty list of separator-free pieces is
      recovered by splitting its join. */
  lemma {:induction false} SplitJoin(parts: seq<string>, sep: char)
    requires |parts| >= 1
    requires forall k :: 0 <= k < |parts| ==> sep !in parts[k]
    ensures Split(Join(parts, sep), sep) == parts
    decreases |parts|
  {
    if |parts| == 1 {
      SplitWithoutSeparator(parts[0], sep);
    } else {
      SplitJoin(parts[1..], sep);
      SplitPeel(parts[0], sep, Join(parts[1..], sep));
      assert parts == [parts[0]] + parts[1..];
    }
  }
}
