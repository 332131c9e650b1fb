/**
 * The .NET string operations the request handlers rely on: `Trim`, `Split` with
 * `TrimEntries | RemoveEmptyEntries`, `IsNullOrWhiteSpace`, and the ignore-case
 * comparisons, the latter approximated by ASCII case folding.
 */
module Text {

  /** The characters `Char.IsWhiteSpace` accepts: U+0009..U+000D, U+0085 and the
      Unicode space, line and paragraph separators. */
  const WhiteSpace: set<char> := {
    '\t', '\n', '\U{B}', '\U{C}', '\r', ' ', '\U{85}', '\U{A0}', '\U{1680}',
    '\U{2000}', '\U{2001}', '\U{2002}', '\U{2003}', '\U{2004}', '\U{2005}',
    '\U{2006}', '\U{2007}', '\U{2008}', '\U{2009}', '\U{200A}',
    '\U{2028}', '\U{2029}', '\U{202F}', '\U{205F}', '\U{3000}'
  }

  /** `string.IsNullOrWhiteSpace` on a non-null string: empty or only white space. */
  predicate IsBlank(s: string) {
    forall i :: 0 <= i < |s| ==> s[i] in WhiteSpace
  }

  /** `TrimStart(drop)`: the longest suffix of `s` that does not start with a dropped character. */
  function StripStart(s: string, drop: set<char>): (r: string)
    ensures |r| <= |s| && r == s[|s| - |r|..]
    ensures forall k :: 0 <= k < |s| - |r| ==> s[k] in drop
    ensures r != [] ==> r[0] !in drop
  {
    if s != [] && s[0] in drop then StripStart(s[1..], drop) else s
  }

  /** `TrimEnd(drop)`: the longest prefix of `s` that does not end with a dropped character. */
  function StripEnd(s: string, drop: set<char>): (r: string)
    ensures |r| <= |s| && r == s[..|r|]
    ensures forall k :: |r| <= k < |s| ==> s[k] in drop
    ensures r != [] ==> r[|r| - 1] !in drop
  {
    if s != [] && s[|s| - 1] in drop then StripEnd(s[..|s| - 1], drop) else s
  }

  /** `Trim(drop)`: both ends stripped. */
  function Strip(s: string, drop: set<char>): (r: string)
    ensures |r| <= |s|
    ensures r != [] ==> r[0] !in drop && r[|r| - 1] !in drop
    ensures r == [] <==> forall i :: 0 <= i < |s| ==> s[i] in drop
    ensures forall c :: c in r ==> c in s
  {
    var front := StripStart(s, drop);
    var r := StripEnd(front, drop);
    SliceMembers(front, 0, |r|);
    SliceMembers(s, |s| - |front|, |s|);
    assert r == [] ==> front == [] by {
      if r == [] && front != [] {
        assert false;
      }
    }
    r
  }

  /** Every character of a slice occurs in the whole. */
  lemma SliceMembers(s: string, i: nat, j: nat)
    requires i <= j <= |s|
    ensures forall c :: c in s[i..j] ==> c in s
  {
    forall c | c in s[i..j] ensures c in s {
      var k :| 0 <= k < j - i && s[i..j][k] == c;
      assert s[i + k] == c;
    }
  }

  /** Nothing to strip at the front. */
  lemma StripStartNoop(s: string, drop: set<char>)
    requires s != [] ==> s[0] !in drop
    ensures StripStart(s, drop) == s
  {
  }

  /** Nothing to strip at the back. */
  lemma StripEndNoop(s: string, drop: set<char>)
    requires s != [] ==> s[|s| - 1] !in drop
    ensures StripEnd(s, drop) == s
  {
  }

  /** `string.Join(sep, parts)`. */
  function Join(parts: seq<string>, sep: char): string
  {
    if |parts| == 0 then ""
    else if |parts| == 1 then parts[0]
    else parts[0] + [sep] + Join(parts[1..], sep)
  }

  /** `s.Split(sep)`: the pieces between separators, empty pieces included. */
  function Split(s: string, sep: char): (parts: seq<string>)
    ensures |parts| >= 1
    ensures forall i :: 0 <= i < |parts| ==> sep !in parts[i]
    ensures Join(parts, sep) == s
  {
    if |s| == 0 then [""]
    else
      var rest := Split(s[1..], sep);
      if s[0] == sep then
        var parts := [""] + rest;
        assert parts[1..] == rest;
        parts
      else
        var parts := [[s[0]] + rest[0]] + rest[1..];
        assert |rest| > 1 ==> parts[1..] == rest[1..] && Join(rest, sep) == rest[0] + [sep] + Join(rest[1..], sep);
        parts
  }

  /** A string without the separator is not split at all. */
  lemma {:induction false} SplitNoSeparator(s: string, sep: char)
    requires sep !in s
    ensures Split(s, sep) == [s]
  {
    if |s| > 0 {
      SplitNoSeparator(s[1..], sep);
    }
  }

  /** No piece contains the separator. */
  predicate SeparatorFree(parts: seq<string>, sep: char) {
    forall i :: 0 <= i < |parts| ==> sep !in parts[i]
  }

  /** One piece between others: where it lands, and that the whole is separator-free
      when every part is. */
  lemma PiecesAround(before: seq<string>, piece: string, after: seq<string>, sep: char)
    ensures var parts := before + [piece] + after;
      && |parts| == |before| + 1 + |after| && parts[|before|] == piece
      && (forall j :: 0 <= j < |before| ==> parts[j] == before[j])
      && (SeparatorFree(before, sep) && sep !in piece && SeparatorFree(after, sep) ==> SeparatorFree(parts, sep))
  {
    var parts := before + [piece] + after;
    if SeparatorFree(before, sep) && sep !in piece && SeparatorFree(after, sep) {
      forall i | 0 <= i < |parts| ensures sep !in parts[i] {
        if i < |before| {
          assert parts[i] == before[i];
        } else if i > |before| {
          assert parts[i] == after[i - |before| - 1];
        }
      }
    }
  }

  /** Joining separator-free pieces loses nothing: the pieces can be read back. */
  lemma {:induction false} JoinInjective(a: seq<string>, b: seq<string>, sep: char)
    requires |a| >= 1 && |b| >= 1 && SeparatorFree(a, sep) && SeparatorFree(b, sep)
    requires Join(a, sep) == Join(b, sep)
    decreases |a|
    ensures a == b
  {
    var s := Join(a, sep);
    if |a| == 1 && |b| > 1 {
      assert false;
    } else if |a| > 1 && |b| == 1 {
      assert false;
    } else if |a| > 1 {
      JoinHead(a, sep);
      JoinHead(b, sep);
      assert |a[0]| == |b[0]|;
      assert a[0] == s[..|a[0]|] == b[0];
      assert Join(a[1..], sep) == s[|a[0]| + 1..] == Join(b[1..], sep);
      assert SeparatorFree(a[1..], sep) by {
        forall i | 0 <= i < |a| - 1 ensures sep !in a[1..][i] { assert a[1..][i] == a[i + 1]; }
      }
      assert SeparatorFree(b[1..], sep) by {
        forall i | 0 <= i < |b| - 1 ensures sep !in b[1..][i] { assert b[1..][i] == b[i + 1]; }
      }
      JoinInjective(a[1..], b[1..], sep);
      assert a == [a[0]] + a[1..] && b == [b[0]] + b[1..];
    }
  }

  /** Where the first separator of a join of several pieces falls: right after the first piece. */
  lemma JoinHead(parts: seq<string>, sep: char)
    requires |parts| > 1 && sep !in parts[0]
    ensures var s := Join(parts, sep);
      && |parts[0]| < |s| && s[..|parts[0]|] == parts[0] && s[|parts[0]|] == sep
      && forall k :: 0 <= k < |parts[0]| ==> s[k] != sep
  {
    var s := Join(parts, sep);
    assert forall k :: 0 <= k < |parts[0]| ==> s[k] == parts[0][k];
  }

  /** Splitting a join of separator-free pieces gives the pieces back. */
  lemma SplitJoin(parts: seq<string>, sep: char)
    requires |parts| >= 1 && SeparatorFree(parts, sep)
    ensures Split(Join(parts, sep), sep) == parts
  {
    JoinInjective(Split(Join(parts, sep), sep), parts, sep);
  }

  /** Every character of a join is the separator or a character of a piece. */
  lemma {:induction false} JoinChars(parts: seq<string>, sep: char, c: char)
    requires c in Join(parts, sep) && c != sep
    ensures exists i :: 0 <= i < |parts| && c in parts[i]
  {
    if |parts| > 1 {
      if c !in parts[0] {
        JoinChars(parts[1..], sep, c);
        var i :| 0 <= i < |parts| - 1 && c in parts[1..][i];
        assert c in parts[i + 1];
      }
    }
  }

  /** A non-empty string with no white space at either end. */
  predicate IsTrimmedToken(t: string) {
    t != [] && t[0] !in WhiteSpace && t[|t| - 1] !in WhiteSpace
  }

  /** `StringSplitOptions.TrimEntries | RemoveEmptyEntries`: trim each piece of white
      space and keep the ones left non-empty, in order. */
  function TrimEntries(parts: seq<string>): (tokens: seq<string>)
    ensures |tokens| <= |parts|
    ensures forall i :: 0 <= i < |tokens| ==> IsTrimmedToken(tokens[i])
  {
    if parts == [] then []
    else
      var t := Strip(parts[0], WhiteSpace);
      (if t == [] then [] else [t]) + TrimEntries(parts[1..])
  }

  /** ASCII case folding, standing in for the invariant culture's. */
  function Lower(c: char): char
  {
    if 'A' <= c <= 'Z' then (c as int + 32) as char else c
  }

  /** `string.Compare(a, b, InvariantCulture, IgnoreCase) == 0`. */
  predicate EqualsIgnoreCase(a: string, b: string)
  {
    |a| == |b| && forall i :: 0 <= i < |a| ==> Lower(a[i]) == Lower(b[i])
  }

  /** `s.StartsWith(prefix, InvariantCultureIgnoreCase)`. */
  predicate StartsWithIgnoreCase(s: string, prefix: string)
  {
    |prefix| <= |s| && EqualsIgnoreCase(s[..|prefix|], prefix)
  }
}
