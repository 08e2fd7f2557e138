/**
  The string primitives the core relies on: ordinal case-insensitive comparison,
  `string.Trim()`, and `string.Split(' ', StringSplitOptions.RemoveEmptyEntries)`.
  Case folding is the ASCII upper-case mapping.
 */
module Text {

  /** Upper-case mapping of one character, ASCII letters only. */
  function Fold(c: char): (d: char)
    ensures 'a' <= c <= 'z' ==> d as int == c as int - 32
    ensures !('a' <= c <= 'z') ==> d == c
    ensures !('a' <= d <= 'z')
  {
    if 'a' <= c <= 'z' then (c as int - 32) as char else c
  }

  function FoldString(s: string): string
  {
    seq(|s|, i requires 0 <= i < |s| => Fold(s[i]))
  }

  /** `string.Equals(a, b, StringComparison.OrdinalIgnoreCase)`. */
  predicate EqualsIgnoreCase(a: string, b: string)
  {
    FoldString(a) == FoldString(b)
  }

  /** Two strings are equal ignoring case exactly when they agree character by character up to folding. */
  lemma EqualsIgnoreCaseChars(a: string, b: string)
    ensures EqualsIgnoreCase(a, b) <==> |a| == |b| && forall i :: 0 <= i < |a| ==> Fold(a[i]) == Fold(b[i])
  {
    if |a| == |b| && forall i :: 0 <= i < |a| ==> Fold(a[i]) == Fold(b[i]) {
      assert forall i :: 0 <= i < |a| ==> FoldString(a)[i] == FoldString(b)[i];
    }
    if EqualsIgnoreCase(a, b) {
      assert |a| == |FoldString(a)| == |FoldString(b)| == |b|;
      assert forall i :: 0 <= i < |a| ==> Fold(a[i]) == FoldString(a)[i] == FoldString(b)[i] == Fold(b[i]);
    }
  }

  /** Folding identifies a character with itself and each ASCII lower-case letter with its upper-case partner, and nothing else. */
  lemma FoldPairs(c: char, d: char)
    ensures Fold(c) == Fold(d) <==> || c == d
                                     || ('a' <= c <= 'z' && d as int == c as int - 32)
                                     || ('a' <= d <= 'z' && c as int == d as int - 32)
  {
    if 'a' <= c <= 'z' && !('a' <= d <= 'z') {
      assert Fold(c) as int == c as int - 32;
    }
  }

  /** `s.StartsWith(prefix, StringComparison.OrdinalIgnoreCase)`. */
  predicate StartsWithIgnoreCase(s: string, prefix: string)
  {
    |prefix| <= |s| && EqualsIgnoreCase(s[..|prefix|], prefix)
  }

  /** `s.Contains(sub, StringComparison.OrdinalIgnoreCase)`: some position of `s` starts a copy of `sub`, up to case. */
  predicate ContainsIgnoreCase(s: string, sub: string)
  {
    exists i :: 0 <= i <= |s| && StartsWithIgnoreCase(s[i..], sub)
  }

  /** An occurrence inside a line is found wherever it sits. */
  lemma ContainsIgnoreCaseInside(before: string, sub: string, after: string)
    ensures ContainsIgnoreCase(before + sub + after, sub)
  {
    var s := before + sub + after;
    assert s[|before|..][..|sub|] == sub;
    assert StartsWithIgnoreCase(s[|before|..], sub);
  }

  /** A line lacking one of the non-letter characters of `sub` cannot contain `sub`, in any case. */
  lemma MissingCharacter(s: string, sub: string, k: int)
    requires 0 <= k < |sub| && !('a' <= sub[k] <= 'z') && !('A' <= sub[k] <= 'Z')
    requires sub[k] !in s
    ensures !ContainsIgnoreCase(s, sub)
  {
    forall i | 0 <= i <= |s|
      ensures !StartsWithIgnoreCase(s[i..], sub)
    {
      if |sub| <= |s[i..]| {
        assert s[i..][..|sub|][k] == s[i + k];
        assert FoldString(s[i..][..|sub|])[k] != FoldString(sub)[k];
      }
    }
  }

  /** A prefix that differs, up to case, at some position is not a prefix. */
  lemma DiffersAt(s: string, prefix: string, i: int)
    requires 0 <= i < |prefix| && i < |s| && Fold(s[i]) != Fold(prefix[i])
    ensures !StartsWithIgnoreCase(s, prefix)
  {
    if |prefix| <= |s| {
      assert FoldString(s[..|prefix|])[i] == Fold(s[i]);
    }
  }

  /** `char.IsWhiteSpace`: the Unicode space, line and paragraph separators, U+0009..U+000D and U+0085. */
  predicate IsWhiteSpace(c: char)
  {
    || c == ' ' || ('\t' <= c <= '\r') || c == '\U{0085}' || c == '\U{00A0}' || c == '\U{1680}'
    || ('\U{2000}' <= c <= '\U{200A}') || c == '\U{2028}' || c == '\U{2029}' || c == '\U{202F}'
    || c == '\U{205F}' || c == '\U{3000}'
  }

  function TrimStart(s: string): (r: string)
    ensures |r| <= |s| && r == s[|s| - |r|..]
    ensures r == [] || !IsWhiteSpace(r[0])
    ensures forall i :: 0 <= i < |s| - |r| ==> IsWhiteSpace(s[i])
  {
    if s != [] && IsWhiteSpace(s[0]) then TrimStart(s[1..]) else s
  }

  function TrimEnd(s: string): (r: string)
    ensures |r| <= |s| && r == s[..|r|]
    ensures r == [] || !IsWhiteSpace(r[|r| - 1])
    ensures forall i :: |r| <= i < |s| ==> IsWhiteSpace(s[i])
  {
    if s != [] && IsWhiteSpace(s[|s| - 1]) then TrimEnd(s[..|s| - 1]) else s
  }

  /** `r` is the slice of `s` at `i` and everything around it is white space. */
  ghost predicate TrimmedAt(s: string, i: int, r: string)
  {
    0 <= i <= |s| - |r| && r == s[i..i + |r|]
    && (forall k :: 0 <= k < i ==> IsWhiteSpace(s[k]))
    && (forall k :: i + |r| <= k < |s| ==> IsWhiteSpace(s[k]))
  }

  /** Trimming the front and then the back of `s` leaves a slice with only white space around it. */
  lemma TrimmedSlice(s: string, t: string, r: string)
    requires |t| <= |s| && t == s[|s| - |t|..] && forall k :: 0 <= k < |s| - |t| ==> IsWhiteSpace(s[k])
    requires |r| <= |t| && r == t[..|r|] && forall k :: |r| <= k < |t| ==> IsWhiteSpace(t[k])
    ensures TrimmedAt(s, |s| - |t|, r)
  {
    var i := |s| - |t|;
    assert s[i..][..|r|] == s[i..i + |r|];
    forall k | i + |r| <= k < |s|
      ensures IsWhiteSpace(s[k])
    {
      assert s[k] == t[k - i];
    }
  }

  /** `s.Trim()`: the longest slice of `s` that neither starts nor ends with white space. */
  function Trim(s: string): (r: string)
    ensures exists i :: TrimmedAt(s, i, r)
    ensures r == [] || (!IsWhiteSpace(r[0]) && !IsWhiteSpace(r[|r| - 1]))
  {
    var t := TrimStart(s);
    var r := TrimEnd(t);
    TrimmedSlice(s, t, r);
    r
  }

  /** White space around a slice that neither starts nor ends with white space is exactly what `Trim` removes. */
  lemma TrimPadded(pad: string, t: string, pad2: string)
    requires forall k :: 0 <= k < |pad| ==> IsWhiteSpace(pad[k])
    requires forall k :: 0 <= k < |pad2| ==> IsWhiteSpace(pad2[k])
    requires t != [] && !IsWhiteSpace(t[0]) && !IsWhiteSpace(t[|t| - 1])
    ensures Trim(pad + t + pad2) == t
  {
    var s, r := pad + t + pad2, Trim(pad + t + pad2);
    var i :| TrimmedAt(s, i, r);
    var first, last := |pad|, |pad| + |t| - 1;
    assert s[first] == t[0] && s[last] == t[|t| - 1];
    assert i <= first;
    assert first < i + |r|;
    assert i == first;
    assert i + |r| == last + 1;
    assert s[first..last + 1] == t;
  }

  /** The index of the first `c` in `s`, or `|s|` when there is none. */
  function IndexOf(s: string, c: char): (n: nat)
    ensures n <= |s|
    ensures forall k :: 0 <= k < n ==> s[k] != c
    ensures n < |s| ==> s[n] == c
  {
    if s == [] || s[0] == c then 0 else 1 + IndexOf(s[1..], c)
  }

  /** A token as `Split` produces it: non-empty and free of the separator. */
  predicate IsToken(t: string)
  {
    t != [] && ' ' !in t
  }

  /** `s.Split(' ', StringSplitOptions.RemoveEmptyEntries)`. */
  function Split(s: string): (r: seq<string>)
    ensures forall k :: 0 <= k < |r| ==> IsToken(r[k])
    ensures |r| <= |s|
    decreases |s|
  {
    if s == [] then []
    else if s[0] == ' ' then Split(s[1..])
    else
      var n := IndexOf(s, ' ');
      [s[..n]] + Split(s[n..])
  }

  /** Nothing but spaces (possibly nothing at all). */
  predicate Spaces(pad: string)
  {
    forall k :: 0 <= k < |pad| ==> pad[k] == ' '
  }

  /** A column gap: at least one space. */
  predicate Gap(gap: string)
  {
    gap != [] && Spaces(gap)
  }

  predicate Gaps(gaps: seq<string>)
  {
    forall k :: 0 <= k < |gaps| ==> Gap(gaps[k])
  }

  /** Each token preceded by its own gap, as the tool pads table columns. */
  function Spaced(ts: seq<string>, gaps: seq<string>): string
    requires |gaps| == |ts|
  {
    if ts == [] then "" else gaps[0] + ts[0] + Spaced(ts[1..], gaps[1..])
  }

  /** Each token preceded by one space: the inverse of `Split` on well-formed tokens. */
  function Join(ts: seq<string>): (r: string)
    ensures r == [] || r[0] == ' '
  {
    if ts == [] then "" else " " + ts[0] + Join(ts[1..])
  }

  lemma {:induction false} JoinAppend(a: seq<string>, b: seq<string>)
    ensures Join(a + b) == Join(a) + Join(b)
  {
    if a == [] {
      assert a + b == b;
    } else {
      assert (a + b)[0] == a[0];
      assert (a + b)[1..] == a[1..] + b;
      JoinAppend(a[1..], b);
    }
  }

  /** In `t + rest`, where `t` has no `c` and `rest` is empty or starts with `c`, the first `c` comes right after `t`. */
  lemma IndexOfAfter(t: string, c: char, rest: string)
    requires c !in t
    requires rest == [] || rest[0] == c
    ensures IndexOf(t + rest, c) == |t|
    decreases |t|
  {
    if t != [] {
      assert (t + rest)[1..] == t[1..] + rest;
      IndexOfAfter(t[1..], c, rest);
    } else {
      assert t + rest == rest;
    }
  }

  /** A non-empty join is a space, the first token, then the join of the rest, which is empty or starts with a space. */
  lemma JoinCons(ts: seq<string>)
    requires ts != []
    ensures Join(ts) == " " + (ts[0] + Join(ts[1..]))
    ensures Join(ts[1..]) == [] || Join(ts[1..])[0] == ' '
  {
  }

  /** A token followed by nothing or by a space is split off whole. */
  lemma SplitToken(t: string, rest: string)
    requires IsToken(t)
    requires rest == [] || rest[0] == ' '
    ensures Split(t + rest) == [t] + Split(rest)
  {
    IndexOfAfter(t, ' ', rest);
    assert (t + rest)[..|t|] == t;
    assert (t + rest)[|t|..] == rest;
  }

  /** A token, a run of one or more spaces, then anything: the token, then the tokens of the rest. */
  lemma SplitTokenGap(t: string, gap: string, rest: string)
    requires IsToken(t) && Gap(gap)
    ensures Split(t + gap + rest) == [t] + Split(rest)
  {
    assert t + gap + rest == t + (gap + rest);
    SplitToken(t, gap + rest);
    SplitLeadingSpaces(gap, rest);
  }

  /** Splitting tokens written with gaps of any width gives the tokens back. */
  lemma {:induction false} SplitSpaced(ts: seq<string>, gaps: seq<string>)
    requires |gaps| == |ts| && Gaps(gaps)
    requires forall k :: 0 <= k < |ts| ==> IsToken(ts[k])
    ensures Split(Spaced(ts, gaps)) == ts
  {
    if ts != [] {
      var rest := Spaced(ts[1..], gaps[1..]);
      SplitLeadingSpaces(gaps[0], ts[0] + rest);
      assert gaps[0] + ts[0] + rest == gaps[0] + (ts[0] + rest);
      if ts[1..] == [] {
        assert rest == [];
        SplitToken(ts[0], rest);
      } else {
        assert Gap(gaps[1]);
        assert rest[0] == gaps[1][0];
        SplitToken(ts[0], rest);
      }
      SplitSpaced(ts[1..], gaps[1..]);
    }
  }

  /** Tokens written with gaps end with the last character of the last token. */
  lemma {:induction false} SpacedLastCharacter(ts: seq<string>, gaps: seq<string>)
    requires |gaps| == |ts| && ts != [] && forall k :: 0 <= k < |ts| ==> ts[k] != []
    ensures var j, t := Spaced(ts, gaps), ts[|ts| - 1]; j != [] && j[|j| - 1] == t[|t| - 1]
  {
    var head, rest := gaps[0] + ts[0], Spaced(ts[1..], gaps[1..]);
    assert Spaced(ts, gaps) == head + rest;
    if |ts| > 1 {
      SpacedLastCharacter(ts[1..], gaps[1..]);
    }
  }

  /** Leading spaces never change the tokens. */
  lemma SplitLeadingSpaces(pad: string, s: string)
    requires Spaces(pad)
    ensures Split(pad + s) == Split(s)
    decreases |pad|
  {
    if pad == [] {
      assert pad + s == s;
    } else {
      assert (pad + s)[0] == ' ';
      assert (pad + s)[1..] == pad[1..] + s;
      SplitLeadingSpaces(pad[1..], s);
    }
  }
}
