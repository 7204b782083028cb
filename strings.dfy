/** String operations shared by the server (Python `str`) and the widget
    (JavaScript `String`): searching, splitting at a separator, replacing
    every occurrence of a literal pattern, and trimming whitespace. */
module Strings {

  datatype Option<T> = None | Some(value: T)

  /** `p` occurs in `s` starting at index `i`. */
  predicate OccursAt(p: string, s: string, i: nat)
  {
    i + |p| <= |s| && s[i..i + |p|] == p
  }

  /** `p` is a substring of `s`. */
  predicate Occurs(p: string, s: string)
  {
    exists i: nat | i <= |s| :: OccursAt(p, s, i)
  }

  /** Index of the leftmost occurrence of `p` in `s` at or after `from`
      (Python `str.find`). */
  function FindFrom(s: string, p: string, from: nat): (r: Option<nat>)
    requires from <= |s|
    ensures r.Some? ==> from <= r.value && OccursAt(p, s, r.value)
    ensures forall j: nat :: from <= j && (r.None? || j < r.value) ==> !OccursAt(p, s, j)
    decreases |s| - from
  {
    if from + |p| > |s| then None
    else if s[from..from + |p|] == p then Some(from)
    else if from == |s| then None
    else FindFrom(s, p, from + 1)
  }

  /** The first field of Python's `s.split(sep)`: everything before the
      leftmost occurrence of `sep`, or all of `s` when it does not occur.
      Python refuses an empty separator. */
  function BeforeFirst(s: string, sep: string): (r: string)
    requires sep != []
    ensures |r| <= |s| && r == s[..|r|]
    ensures forall j: nat :: j < |r| ==> !OccursAt(sep, s, j)
    ensures r == s || OccursAt(sep, s, |r|)
  {
    match FindFrom(s, sep, 0)
    case Some(i) => s[..i]
    case None => s
  }

  /** Python's `s.replace(pat, rep)` and JavaScript's
      `s.replace(/pat/g, rep)` for a literal, non-empty pattern: the
      occurrences are found left to right and never overlap, so replacing
      a pattern by itself changes nothing. */
  function ReplaceAll(s: string, pat: string, rep: string): (r: string)
    requires pat != []
    ensures rep == pat ==> r == s
    decreases |s|
  {
    if |s| < |pat| then s
    else if s[..|pat|] == pat then rep + ReplaceAll(s[|pat|..], pat, rep)
    else [s[0]] + ReplaceAll(s[1..], pat, rep)
  }

  /** Number of occurrences of `c` in `s`. */
  function Count(s: string, c: char): nat
  {
    if s == [] then 0 else (if s[0] == c then 1 else 0) + Count(s[1..], c)
  }

  /** Whitespace as Python's `str.strip()` (no argument) sees it:
      the characters for which `str.isspace()` holds. */
  predicate PyIsSpace(c: char)
  {
    ('\t' <= c <= '\r') || ('\U{1C}' <= c <= '\U{1F}') || c == ' ' ||
    c == '\U{85}' || c == '\U{A0}' || c == '\U{1680}' ||
    ('\U{2000}' <= c <= '\U{200A}') || c == '\U{2028}' || c == '\U{2029}' ||
    c == '\U{202F}' || c == '\U{205F}' || c == '\U{3000}'
  }

  /** Whitespace as JavaScript's `String.prototype.trim` sees it:
      WhiteSpace and LineTerminator of ECMAScript. */
  predicate JsIsSpace(c: char)
  {
    c == '\t' || c == '\n' || c == '\U{0B}' || c == '\U{0C}' || c == '\r' ||
    c == ' ' || c == '\U{A0}' || c == '\U{1680}' ||
    ('\U{2000}' <= c <= '\U{200A}') || c == '\U{2028}' || c == '\U{2029}' ||
    c == '\U{202F}' || c == '\U{205F}' || c == '\U{3000}' || c == '\U{FEFF}'
  }

  /** The two whitespace sets differ only in U+001C..U+001F and U+0085, which
      Python strips and JavaScript keeps, and U+FEFF, which JavaScript trims
      and Python keeps. */
  lemma WhitespaceSetsDiffer(c: char)
    ensures PyIsSpace(c) && !JsIsSpace(c) <==> ('\U{1C}' <= c <= '\U{1F}') || c == '\U{85}'
    ensures JsIsSpace(c) && !PyIsSpace(c) <==> c == '\U{FEFF}'
  {
  }

  /** Drops the leading characters that satisfy `ws`. */
  function TrimStart(s: string, ws: char -> bool): (r: string)
    ensures |r| <= |s| && r == s[|s| - |r|..]
    ensures r == [] || !ws(r[0])
    ensures forall i :: 0 <= i < |s| - |r| ==> ws(s[i])
  {
    if s != [] && ws(s[0]) then TrimStart(s[1..], ws) else s
  }

  /** Drops the trailing characters that satisfy `ws`. */
  function TrimEnd(s: string, ws: char -> bool): (r: string)
    ensures |r| <= |s| && r == s[..|r|]
    ensures r == [] || !ws(r[|r| - 1])
    ensures forall i :: |r| <= i < |s| ==> ws(s[i])
  {
    if s != [] && ws(s[|s| - 1]) then TrimEnd(s[..|s| - 1], ws) else s
  }

  /** Python's `s.strip()` (with `PyIsSpace`) and JavaScript's `s.trim()`
      (with `JsIsSpace`). */
  function Strip(s: string, ws: char -> bool): (r: string)
    ensures r == [] || (!ws(r[0]) && !ws(r[|r| - 1]))
    ensures r == [] <==> forall i :: 0 <= i < |s| ==> ws(s[i])
  {
    var t := TrimStart(s, ws);
    var r := TrimEnd(t, ws);
    assert r != [] ==> r[0] == t[0];
    r
  }

  /** Stripping only removes whitespace from the two ends: what is left is
      the slice `s[a..a + |r|]` and everything outside it is whitespace. */
  lemma StripIsSlice(s: string, ws: char -> bool) returns (a: nat)
    ensures a + |Strip(s, ws)| <= |s| && Strip(s, ws) == s[a..a + |Strip(s, ws)|]
    ensures forall i :: 0 <= i < a ==> ws(s[i])
    ensures forall i :: a + |Strip(s, ws)| <= i < |s| ==> ws(s[i])
  {
    var t := TrimStart(s, ws);
    a := |s| - |t|;
    assert t == s[a..];
    TrimEndOfSuffix(s, a, ws);
    assert Strip(s, ws) == TrimEnd(t, ws);
  }

  /** Trimming the end of the suffix `s[a..]` keeps the slice
      `s[a..a + |r|]`, and what it drops is whitespace at the tail of `s`. */
  lemma TrimEndOfSuffix(s: string, a: nat, ws: char -> bool)
    requires a <= |s|
    ensures var r := TrimEnd(s[a..], ws); a + |r| <= |s| && r == s[a..a + |r|]
    ensures var r := TrimEnd(s[a..], ws); forall i :: a + |r| <= i < |s| ==> ws(s[i])
  {
    var t := s[a..];
    var r := TrimEnd(t, ws);
    assert r == t[..|r|] == s[a..a + |r|];
    forall i | a + |r| <= i < |s| ensures ws(s[i]) {
      assert s[i] == t[i - a];
    }
  }

  /** Stripping twice is stripping once. */
  lemma StripIdempotent(s: string, ws: char -> bool)
    ensures Strip(Strip(s, ws), ws) == Strip(s, ws)
  {
    var r := Strip(s, ws);
    assert TrimStart(r, ws) == r;
    assert TrimEnd(r, ws) == r;
  }

  /** Occurrences in a slice are occurrences in the whole string. */
  lemma OccursInSlice(p: string, s: string, a: nat, b: nat, i: nat)
    requires a <= b <= |s|
    requires OccursAt(p, s[a..b], i)
    ensures OccursAt(p, s, a + i)
  {
    var u := s[a..b];
    forall k | i <= k < i + |p| ensures u[k] == s[a + k] { }
    assert u[i..i + |p|] == s[a + i..a + i + |p|];
  }

  /** A pattern that does not occur in `s` does not occur in its stripped form. */
  lemma StripKeepsAbsence(p: string, s: string, ws: char -> bool)
    requires !Occurs(p, s)
    ensures !Occurs(p, Strip(s, ws))
  {
    var a := StripIsSlice(s, ws);
    SliceKeepsAbsence(p, s, a, a + |Strip(s, ws)|);
  }

  /** A pattern that does not occur in `s` does not occur in a slice of it. */
  lemma SliceKeepsAbsence(p: string, s: string, a: nat, b: nat)
    requires a <= b <= |s|
    requires !Occurs(p, s)
    ensures !Occurs(p, s[a..b])
  {
    forall i: nat | OccursAt(p, s[a..b], i) ensures false {
      OccursInSlice(p, s, a, b, i);
    }
  }

  /** Occurrences in `[c] + t` past the first character are those of `t`. */
  lemma OccursAtCons(p: string, c: char, t: string, i: nat)
    ensures OccursAt(p, [c] + t, i + 1) <==> OccursAt(p, t, i)
  {
    if i + 1 + |p| <= |[c] + t| {
      assert ([c] + t)[i + 1..i + 1 + |p|] == t[i..i + |p|];
    }
  }

  /** Replacing a single character `c` acts character by character. */
  lemma {:induction false} ReplaceCharConcat(a: string, b: string, c: char, rep: string)
    ensures ReplaceAll(a + b, [c], rep) == ReplaceAll(a, [c], rep) + ReplaceAll(b, [c], rep)
    decreases |a|
  {
    if a == [] {
      assert a + b == b;
    } else {
      assert (a + b)[1..] == a[1..] + b;
      assert (a + b)[..1] == a[..1];
      assert a[..1] == [c] <==> a[0] == c;
      ReplaceCharConcat(a[1..], b, c, rep);
    }
  }

  /** After replacing every `c` by a text without `c`, no `c` is left,
      and a character `d` absent from both the input and `rep` stays absent. */
  lemma {:induction false} ReplaceCharRemoves(s: string, c: char, rep: string, d: char)
    requires c !in rep
    ensures c !in ReplaceAll(s, [c], rep)
    ensures d !in s && d !in rep ==> d !in ReplaceAll(s, [c], rep)
    decreases |s|
  {
    if s != [] {
      assert s[..1] == [c] <==> s[0] == c;
      ReplaceCharRemoves(s[1..], c, rep, d);
    }
  }

  /** Replacing every `c` by `rep` lengthens `s` by `|rep| - 1` per occurrence. */
  lemma {:induction false} ReplaceCharLength(s: string, c: char, rep: string)
    ensures |ReplaceAll(s, [c], rep)| == |s| + (|rep| - 1) * Count(s, c)
    decreases |s|
  {
    if s != [] {
      assert s[..1] == [c] <==> s[0] == c;
      ReplaceCharLength(s[1..], c, rep);
    }
  }

  /** A prefix that cannot start the pattern is copied unchanged. */
  lemma {:induction false} ReplaceAllSkips(x: string, y: string, pat: string, rep: string)
    requires pat != [] && pat[0] !in x
    ensures ReplaceAll(x + y, pat, rep) == x + ReplaceAll(y, pat, rep)
    decreases |x|
  {
    if x == [] {
      assert x + y == y;
    } else if |x + y| < |pat| {
      assert ReplaceAll(y, pat, rep) == y;
    } else {
      var s := x + y;
      assert s[..|pat|][0] == x[0];
      assert ReplaceAll(s, pat, rep) == [x[0]] + ReplaceAll(s[1..], pat, rep);
      assert s[1..] == x[1..] + y;
      ReplaceAllSkips(x[1..], y, pat, rep);
      assert [x[0]] + (x[1..] + ReplaceAll(y, pat, rep)) == x + ReplaceAll(y, pat, rep);
    }
  }

  /** A string without the first character of the pattern is left as it is. */
  lemma ReplaceAllAbsent(s: string, pat: string, rep: string)
    requires pat != [] && pat[0] !in s
    ensures ReplaceAll(s, pat, rep) == s
  {
    ReplaceAllSkips(s, [], pat, rep);
    assert s + [] == s;
  }

  /** Whitespace in front of a string is all that `TrimStart` removes. */
  lemma {:induction false} TrimStartPadded(a: string, m: string, ws: char -> bool)
    requires forall i :: 0 <= i < |a| ==> ws(a[i])
    ensures TrimStart(a + m, ws) == TrimStart(m, ws)
    decreases |a|
  {
    if a != [] {
      assert (a + m)[0] == a[0];
      assert (a + m)[1..] == a[1..] + m;
      TrimStartPadded(a[1..], m, ws);
    } else {
      assert a + m == m;
    }
  }

  /** Whitespace after a string is all that `TrimEnd` removes. */
  lemma {:induction false} TrimEndPadded(m: string, b: string, ws: char -> bool)
    requires forall i :: 0 <= i < |b| ==> ws(b[i])
    ensures TrimEnd(m + b, ws) == TrimEnd(m, ws)
    decreases |b|
  {
    if b != [] {
      var s := m + b;
      assert s[|s| - 1] == b[|b| - 1];
      assert s[..|s| - 1] == m + b[..|b| - 1];
      TrimEndPadded(m, b[..|b| - 1], ws);
    } else {
      assert m + b == m;
    }
  }

  /** Padding a string with whitespace on both sides does not change what
      `Strip` returns. */
  lemma StripPadded(a: string, m: string, b: string, ws: char -> bool)
    requires forall i :: 0 <= i < |a| ==> ws(a[i])
    requires forall i :: 0 <= i < |b| ==> ws(b[i])
    ensures Strip(a + m + b, ws) == Strip(m, ws)
  {
    assert a + m + b == a + (m + b);
    TrimStartPadded(a, m + b, ws);
    var t := TrimStart(m, ws);
    if t == [] {
      assert forall i :: 0 <= i < |m| ==> ws(m[i]);
      assert forall i :: 0 <= i < |m + b| ==> ws((m + b)[i]);
      assert TrimStart(m + b, ws) == [];
    } else {
      TrimStartAppend(m, b, ws);
      TrimEndPadded(t, b, ws);
    }
  }

  /** When something other than whitespace is left, `TrimStart` commutes
      with appending. */
  lemma {:induction false} TrimStartAppend(m: string, b: string, ws: char -> bool)
    requires TrimStart(m, ws) != []
    ensures TrimStart(m + b, ws) == TrimStart(m, ws) + b
    decreases |m|
  {
    assert (m + b)[0] == m[0];
    if ws(m[0]) {
      assert (m + b)[1..] == m[1..] + b;
      TrimStartAppend(m[1..], b, ws);
    }
  }

  /** Replacing `c` by a text without `d` keeps the number of `d`s, for `d` other than `c`. */
  lemma {:induction false} ReplaceCharKeepsCount(s: string, c: char, rep: string, d: char)
    requires d != c && d !in rep
    ensures Count(ReplaceAll(s, [c], rep), d) == Count(s, d)
    decreases |s|
  {
    if s != [] {
      assert s[..1] == [c] <==> s[0] == c;
      var t := ReplaceAll(s[1..], [c], rep);
      ReplaceCharKeepsCount(s[1..], c, rep, d);
      if s[0] == c {
        CountConcat(rep, t, d);
        CountAbsent(rep, d);
      } else {
        assert ([s[0]] + t)[1..] == t;
      }
    }
  }

  /** `Count` adds up over a concatenation. */
  lemma {:induction false} CountConcat(a: string, b: string, d: char)
    ensures Count(a + b, d) == Count(a, d) + Count(b, d)
    decreases |a|
  {
    if a == [] {
      assert a + b == b;
    } else {
      assert (a + b)[1..] == a[1..] + b;
      CountConcat(a[1..], b, d);
    }
  }

  /** A character that does not occur is counted zero times. */
  lemma {:induction false} CountAbsent(a: string, d: char)
    requires d !in a
    ensures Count(a, d) == 0
    decreases |a|
  {
    if a != [] {
      CountAbsent(a[1..], d);
    }
  }
}
