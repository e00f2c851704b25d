/**
 * The Python string builtins the intake pipeline relies on, over an alphabet of
 * ASCII plus the Arabic-Indic digits U+0660..U+0669: character classes
 * (`isdigit`, `isalpha`, `isalnum`, `\w`, `\s`), `lower`, `strip`, `split`,
 * `join`, `in`, `replace`, `re.findall(r"\w+")`, `os.path` helpers and `str(int)`.
 */
module Text {

  // ---------------------------------------------------------------- characters

  predicate IsAsciiDigit(c: char) { '0' <= c <= '9' }

  predicate IsArabicIndicDigit(c: char) { '٠' <= c <= '٩' }

  /** `str.isdigit` on one character, and the class `\d`. */
  predicate IsDigit(c: char) { IsAsciiDigit(c) || IsArabicIndicDigit(c) }

  predicate IsUpper(c: char) { 'A' <= c <= 'Z' }

  predicate IsLower(c: char) { 'a' <= c <= 'z' }

  predicate IsAlpha(c: char) { IsUpper(c) || IsLower(c) }

  predicate IsAlnum(c: char) { IsAlpha(c) || IsDigit(c) }

  /** The class `\w`. */
  predicate IsWordChar(c: char) { IsAlnum(c) || c == '_' }

  /** `str.isspace` on one character, and the class `\s`: Python's whole whitespace set. */
  predicate IsSpace(c: char) {
    || ('\t' <= c <= '\r') || ('\U{1C}' <= c <= ' ')
    || c == '\U{85}' || c == '\U{A0}' || c == '\U{1680}'
    || ('\U{2000}' <= c <= '\U{200A}') || c == '\U{2028}' || c == '\U{2029}'
    || c == '\U{202F}' || c == '\U{205F}' || c == '\U{3000}'
  }

  function LowerChar(c: char): (r: char)
    ensures IsUpper(c) ==> IsLower(r)
    ensures !IsUpper(c) ==> r == c
    ensures !IsUpper(r)
  {
    if IsUpper(c) then (c as int + 32) as char else c
  }

  function UpperChar(c: char): (r: char)
    ensures IsLower(c) ==> IsUpper(r)
    ensures !IsLower(c) ==> r == c
  {
    if IsLower(c) then (c as int - 32) as char else c
  }

  /** `str.isdigit` on a whole string: non-empty and every character a digit. */
  predicate AllDigits(s: string) {
    |s| > 0 && forall i :: 0 <= i < |s| ==> IsDigit(s[i])
  }

  predicate AllAsciiDigits(s: string) {
    forall i :: 0 <= i < |s| ==> IsAsciiDigit(s[i])
  }

  /** `str.isalpha` on a whole string. */
  predicate AllAlpha(s: string) {
    |s| > 0 && forall i :: 0 <= i < |s| ==> IsAlpha(s[i])
  }

  // ---------------------------------------------------------------- case

  /** `str.lower()`. */
  function Lower(s: string): (r: string)
    ensures |r| == |s|
    ensures forall i :: 0 <= i < |s| ==> r[i] == LowerChar(s[i])
  {
    seq(|s|, i requires 0 <= i < |s| => LowerChar(s[i]))
  }

  lemma LowerIdempotent(s: string)
    ensures Lower(Lower(s)) == Lower(s)
  {
  }

  lemma LowerConcat(a: string, b: string)
    ensures Lower(a + b) == Lower(a) + Lower(b)
  {
    assert forall i :: 0 <= i < |a + b| ==> Lower(a + b)[i] == (Lower(a) + Lower(b))[i];
  }

  /** `str.capitalize()`: first character upper case, the rest lower case. */
  function Capitalize(s: string): (r: string)
    ensures |r| == |s|
  {
    if s == [] then [] else [UpperChar(s[0])] + Lower(s[1..])
  }

  // ---------------------------------------------------------------- substrings

  /** Python's `sub in s`. */
  predicate Contains(s: string, sub: string)
    decreases |s|
  {
    sub <= s || (s != [] && Contains(s[1..], sub))
  }

  lemma {:induction false} ContainsAt(s: string, sub: string, i: nat)
    requires i + |sub| <= |s| && s[i..i + |sub|] == sub
    ensures Contains(s, sub)
    decreases i
  {
    if i > 0 {
      assert s[1..][i - 1..i - 1 + |sub|] == sub;
      ContainsAt(s[1..], sub, i - 1);
    }
  }

  lemma {:induction false} ContainsWitness(s: string, sub: string) returns (i: nat)
    requires Contains(s, sub)
    ensures i + |sub| <= |s| && s[i..i + |sub|] == sub
    decreases |s|
  {
    if sub <= s {
      i := 0;
    } else {
      var j := ContainsWitness(s[1..], sub);
      i := j + 1;
      assert s[i..i + |sub|] == s[1..][j..j + |sub|];
    }
  }

  /** A substring is no longer than the text, and each of its characters occurs in the text. */
  lemma ContainedChars(s: string, sub: string)
    ensures Contains(s, sub) ==> |sub| <= |s| && forall k :: 0 <= k < |sub| ==> sub[k] in s
  {
    if Contains(s, sub) {
      var i := ContainsWitness(s, sub);
      forall k | 0 <= k < |sub|
        ensures sub[k] in s
      {
        assert sub[k] == s[i + k];
      }
    }
  }

  /** A text containing `a + b` contains `a`. */
  lemma ContainsPrefixOfSub(s: string, a: string, b: string)
    requires Contains(s, a + b)
    ensures Contains(s, a)
  {
    var i := ContainsWitness(s, a + b);
    assert s[i..i + |a|] == (a + b)[..|a|];
    ContainsAt(s, a, i);
  }

  lemma ContainsSuffix(a: string, b: string)
    ensures Contains(a + b, b)
  {
    assert (a + b)[|a|..|a| + |b|] == b;
    ContainsAt(a + b, b, |a|);
  }

  lemma ContainsInPrefix(a: string, b: string, sub: string)
    requires Contains(a, sub)
    ensures Contains(a + b, sub)
  {
    var i := ContainsWitness(a, sub);
    assert (a + b)[i..i + |sub|] == a[i..i + |sub|];
    ContainsAt(a + b, sub, i);
  }

  /** `str.replace(pat, rep)`: every non-overlapping occurrence, left to right. */
  function ReplaceAll(s: string, pat: string, rep: string): (r: string)
    requires pat != []
    ensures rep == [] ==> |r| <= |s|
    ensures !Contains(s, pat) ==> r == s
    decreases |s|
  {
    if s == [] then []
    else if pat <= s then rep + ReplaceAll(s[|pat|..], pat, rep)
    else [s[0]] + ReplaceAll(s[1..], pat, rep)
  }

  // ---------------------------------------------------------------- whitespace

  function LStrip(s: string): (r: string)
    ensures |r| <= |s| && r == s[|s| - |r|..]
    ensures r == [] || !IsSpace(r[0])
    ensures forall i :: 0 <= i < |s| - |r| ==> IsSpace(s[i])
    decreases |s|
  {
    if s != [] && IsSpace(s[0]) then LStrip(s[1..]) else s
  }

  function RStrip(s: string): (r: string)
    ensures |r| <= |s| && r == s[..|r|]
    ensures r == [] || !IsSpace(r[|r| - 1])
    ensures forall i :: |r| <= i < |s| ==> IsSpace(s[i])
    decreases |s|
  {
    if s != [] && IsSpace(s[|s| - 1]) then RStrip(s[..|s| - 1]) else s
  }

  /** `str.strip()`. */
  function Strip(s: string): (r: string)
    ensures |r| <= |s|
    ensures r == [] || (!IsSpace(r[0]) && !IsSpace(r[|r| - 1]))
  {
    RStrip(LStrip(s))
  }

  /** A string with no whitespace at either end is its own stripped form. */
  lemma StripTrimmed(s: string)
    requires s == [] || (!IsSpace(s[0]) && !IsSpace(s[|s| - 1]))
    ensures Strip(s) == s
  {
  }

  // ---------------------------------------------------------------- tokens

  /** Length of the longest prefix of `s` whose characters satisfy `p`. */
  function PrefixRun(s: string, p: char -> bool): (n: nat)
    ensures n <= |s|
    ensures forall i :: 0 <= i < n ==> p(s[i])
    ensures n < |s| ==> !p(s[n])
    decreases |s|
  {
    if s == [] || !p(s[0]) then 0 else 1 + PrefixRun(s[1..], p)
  }

  /**
   * The maximal runs of characters satisfying `p`, in text order:
   * `re.findall(r"\w+", s)` is `Tokens(s, IsWordChar)` and `s.split()` is
   * `Tokens(s, c => !IsSpace(c))`.
   */
  function Tokens(s: string, p: char -> bool): seq<string>
    decreases |s|
  {
    if s == [] then []
    else if !p(s[0]) then Tokens(s[1..], p)
    else
      var n := PrefixRun(s, p);
      [s[..n]] + Tokens(s[n..], p)
  }

  /** Every one of `ts` is a non-empty run of characters satisfying `p`. */
  predicate Runs(ts: seq<string>, p: char -> bool)
  {
    forall k :: 0 <= k < |ts| ==> ts[k] != [] && forall i :: 0 <= i < |ts[k]| ==> p(ts[k][i])
  }

  /** Every token is a non-empty run of token characters. */
  lemma {:induction false} TokensAreRuns(s: string, p: char -> bool)
    ensures Runs(Tokens(s, p), p)
    decreases |s|
  {
    if s != [] {
      if !p(s[0]) {
        TokensAreRuns(s[1..], p);
      } else {
        var n := PrefixRun(s, p);
        TokensAreRuns(s[n..], p);
        RunsCons(s[..n], Tokens(s[n..], p), p);
      }
    }
  }

  lemma RunsCons(t: string, rest: seq<string>, p: char -> bool)
    requires t != [] && (forall i :: 0 <= i < |t| ==> p(t[i])) && Runs(rest, p)
    ensures Runs([t] + rest, p)
  {
    var ts := [t] + rest;
    forall k | 0 <= k < |ts|
      ensures ts[k] != [] && forall i :: 0 <= i < |ts[k]| ==> p(ts[k][i])
    {
      if k > 0 {
        assert ts[k] == rest[k - 1];
      }
    }
  }

  /** A separator character splits the token list in two. */
  lemma {:induction false} TokensSplit(a: string, c: char, b: string, p: char -> bool)
    requires !p(c)
    ensures Tokens(a + [c] + b, p) == Tokens(a, p) + Tokens(b, p)
    decreases |a|
  {
    var s := a + [c] + b;
    if a == [] {
      assert s[1..] == b;
    } else if !p(a[0]) {
      assert s[1..] == a[1..] + [c] + b;
      TokensSplit(a[1..], c, b, p);
    } else {
      var n := PrefixRun(a, p);
      PrefixRunStops(a, c, b, p);
      assert s[..n] == a[..n];
      assert s[n..] == a[n..] + [c] + b;
      TokensSplit(a[n..], c, b, p);
    }
  }

  lemma PrefixRunStops(a: string, c: char, b: string, p: char -> bool)
    requires !p(c)
    ensures PrefixRun(a + [c] + b, p) == PrefixRun(a, p)
    decreases |a|
  {
    if a != [] && p(a[0]) {
      assert (a + [c] + b)[1..] == a[1..] + [c] + b;
      PrefixRunStops(a[1..], c, b, p);
    }
  }

  /** A string has no tokens exactly when none of its characters is a token character. */
  lemma {:induction false} TokensEmpty(s: string, p: char -> bool)
    ensures Tokens(s, p) == [] <==> forall i :: 0 <= i < |s| ==> !p(s[i])
    decreases |s|
  {
    if s != [] {
      TokensEmpty(s[1..], p);
      if !p(s[0]) {
        assert forall i :: 1 <= i < |s| ==> s[i] == s[1..][i - 1];
      }
    }
  }

  /** A string made only of token characters is one token (or none, when empty). */
  lemma {:induction false} TokensOfRun(s: string, p: char -> bool)
    requires forall i :: 0 <= i < |s| ==> p(s[i])
    ensures Tokens(s, p) == if s == [] then [] else [s]
  {
    if s != [] {
      PrefixRunAll(s, p);
      assert s[..|s|] == s && s[|s|..] == [];
      assert Tokens(s, p) == [s[..|s|]] + Tokens(s[|s|..], p);
    }
  }

  lemma {:induction false} PrefixRunAll(s: string, p: char -> bool)
    requires forall i :: 0 <= i < |s| ==> p(s[i])
    ensures PrefixRun(s, p) == |s|
    decreases |s|
  {
    if s != [] {
      PrefixRunAll(s[1..], p);
    }
  }

  predicate NotSpace(c: char) { !IsSpace(c) }

  /** `str.split()` with no argument. */
  function Split(s: string): (ts: seq<string>)
    ensures forall k, i :: 0 <= k < |ts| && 0 <= i < |ts[k]| ==> !IsSpace(ts[k][i])
  {
    var ts := Tokens(s, NotSpace);
    TokensAreRuns(s, NotSpace);
    assert forall k, i :: 0 <= k < |ts| && 0 <= i < |ts[k]| ==> NotSpace(ts[k][i]);
    ts
  }

  /** `sep.join(parts)`. */
  function Join(sep: string, parts: seq<string>): string
  {
    if |parts| == 0 then ""
    else if |parts| == 1 then parts[0]
    else parts[0] + sep + Join(sep, parts[1..])
  }

  /** `s.split(c)`: every piece between occurrences of `c` (there are one more pieces than occurrences). */
  function SplitOn(s: string, sep: char -> bool): (pieces: seq<string>)
    ensures |pieces| > 0
    ensures forall k, i :: 0 <= k < |pieces| && 0 <= i < |pieces[k]| ==> !sep(pieces[k][i])
    decreases |s|
  {
    var n := PrefixRun(s, c => !sep(c));
    if n == |s| then [s] else [s[..n]] + SplitOn(s[n + 1..], sep)
  }

  /** The first piece of a split runs up to the first separator, if there is one. */
  lemma SplitOnFirst(s: string, sep: char -> bool)
    ensures var pieces := SplitOn(s, sep);
      var n := |pieces[0]|;
      && n <= |s| && (forall i :: 0 <= i < n ==> !sep(s[i]))
      && (|pieces| == 1 ==> pieces == [s])
      && (|pieces| > 1 ==> n < |s| && sep(s[n]) && pieces == [s[..n]] + SplitOn(s[n + 1..], sep))
  {
    assert forall i :: 0 <= i < |SplitOn(s, sep)[0]| ==> !sep(SplitOn(s, sep)[0][i]);
  }

  lemma JoinCons(sep: string, a: string, rest: seq<string>)
    requires rest != []
    ensures Join(sep, [a] + rest) == a + sep + Join(sep, rest)
  {
    assert ([a] + rest)[1..] == rest;
  }

  // ---------------------------------------------------------------- sequences

  /** A list comprehension with a condition: the elements satisfying `p`, in order. */
  function Filter<T(!new)>(xs: seq<T>, p: T -> bool): (r: seq<T>)
    ensures |r| <= |xs|
    ensures forall x :: x in r <==> x in xs && p(x)
  {
    if xs == [] then []
    else if p(xs[0]) then [xs[0]] + Filter(xs[1..], p)
    else Filter(xs[1..], p)
  }

  lemma {:induction false} FilterConcat<T(!new)>(a: seq<T>, b: seq<T>, p: T -> bool)
    ensures Filter(a + b, p) == Filter(a, p) + Filter(b, p)
  {
    if a == [] {
      assert a + b == b;
    } else {
      assert (a + b)[0] == a[0] && (a + b)[1..] == a[1..] + b;
      FilterConcat(a[1..], b, p);
    }
  }

  /** Python's string ordering `a < b` (code-point lexicographic). */
  predicate Below(a: string, b: string)
    decreases |a|
  {
    if a == [] then b != []
    else if b == [] then false
    else if a[0] != b[0] then a[0] < b[0]
    else Below(a[1..], b[1..])
  }

  lemma BelowIrreflexive(a: string)
    ensures !Below(a, a)
  {
  }

  lemma {:induction false} BelowTransitive(a: string, b: string, c: string)
    requires Below(a, b) && Below(b, c)
    ensures Below(a, c)
    decreases |a|
  {
    if a != [] && b != [] && c != [] && a[0] == b[0] && b[0] == c[0] {
      BelowTransitive(a[1..], b[1..], c[1..]);
    }
  }

  lemma {:induction false} BelowTotal(a: string, b: string)
    requires a != b
    ensures Below(a, b) || Below(b, a)
    decreases |a|
  {
    if a != [] && b != [] && a[0] == b[0] {
      assert a == [a[0]] + a[1..] && b == [b[0]] + b[1..];
      BelowTotal(a[1..], b[1..]);
    }
  }

  // ---------------------------------------------------------------- numbers

  function DigitChar(d: nat): (c: char)
    requires d < 10
    ensures IsAsciiDigit(c)
  {
    ('0' as int + d) as char
  }

  /** `str(n)` for a natural number. */
  function NatToString(n: nat): (s: string)
    ensures |s| > 0 && AllAsciiDigits(s)
    decreases n
  {
    if n < 10 then [DigitChar(n)] else NatToString(n / 10) + [DigitChar(n % 10)]
  }

  /** `str(i)` for any integer. */
  function IntToString(i: int): string
  {
    if i < 0 then "-" + NatToString(-i) else NatToString(i)
  }

  // ---------------------------------------------------------------- paths

  /** The index of the last occurrence of `c` in `s`, or -1. */
  function LastIndexOf(s: string, c: char): (k: int)
    ensures -1 <= k < |s|
    decreases |s|
  {
    if s == [] then -1
    else if s[|s| - 1] == c then |s| - 1
    else LastIndexOf(s[..|s| - 1], c)
  }

  /** `LastIndexOf` finds `c`, and no `c` comes after it. */
  lemma {:induction false} LastIndexOfFacts(s: string, c: char)
    ensures var k := LastIndexOf(s, c);
      (k >= 0 ==> s[k] == c) && forall i :: k < i < |s| ==> s[i] != c
    decreases |s|
  {
    if s != [] && s[|s| - 1] != c {
      LastIndexOfFacts(s[..|s| - 1], c);
    }
  }

  /**
   * `os.path.splitext` (POSIX): the extension starts at the last '.' of the
   * last path component, unless every character before it in that component
   * is a '.' (leading dots do not start an extension).
   */
  function SplitExt(p: string): (r: (string, string))
    ensures r.0 + r.1 == p
    ensures r.1 == [] || (r.1[0] == '.' && forall i :: 0 <= i < |r.1| ==> r.1[i] != '/')
  {
    LastIndexOfFacts(p, '/');
    LastIndexOfFacts(p, '.');
    var sepIndex := LastIndexOf(p, '/');
    var dotIndex := LastIndexOf(p, '.');
    if dotIndex > sepIndex && exists k :: sepIndex + 1 <= k < dotIndex && p[k] != '.' then
      (p[..dotIndex], p[dotIndex..])
    else
      (p, "")
  }

  /** `os.path.basename` (POSIX). */
  function Basename(p: string): (r: string)
    ensures |r| <= |p| && r == p[|p| - |r|..]
  {
    p[LastIndexOf(p, '/') + 1..]
  }

  /** A basename holds no '/'. */
  lemma BasenameHasNoSlash(p: string)
    ensures forall i :: 0 <= i < |Basename(p)| ==> Basename(p)[i] != '/'
  {
    LastIndexOfFacts(p, '/');
  }

  /** `os.path.join(a, b)` (POSIX). */
  function PathJoin(a: string, b: string): string
  {
    if b != [] && b[0] == '/' then b
    else if a == [] || a[|a| - 1] == '/' then a + b
    else a + "/" + b
  }

  /** Joining a directory and a plain file name gives a path whose basename is that name. */
  lemma BasenameOfJoin(dir: string, name: string)
    requires name != [] && forall i :: 0 <= i < |name| ==> name[i] != '/'
    ensures Basename(PathJoin(dir, name)) == name
  {
    var p := PathJoin(dir, name);
    var k := LastIndexOf(p, '/');
    LastIndexOfFacts(p, '/');
    if dir == [] {
      assert p == name;
    } else if dir[|dir| - 1] == '/' {
      assert p == dir + name && p[|dir| - 1] == '/';
      assert k == |dir| - 1;
    } else {
      assert p == dir + "/" + name && p[|dir|] == '/';
      assert k == |dir|;
    }
  }
}
