/**
 * The fixed-shape regular expressions of the certificate and Emirates ID
 * extractors (src/document_ai_processor.py), written as sequences of atoms
 * and matched greedily, and `re.findall` over them.
 *
 * Every `*` in these patterns repeats a class that is disjoint from what may
 * follow it (`\s*` before a letter, `[:\s]*` before a digit, `[-\s]*` before
 * a digit), so the greedy match found here is the one Python's backtracking
 * engine finds. Matching is case-insensitive, as with `re.IGNORECASE`.
 */
module Patterns {
  import opened Wrappers
  import opened Text

  /** The character classes the patterns use. */
  datatype CharClass =
    | Digit0To9        // [0-9]
    | Space            // \s
    | ColonOrSpace     // [:\s]
    | DotColonOrSpace  // [.:\s]
    | DashOrSpace      // [-\s]

  predicate InClass(k: CharClass, c: char)
  {
    match k
    case Digit0To9 => IsAsciiDigit(c)
    case Space => IsSpace(c)
    case ColonOrSpace => c == ':' || IsSpace(c)
    case DotColonOrSpace => c == '.' || c == ':' || IsSpace(c)
    case DashOrSpace => c == '-' || IsSpace(c)
  }

  datatype Atom =
    | Lit(c: char)        // one literal character, compared case-insensitively
    | One(k: CharClass)   // one character of a class
    | Star(k: CharClass)  // as many characters of a class as there are (greedy)
    | WordBoundary        // \b
    | SpaceOrEnd          // (?=\s|$)

  /** The atoms before the group, the group, and the atoms after it; findall returns the group. */
  datatype Pattern = Pattern(before: seq<Atom>, group: seq<Atom>, after: seq<Atom>)

  /** The literal characters of `s`, one atom each. */
  function Word(s: string): (r: seq<Atom>)
    ensures |r| == |s| && forall i :: 0 <= i < |s| ==> r[i] == Lit(s[i])
  {
    seq(|s|, i requires 0 <= i < |s| => Lit(s[i]))
  }

  /** `[0-9]{n}`. */
  function DigitRun(n: nat): (r: seq<Atom>)
    ensures |r| == n && forall i :: 0 <= i < n ==> r[i] == One(Digit0To9)
  {
    seq(n, i => One(Digit0To9))
  }

  predicate IsWordAt(text: string, i: int)
  {
    0 <= i < |text| && IsWordChar(text[i])
  }

  /** `\b` at position `i`: a word character on exactly one side. */
  predicate AtBoundary(text: string, i: nat)
  {
    IsWordAt(text, i - 1) != IsWordAt(text, i)
  }

  function RunOf(k: CharClass): char -> bool
  {
    c => InClass(k, c)
  }

  /** Where the atoms, matched greedily from position `i`, end; None when they do not match there. */
  function MatchAtoms(atoms: seq<Atom>, text: string, i: nat): (r: Option<nat>)
    requires i <= |text|
    ensures r.Some? ==> i <= r.value <= |text|
    decreases |atoms|
  {
    if atoms == [] then Some(i)
    else
      match AtomEnd(atoms[0], text, i)
      case None => None
      case Some(next) => MatchAtoms(atoms[1..], text, next)
  }

  /** Where one atom, matched greedily from position `i`, ends; None when it does not match there. */
  function AtomEnd(a: Atom, text: string, i: nat): (r: Option<nat>)
    requires i <= |text|
    ensures r.Some? ==> i <= r.value <= |text|
  {
    match a
    case Lit(c) => if i < |text| && LowerChar(text[i]) == LowerChar(c) then Some(i + 1) else None
    case One(k) => if i < |text| && InClass(k, text[i]) then Some(i + 1) else None
    case Star(k) => Some(i + PrefixRun(text[i..], RunOf(k)))
    case WordBoundary => if AtBoundary(text, i) then Some(i) else None
    case SpaceOrEnd => if i == |text| || IsSpace(text[i]) then Some(i) else None
  }

  /** A match of the pattern starting at `i`: the group's text and where the whole match ends. */
  function MatchAt(p: Pattern, text: string, i: nat): (r: Option<(string, nat)>)
    requires i <= |text|
    ensures r.Some? ==> i <= r.value.1 <= |text|
  {
    match MatchAtoms(p.before, text, i)
    case None => None
    case Some(j) =>
      match MatchAtoms(p.group, text, j)
      case None => None
      case Some(k) =>
        match MatchAtoms(p.after, text, k)
        case None => None
        case Some(e) => Some((text[j..k], e))
  }

  /**
   * `re.findall(p, text[i:])` for a pattern with one group: the groups of the
   * successive non-overlapping matches, scanning left to right; after an empty
   * match the scan moves on by one character (none of the patterns here can
   * match the empty string).
   */
  function FindAll(p: Pattern, text: string, i: nat): (r: seq<string>)
    requires i <= |text|
    decreases |text| - i
  {
    match MatchAt(p, text, i)
    case Some((g, e)) =>
      if e > i then [g] + FindAll(p, text, e)
      else if i < |text| then [g] + FindAll(p, text, i + 1)
      else [g]
    case None =>
      if i < |text| then FindAll(p, text, i + 1) else []
  }

  /** Matching a concatenation of atoms is matching the first part, then the second from where it ended. */
  lemma {:induction false} MatchAtomsConcat(a: seq<Atom>, b: seq<Atom>, text: string, i: nat)
    requires i <= |text|
    requires MatchAtoms(a + b, text, i).Some?
    ensures MatchAtoms(a, text, i).Some?
    ensures MatchAtoms(b, text, MatchAtoms(a, text, i).value) == MatchAtoms(a + b, text, i)
    decreases |a|
  {
    if a == [] {
      assert a + b == b;
    } else {
      assert (a + b)[0] == a[0] && (a + b)[1..] == a[1..] + b;
      MatchAtomsConcat(a[1..], b, text, AtomEnd(a[0], text, i).value);
    }
  }

  // ---------------------------------------------------------------- what a group can capture

  /** An atom standing for exactly one ASCII digit. */
  predicate IsDigitSlot(a: Atom)
  {
    a == One(Digit0To9) || (a.Lit? && IsAsciiDigit(a.c))
  }

  function DigitSlots(atoms: seq<Atom>): nat
  {
    if atoms == [] then 0 else (if IsDigitSlot(atoms[0]) then 1 else 0) + DigitSlots(atoms[1..])
  }

  /** A group made of digit slots only matches exactly that many ASCII digits. */
  lemma {:induction false} MatchDigitSlots(atoms: seq<Atom>, text: string, i: nat)
    requires i <= |text|
    requires forall a :: a in atoms ==> IsDigitSlot(a)
    requires MatchAtoms(atoms, text, i).Some?
    ensures MatchAtoms(atoms, text, i).value == i + |atoms|
    ensures AllAsciiDigits(text[i..i + |atoms|])
    decreases |atoms|
  {
    if atoms != [] {
      assert atoms[0] in atoms;
      assert forall a :: a in atoms[1..] ==> a in atoms;
      DigitSlotStep(atoms[0], text, i);
      assert MatchAtoms(atoms, text, i) == MatchAtoms(atoms[1..], text, i + 1);
      MatchDigitSlots(atoms[1..], text, i + 1);
      DigitsCons(text, i, i + |atoms|);
    }
  }

  lemma DigitSlotStep(a: Atom, text: string, i: nat)
    requires i <= |text| && IsDigitSlot(a) && AtomEnd(a, text, i).Some?
    ensures AtomEnd(a, text, i) == Some(i + 1) && IsAsciiDigit(text[i])
  {
    if a.Lit? {
      LowerCharDigit(text[i], a.c);
    }
  }

  lemma DigitsCons(text: string, i: nat, e: nat)
    requires i < e <= |text| && IsAsciiDigit(text[i]) && AllAsciiDigits(text[i + 1..e])
    ensures AllAsciiDigits(text[i..e])
  {
    assert forall m :: i + 1 <= m < e ==> text[m] == text[i + 1..e][m - i - 1];
  }

  /** A character that lowers to an ASCII digit is that digit. */
  lemma LowerCharDigit(c: char, d: char)
    requires IsAsciiDigit(d) && LowerChar(c) == LowerChar(d)
    ensures c == d
  {
  }

  /** `re.sub(r'[-\s]', '', s)`. */
  function RemoveSeparators(s: string): (r: string)
    ensures |r| <= |s|
    ensures forall i :: 0 <= i < |r| ==> !InClass(DashOrSpace, r[i])
  {
    if s == [] then []
    else if InClass(DashOrSpace, s[0]) then RemoveSeparators(s[1..])
    else [s[0]] + RemoveSeparators(s[1..])
  }

  lemma {:induction false} RemoveSeparatorsConcat(a: string, b: string)
    ensures RemoveSeparators(a + b) == RemoveSeparators(a) + RemoveSeparators(b)
    decreases |a|
  {
    if a != [] {
      assert (a + b)[0] == a[0] && (a + b)[1..] == a[1..] + b;
      RemoveSeparatorsConcat(a[1..], b);
    } else {
      assert a + b == b;
    }
  }

  lemma {:induction false} RemoveSeparatorsOfSeparators(s: string)
    requires forall i :: 0 <= i < |s| ==> InClass(DashOrSpace, s[i])
    ensures RemoveSeparators(s) == []
    decreases |s|
  {
    if s != [] {
      RemoveSeparatorsOfSeparators(s[1..]);
    }
  }

  /** An atom of an Emirates ID number: a digit, or a run of dashes and spaces. */
  predicate IsIdAtom(a: Atom)
  {
    IsDigitSlot(a) || a == Star(DashOrSpace)
  }

  /**
   * A group of digit slots and `[-\s]*` runs matches text that, with dashes
   * and whitespace removed, is exactly one ASCII digit per slot.
   */
  lemma {:induction false} MatchIdAtoms(atoms: seq<Atom>, text: string, i: nat)
    requires i <= |text|
    requires forall a :: a in atoms ==> IsIdAtom(a)
    requires MatchAtoms(atoms, text, i).Some?
    ensures var e := MatchAtoms(atoms, text, i).value;
      && |RemoveSeparators(text[i..e])| == DigitSlots(atoms)
      && AllAsciiDigits(RemoveSeparators(text[i..e]))
    decreases |atoms|
  {
    if atoms != [] {
      var e := MatchAtoms(atoms, text, i).value;
      assert atoms[0] in atoms;
      assert forall a :: a in atoms[1..] ==> a in atoms;
      var next := AtomEnd(atoms[0], text, i).value;
      MatchIdAtoms(atoms[1..], text, next);
      IdAtomPiece(atoms[0], text, i);
      RemoveSeparatorsSplit(text, i, next, e);
      DigitsConcat(RemoveSeparators(text[i..next]), RemoveSeparators(text[next..e]));
    }
  }

  /** One atom of an Emirates ID number leaves one digit or nothing once separators are removed. */
  lemma IdAtomPiece(a: Atom, text: string, i: nat)
    requires i <= |text| && IsIdAtom(a) && AtomEnd(a, text, i).Some?
    ensures var r := RemoveSeparators(text[i..AtomEnd(a, text, i).value]);
      |r| == (if IsDigitSlot(a) then 1 else 0) && AllAsciiDigits(r)
  {
    var n := AtomEnd(a, text, i).value;
    if a.Star? {
      RemoveSeparatorsOfSeparators(text[i..n]);
    } else {
      DigitSlotStep(a, text, i);
      assert text[i..n] == [text[i]];
    }
  }

  lemma RemoveSeparatorsSplit(text: string, i: nat, n: nat, e: nat)
    requires i <= n <= e <= |text|
    ensures RemoveSeparators(text[i..e]) == RemoveSeparators(text[i..n]) + RemoveSeparators(text[n..e])
  {
    assert text[i..e] == text[i..n] + text[n..e];
    RemoveSeparatorsConcat(text[i..n], text[n..e]);
  }

  lemma DigitsConcat(a: string, b: string)
    requires AllAsciiDigits(a) && AllAsciiDigits(b)
    ensures AllAsciiDigits(a + b)
  {
    assert forall m :: |a| <= m < |a| + |b| ==> (a + b)[m] == b[m - |a|];
  }

  /** Every element findall returns is the text a match of the group captured at some position. */
  lemma {:induction false} FindAllCaptures(p: Pattern, text: string, i: nat, g: string)
    requires i <= |text|
    requires g in FindAll(p, text, i)
    ensures exists j, k :: i <= j <= k <= |text| && MatchAtoms(p.group, text, j) == Some(k) && g == text[j..k]
    decreases |text| - i
  {
    var m := MatchAt(p, text, i);
    if m.Some? && g == m.value.0 {
      var j := MatchAtoms(p.before, text, i).value;
      var k := MatchAtoms(p.group, text, j).value;
      assert i <= j <= k <= |text| && MatchAtoms(p.group, text, j) == Some(k) && g == text[j..k];
    } else if m.Some? && m.value.1 > i {
      FindAllCaptures(p, text, m.value.1, g);
    } else {
      FindAllCaptures(p, text, i + 1, g);
    }
  }
}
