/**
 * The text logic of the Document AI processor (src/document_ai_processor.py):
 * keyword routing to a document type, field dispatch by type, the attestation
 * numbers and stamp flag of certificates, the Emirates ID number, text-anchor
 * slicing, and the rule deciding whether Document AI beat Google Vision.
 */
module DocumentAi {
  import opened Wrappers
  import opened Text
  import opened Patterns
  import Attestation

  /** A dictionary of extracted fields. */
  type Fields = map<string, string>

  // ---------------------------------------------------------------- routing

  datatype DocumentType = Passport | EmiratesId | AttestationCertificate | Certificate | UnknownType
  {
    /** The string the processor returns for this type. */
    function Name(): string
    {
      match this
      case Passport => "passport"
      case EmiratesId => "emirates_id"
      case AttestationCertificate => "attestation_certificate"
      case Certificate => "certificate"
      case UnknownType => "unknown"
    }

    /** Position in the routing order (0 is tested first). */
    function Rank(): nat
    {
      match this
      case Passport => 0
      case EmiratesId => 1
      case AttestationCertificate => 2
      case Certificate => 3
      case UnknownType => 4
    }
  }

  const PassportKeywords: seq<string> := ["passport", "passport no", "passport number"]
  const EmiratesIdKeywords: seq<string> := ["emirates id", "emirates identity", "uae id"]
  const AttestationKeywords: seq<string> := ["attestation", "attested", "ministry", "government"]
  const CertificateKeywords: seq<string> := ["certificate", "degree", "diploma", "university", "college"]

  /** `any(keyword in text for keyword in keywords)`. */
  predicate AnyIn(keywords: seq<string>, text: string)
  {
    exists k :: k in keywords && Contains(text, k)
  }

  /**
   * `get_document_type`: the first keyword set, in the order passport,
   * Emirates ID, attestation, certificate, with a member in the lowercased
   * text decides; "unknown" when none does.
   */
  function GetDocumentType(ocrText: string): (r: DocumentType)
    ensures r == Passport <==> AnyIn(PassportKeywords, Lower(ocrText))
    ensures r == EmiratesId <==>
      !AnyIn(PassportKeywords, Lower(ocrText)) && AnyIn(EmiratesIdKeywords, Lower(ocrText))
    ensures r == AttestationCertificate <==>
      && !AnyIn(PassportKeywords, Lower(ocrText)) && !AnyIn(EmiratesIdKeywords, Lower(ocrText))
      && AnyIn(AttestationKeywords, Lower(ocrText))
    ensures r == Certificate <==>
      && !AnyIn(PassportKeywords, Lower(ocrText)) && !AnyIn(EmiratesIdKeywords, Lower(ocrText))
      && !AnyIn(AttestationKeywords, Lower(ocrText)) && AnyIn(CertificateKeywords, Lower(ocrText))
  {
    var textLower := Lower(ocrText);
    if AnyIn(PassportKeywords, textLower) then Passport
    else if AnyIn(EmiratesIdKeywords, textLower) then EmiratesId
    else if AnyIn(AttestationKeywords, textLower) then AttestationCertificate
    else if AnyIn(CertificateKeywords, textLower) then Certificate
    else UnknownType
  }

  /** Routing ignores case: lowercasing the text first changes nothing. */
  lemma DocumentTypeIgnoresCase(ocrText: string)
    ensures GetDocumentType(Lower(ocrText)) == GetDocumentType(ocrText)
  {
    LowerIdempotent(ocrText);
  }

  /** The longer passport keywords are redundant: the type is "passport" exactly when the text contains "passport". */
  lemma PassportExactlyWhenWordPresent(ocrText: string)
    ensures GetDocumentType(ocrText) == Passport <==> Contains(Lower(ocrText), "passport")
  {
    var t := Lower(ocrText);
    assert "passport no" == "passport" + " no";
    assert "passport number" == "passport" + " number";
    if Contains(t, "passport no") {
      ContainsPrefixOfSub(t, "passport", " no");
    }
    if Contains(t, "passport number") {
      ContainsPrefixOfSub(t, "passport", " number");
    }
    assert "passport" in PassportKeywords;
  }

  lemma AnyInExtended(keywords: seq<string>, a: string, b: string)
    requires AnyIn(keywords, a)
    ensures AnyIn(keywords, a + b)
  {
    var k :| k in keywords && Contains(a, k);
    ContainsInPrefix(a, b, k);
  }

  /** More text never moves a document to a type tested later: appending can only raise its priority. */
  lemma {:induction false} AppendingKeepsPriority(a: string, b: string)
    ensures GetDocumentType(a + b).Rank() <= GetDocumentType(a).Rank()
  {
    LowerConcat(a, b);
    var t := Lower(a);
    if AnyIn(PassportKeywords, t) { AnyInExtended(PassportKeywords, t, Lower(b)); }
    if AnyIn(EmiratesIdKeywords, t) { AnyInExtended(EmiratesIdKeywords, t, Lower(b)); }
    if AnyIn(AttestationKeywords, t) { AnyInExtended(AttestationKeywords, t, Lower(b)); }
    if AnyIn(CertificateKeywords, t) { AnyInExtended(CertificateKeywords, t, Lower(b)); }
  }

  // ---------------------------------------------------------------- attestation numbers of certificates

  const Number1Key := Attestation.Number1Key
  const Number2Key := Attestation.Number2Key
  const StampKey := "Has Official Stamp"
  const EmiratesIdKey := "Emirates ID Number"

  /** `[:\s]*`, `\s*` and `[.:\s]*` between the words of a keyword. */
  const ColonsAndSpaces: seq<Atom> := [Star(ColonOrSpace)]
  const Spaces: seq<Atom> := [Star(Space)]

  /** The four application-number patterns, in the order they are tried. */
  const ApplicationPatterns: seq<Pattern> := [
    Pattern(Word("رقم الطلب") + ColonsAndSpaces, DigitRun(12), []),
    Pattern(Word("application") + Spaces + Word("number") + ColonsAndSpaces, DigitRun(12), []),
    Pattern(Word("رقم الطلب") + Spaces, DigitRun(12), []),
    Pattern(Word("application") + Spaces + Word("no") + [Star(DotColonOrSpace)], DigitRun(12), [])
  ]

  /** `\b([0-9]{n})\b` and `([0-9]{n})(?=\s|$)`. */
  function BoundedDigits(n: nat): Pattern { Pattern([WordBoundary], DigitRun(n), [WordBoundary]) }

  function TrailingDigits(n: nat): Pattern { Pattern([], DigitRun(n), [SpaceOrEnd]) }

  const ProminentPatterns: seq<Pattern> := [BoundedDigits(7), TrailingDigits(7)]
  const BarcodePatterns: seq<Pattern> := [BoundedDigits(12), TrailingDigits(12)]

  /** `784[-\s]*[0-9]{3}[-\s]*[0-9]{7}[-\s]*[0-9]`, the whole match. */
  const EmiratesIdShape: seq<Atom> :=
    Word("784") + [Star(DashOrSpace)] + DigitRun(3) + [Star(DashOrSpace)] + DigitRun(7) + [Star(DashOrSpace)] + DigitRun(1)
  const EmiratesIdPattern := Pattern([], EmiratesIdShape, [])

  /** `[0-9]{3}/[0-9]{4}/[0-9]+`, the whole match. */
  const IdentityPattern := Pattern([], DigitRun(3) + [Lit('/')] + DigitRun(4) + [Lit('/'), One(Digit0To9), Star(Digit0To9)], [])

  /** The findall results of the patterns, one after the other. */
  function AllMatches(ps: seq<Pattern>, text: string): seq<string>
  {
    if ps == [] then [] else FindAll(ps[0], text, 0) + AllMatches(ps[1..], text)
  }

  /** The four skip rules of the candidate loops. */
  predicate Rejected(m: string, emiratesIds: seq<string>, identities: seq<string>)
  {
    || (exists e :: e in emiratesIds && Contains(m, e))
    || (exists d :: d in identities && Contains(m, d))
    || Attestation.EmiratesIdPrefix <= m
    || '/' in m
  }

  /** The first candidate no skip rule rejects. */
  function FirstAccepted(ms: seq<string>, emiratesIds: seq<string>, identities: seq<string>): (r: Option<string>)
    ensures r.Some? ==> r.value in ms && !Rejected(r.value, emiratesIds, identities)
    ensures r.None? <==> forall m :: m in ms ==> Rejected(m, emiratesIds, identities)
  {
    if ms == [] then None
    else if !Rejected(ms[0], emiratesIds, identities) then Some(ms[0])
    else FirstAccepted(ms[1..], emiratesIds, identities)
  }

  lemma {:induction false} FirstAcceptedConcat(a: seq<string>, b: seq<string>, emiratesIds: seq<string>, identities: seq<string>)
    ensures FirstAccepted(a + b, emiratesIds, identities) ==
      if FirstAccepted(a, emiratesIds, identities).Some? then FirstAccepted(a, emiratesIds, identities)
      else FirstAccepted(b, emiratesIds, identities)
    decreases |a|
  {
    if a == [] {
      assert a + b == b;
    } else {
      assert (a + b)[0] == a[0] && (a + b)[1..] == a[1..] + b;
      FirstAcceptedConcat(a[1..], b, emiratesIds, identities);
    }
  }

  /** The two attestation numbers the certificate extractor settles on. */
  datatype CertificateNumbers = CertificateNumbers(number1: Option<string>, number2: Option<string>)

  /**
   * The barcode fallback: the first pattern that matches at all decides, by
   * its first accepted match; later patterns are consulted only while the
   * earlier ones found nothing.
   */
  function BarcodeFallback(ps: seq<Pattern>, text: string, emiratesIds: seq<string>, identities: seq<string>): (r: Option<string>)
    ensures r.Some? ==> r.value in AllMatches(ps, text) && !Rejected(r.value, emiratesIds, identities)
  {
    if ps == [] then None
    else
      var matches := FindAll(ps[0], text, 0);
      if matches != [] then FirstAccepted(matches, emiratesIds, identities)
      else BarcodeFallback(ps[1..], text, emiratesIds, identities)
  }

  /**
   * The application number is the first accepted match over the four
   * application patterns, or else the barcode fallback; number 2 is the
   * first accepted match over the two 7-digit patterns.
   */
  function ExpectedNumbers(text: string): CertificateNumbers
  {
    var eids := FindAll(EmiratesIdPattern, text, 0);
    var ids := FindAll(IdentityPattern, text, 0);
    var application := FirstAccepted(AllMatches(ApplicationPatterns, text), eids, ids);
    CertificateNumbers(
      if application.Some? then application else BarcodeFallback(BarcodePatterns, text, eids, ids),
      FirstAccepted(AllMatches(ProminentPatterns, text), eids, ids))
  }

  /** The dictionary entries for the numbers found. */
  function NumberFields(n: CertificateNumbers): Fields
  {
    var one: Fields := if n.number1.Some? then map[Number1Key := n.number1.value] else map[];
    if n.number2.Some? then one[Number2Key := n.number2.value] else one
  }

  /** The inner candidate loop: skip rejected matches, stop at the first accepted one. */
  method FirstAcceptedMatch(matches: seq<string>, emiratesIds: seq<string>, identities: seq<string>)
    returns (found: Option<string>)
    ensures found == FirstAccepted(matches, emiratesIds, identities)
  {
    found := None;
    var i := 0;
    while i < |matches|
      invariant 0 <= i <= |matches|
      invariant found.None?
      invariant FirstAccepted(matches, emiratesIds, identities) == FirstAccepted(matches[i..], emiratesIds, identities)
    {
      assert matches[i..][1..] == matches[i + 1..];
      if Rejected(matches[i], emiratesIds, identities) {
        i := i + 1;
        continue;
      }
      found := Some(matches[i]);
      break;
    }
  }

  /** The outer loop over patterns: stop at the first pattern with an accepted match. */
  method FirstAcceptedOver(patterns: seq<Pattern>, text: string, emiratesIds: seq<string>, identities: seq<string>)
    returns (found: Option<string>)
    ensures found == FirstAccepted(AllMatches(patterns, text), emiratesIds, identities)
  {
    found := None;
    var i := 0;
    while i < |patterns|
      invariant 0 <= i <= |patterns|
      invariant found.None?
      invariant FirstAccepted(AllMatches(patterns, text), emiratesIds, identities) ==
        FirstAccepted(AllMatches(patterns[i..], text), emiratesIds, identities)
    {
      assert patterns[i..][1..] == patterns[i + 1..];
      var matches := FindAll(patterns[i], text, 0);
      assert AllMatches(patterns[i..], text) == matches + AllMatches(patterns[i + 1..], text);
      FirstAcceptedConcat(matches, AllMatches(patterns[i + 1..], text), emiratesIds, identities);
      if matches != [] {
        found := FirstAcceptedMatch(matches, emiratesIds, identities);
        if found.Some? {
          break;
        }
      }
      i := i + 1;
    }
  }

  /** The barcode loop, whose `break` ends it after the first pattern with any match. */
  method FallbackOver(patterns: seq<Pattern>, text: string, emiratesIds: seq<string>, identities: seq<string>)
    returns (found: Option<string>)
    ensures found == BarcodeFallback(patterns, text, emiratesIds, identities)
  {
    found := None;
    var i := 0;
    while i < |patterns|
      invariant 0 <= i <= |patterns|
      invariant found.None?
      invariant BarcodeFallback(patterns, text, emiratesIds, identities) ==
        BarcodeFallback(patterns[i..], text, emiratesIds, identities)
    {
      assert patterns[i..][1..] == patterns[i + 1..];
      var matches := FindAll(patterns[i], text, 0);
      if matches != [] {
        found := FirstAcceptedMatch(matches, emiratesIds, identities);
        break;
      }
      i := i + 1;
    }
  }

  /** The attestation-number part of `extract_certificate_fields`. */
  method ExtractCertificateNumbers(ocrText: string) returns (fields: Fields)
    ensures fields == NumberFields(ExpectedNumbers(ocrText))
  {
    fields := map[];
    var emiratesIds := FindAll(EmiratesIdPattern, ocrText, 0);
    var identities := FindAll(IdentityPattern, ocrText, 0);

    var application := FirstAcceptedOver(ApplicationPatterns, ocrText, emiratesIds, identities);
    if application.Some? {
      fields := fields[Number1Key := application.value];
    }

    var prominent := FirstAcceptedOver(ProminentPatterns, ocrText, emiratesIds, identities);
    if prominent.Some? {
      fields := fields[Number2Key := prominent.value];
    }

    var barcode := None;
    if application.None? {
      barcode := FallbackOver(BarcodePatterns, ocrText, emiratesIds, identities);
      if barcode.Some? {
        fields := fields[Number1Key := barcode.value];
      }
    }
    NumberFieldsInSteps(application, prominent, barcode);
  }

  /** Setting number 1, then number 2, then number 1 from the fallback gives the entries of the numbers found. */
  lemma NumberFieldsInSteps(application: Option<string>, prominent: Option<string>, barcode: Option<string>)
    ensures var f1: Fields := if application.Some? then map[Number1Key := application.value] else map[];
      var f2 := if prominent.Some? then f1[Number2Key := prominent.value] else f1;
      var f3 := if application.None? && barcode.Some? then f2[Number1Key := barcode.value] else f2;
      f3 == NumberFields(CertificateNumbers(if application.Some? then application else barcode, prominent))
  {
    if application.None? && barcode.Some? && prominent.Some? {
      assert Number1Key != Number2Key;
      assert map[Number2Key := prominent.value][Number1Key := barcode.value]
        == map[Number1Key := barcode.value][Number2Key := prominent.value];
    }
  }

  // ---------------------------------------------------------------- what the candidates look like

  /** Every group a `[0-9]{n}` pattern captures is n ASCII digits. */
  lemma CapturedDigits(p: Pattern, text: string, n: nat, m: string)
    requires p.group == DigitRun(n)
    requires m in FindAll(p, text, 0)
    ensures |m| == n && AllAsciiDigits(m)
  {
    FindAllCaptures(p, text, 0, m);
    var j, k :| 0 <= j <= k <= |text| && MatchAtoms(p.group, text, j) == Some(k) && m == text[j..k];
    MatchDigitSlots(p.group, text, j);
  }

  lemma {:induction false} AllMatchesDigits(ps: seq<Pattern>, text: string, n: nat)
    requires forall p :: p in ps ==> p.group == DigitRun(n)
    ensures forall m :: m in AllMatches(ps, text) ==> |m| == n && AllAsciiDigits(m)
  {
    if ps != [] {
      assert ps[0] in ps;
      assert forall p :: p in ps[1..] ==> p in ps;
      AllMatchesDigits(ps[1..], text, n);
      forall m | m in FindAll(ps[0], text, 0)
        ensures |m| == n && AllAsciiDigits(m)
      {
        CapturedDigits(ps[0], text, n, m);
      }
    }
  }

  /**
   * Attestation Number 1, when found, is 12 ASCII digits and number 2 is 7,
   * and neither starts with the Emirates ID prefix "784".
   */
  lemma CertificateNumbersShape(text: string)
    ensures var n := ExpectedNumbers(text);
      && (n.number1.Some? ==> |n.number1.value| == 12 && AllAsciiDigits(n.number1.value)
                              && !(Attestation.EmiratesIdPrefix <= n.number1.value))
      && (n.number2.Some? ==> |n.number2.value| == 7 && AllAsciiDigits(n.number2.value)
                              && !(Attestation.EmiratesIdPrefix <= n.number2.value))
  {
    var eids := FindAll(EmiratesIdPattern, text, 0);
    var ids := FindAll(IdentityPattern, text, 0);
    var application := FirstAccepted(AllMatches(ApplicationPatterns, text), eids, ids);
    var fallback := BarcodeFallback(BarcodePatterns, text, eids, ids);
    var prominent := FirstAccepted(AllMatches(ProminentPatterns, text), eids, ids);
    if application.Some? {
      PatternGroups();
      AllMatchesDigits(ApplicationPatterns, text, 12);
    } else if fallback.Some? {
      PatternGroups();
      AllMatchesDigits(BarcodePatterns, text, 12);
    }
    if prominent.Some? {
      PatternGroups();
      AllMatchesDigits(ProminentPatterns, text, 7);
    }
  }

  lemma PatternGroups()
    ensures forall p :: p in ApplicationPatterns ==> p.group == DigitRun(12)
    ensures forall p :: p in BarcodePatterns ==> p.group == DigitRun(12)
    ensures forall p :: p in ProminentPatterns ==> p.group == DigitRun(7)
  {
  }

  /** Every Emirates ID match is at least 14 characters long: its 14 digits survive the separators. */
  lemma EmiratesIdMatchLength(text: string, e: string)
    requires e in FindAll(EmiratesIdPattern, text, 0)
    ensures |e| >= 14
  {
    FindAllCaptures(EmiratesIdPattern, text, 0, e);
    var j, k :| 0 <= j <= k <= |text| && MatchAtoms(EmiratesIdShape, text, j) == Some(k) && e == text[j..k];
    IdShapeAtoms();
    MatchIdAtoms(EmiratesIdShape, text, j);
  }

  lemma IdShapeAtoms()
    ensures forall a :: a in EmiratesIdShape ==> IsIdAtom(a)
    ensures DigitSlots(EmiratesIdShape) == 14
  {
    IdShapeAtomKinds(Word("784"));
    PrefixSlots();
    DigitSlotsOfShape(Word("784"), 3, 7, 1);
  }

  lemma IdShapeAtomKinds(w: seq<Atom>)
    requires w == Word("784")
    ensures var shape := w + [Star(DashOrSpace)] + DigitRun(3) + [Star(DashOrSpace)] + DigitRun(7)
      + [Star(DashOrSpace)] + DigitRun(1);
      forall a :: a in shape ==> IsIdAtom(a)
  {
    assert forall a :: a in w ==> IsDigitSlot(a);
  }

  lemma PrefixSlots()
    ensures DigitSlots(Word("784")) == 3
  {
  }

  /** A prefix followed by three runs of digits, each after a `[-\s]*`, has the prefix's slots plus the runs'. */
  lemma DigitSlotsOfShape(w: seq<Atom>, x: nat, y: nat, z: nat)
    ensures DigitSlots(w + [Star(DashOrSpace)] + DigitRun(x) + [Star(DashOrSpace)] + DigitRun(y)
      + [Star(DashOrSpace)] + DigitRun(z)) == DigitSlots(w) + x + y + z
  {
    var sep := [Star(DashOrSpace)];
    DigitSlotsConcat(w + sep + DigitRun(x) + sep + DigitRun(y) + sep, DigitRun(z));
    DigitSlotsConcat(w + sep + DigitRun(x) + sep + DigitRun(y), sep);
    DigitSlotsConcat(w + sep + DigitRun(x) + sep, DigitRun(y));
    DigitSlotsConcat(w + sep + DigitRun(x), sep);
    DigitSlotsConcat(w + sep, DigitRun(x));
    DigitSlotsConcat(w, sep);
    DigitSlotsOfRun(x);
    DigitSlotsOfRun(y);
    DigitSlotsOfRun(z);
  }

  lemma {:induction false} DigitSlotsConcat(a: seq<Atom>, b: seq<Atom>)
    ensures DigitSlots(a + b) == DigitSlots(a) + DigitSlots(b)
    decreases |a|
  {
    if a == [] {
      assert a + b == b;
    } else {
      assert (a + b)[0] == a[0] && (a + b)[1..] == a[1..] + b;
      DigitSlotsConcat(a[1..], b);
    }
  }

  lemma {:induction false} DigitSlotsOfRun(n: nat)
    ensures DigitSlots(DigitRun(n)) == n
  {
    if n > 0 {
      assert DigitRun(n)[1..] == DigitRun(n - 1);
      DigitSlotsOfRun(n - 1);
    }
  }

  /** Every identity match has '/' as its fourth character. */
  lemma IdentityMatchSlash(text: string, d: string)
    requires d in FindAll(IdentityPattern, text, 0)
    ensures |d| > 3 && d[3] == '/'
  {
    FindAllCaptures(IdentityPattern, text, 0, d);
    var g := IdentityPattern.group;
    var j, k :| 0 <= j <= k <= |text| && MatchAtoms(g, text, j) == Some(k) && d == text[j..k];
    var rest := [Lit('/')] + DigitRun(4) + [Lit('/'), One(Digit0To9), Star(Digit0To9)];
    assert g == DigitRun(3) + rest;
    MatchAtomsConcat(DigitRun(3), rest, text, j);
    MatchDigitSlots(DigitRun(3), text, j);
    assert MatchAtoms(rest, text, j + 3).Some?;
    assert LowerChar(text[j + 3]) == LowerChar('/');
  }

  /**
   * The Emirates ID, identity and '/' skip rules never reject a digit
   * candidate shorter than 14 characters: for the 12- and 7-digit candidates
   * only the "784" prefix rule is in force.
   */
  lemma OnlyPrefixRuleRejects(text: string, m: string)
    requires AllAsciiDigits(m) && |m| < 14
    ensures Rejected(m, FindAll(EmiratesIdPattern, text, 0), FindAll(IdentityPattern, text, 0))
      <==> Attestation.EmiratesIdPrefix <= m
  {
    forall e | e in FindAll(EmiratesIdPattern, text, 0)
      ensures !Contains(m, e)
    {
      EmiratesIdMatchLength(text, e);
      ContainedChars(m, e);
    }
    forall d | d in FindAll(IdentityPattern, text, 0)
      ensures !Contains(m, d)
    {
      IdentityMatchSlash(text, d);
      ContainedChars(m, d);
    }
    assert '/' !in m;
  }

  // ---------------------------------------------------------------- certificate fields

  const StampKeywords: seq<string> := ["stamp", "seal", "official", "authenticated", "verified"]

  /** The keys the free-text certificate extractors write (degree, institution, authority, dates, grade). */
  const CertificateTextKeys: set<string> :=
    {"Degree/Qualification", "Institution", "Issuing Authority", "Issue Date", "Expiry Date", "Grade/Score"}

  function Restrict(fields: Fields, keys: set<string>): (r: Fields)
    ensures r.Keys == fields.Keys * keys
    ensures forall k :: k in r ==> r[k] == fields[k]
  {
    map k | k in fields.Keys * keys :: fields[k]
  }

  /** The stamp flag: "Yes" when some stamp keyword is in the lowercased text, "No" otherwise. */
  function StampFlag(ocrText: string): string
  {
    if AnyIn(StampKeywords, Lower(ocrText)) then "Yes" else "No"
  }

  /**
   * `extract_certificate_fields`: the attestation numbers, then the free-text
   * fields (given, as the regex extractors computed them), then the stamp flag.
   */
  function CertificateFields(ocrText: string, freeText: Fields): Fields
  {
    (NumberFields(ExpectedNumbers(ocrText)) + Restrict(freeText, CertificateTextKeys))[StampKey := StampFlag(ocrText)]
  }

  /** The for/else loop over the stamp keywords. */
  method HasOfficialStamp(textLower: string) returns (stamped: bool)
    ensures stamped <==> AnyIn(StampKeywords, textLower)
  {
    stamped := false;
    var i := 0;
    while i < |StampKeywords|
      invariant 0 <= i <= |StampKeywords|
      invariant !stamped
      invariant forall j :: 0 <= j < i ==> !Contains(textLower, StampKeywords[j])
    {
      if Contains(textLower, StampKeywords[i]) {
        stamped := true;
        break;
      }
      i := i + 1;
    }
  }

  method ExtractCertificateFields(ocrText: string, freeText: Fields) returns (fields: Fields)
    ensures fields == CertificateFields(ocrText, freeText)
  {
    fields := ExtractCertificateNumbers(ocrText);
    fields := fields + Restrict(freeText, CertificateTextKeys);
    var stamped := HasOfficialStamp(Lower(ocrText));
    if stamped {
      fields := fields[StampKey := "Yes"];
    } else {
      fields := fields[StampKey := "No"];
    }
  }

  /**
   * The certificate fields always carry the stamp flag; an attestation
   * number, when present, is the one the candidate rules chose, 12 or 7
   * ASCII digits not starting with "784"; free-text fields pass through.
   */
  lemma CertificateFieldsFacts(ocrText: string, freeText: Fields)
    ensures var f := CertificateFields(ocrText, freeText);
      && StampKey in f
      && (f[StampKey] == "Yes" <==> AnyIn(StampKeywords, Lower(ocrText)))
      && (f[StampKey] == "No" <==> !AnyIn(StampKeywords, Lower(ocrText)))
      && (Number1Key in f <==> ExpectedNumbers(ocrText).number1.Some?)
      && (Number1Key in f ==> |f[Number1Key]| == 12 && AllAsciiDigits(f[Number1Key])
                              && !(Attestation.EmiratesIdPrefix <= f[Number1Key]))
      && (Number2Key in f <==> ExpectedNumbers(ocrText).number2.Some?)
      && (Number2Key in f ==> |f[Number2Key]| == 7 && AllAsciiDigits(f[Number2Key])
                              && !(Attestation.EmiratesIdPrefix <= f[Number2Key]))
      && (forall k :: k in freeText && k in CertificateTextKeys ==> f[k] == freeText[k])
  {
    CertificateNumbersShape(ocrText);
    KeysDistinct();
  }

  lemma KeysDistinct()
    ensures Number1Key !in CertificateTextKeys && Number2Key !in CertificateTextKeys
    ensures StampKey !in CertificateTextKeys && StampKey != Number1Key && StampKey != Number2Key
    ensures EmiratesIdKey !in EmiratesIdTextKeys
  {
    assert Number1Key[0] == 'A' && Number2Key[0] == 'A' && StampKey[0] == 'H' && EmiratesIdKey[0] == 'E';
    assert EmiratesIdKey[1] == 'm';
  }

  // ---------------------------------------------------------------- Emirates ID fields

  const IdSpaces: seq<Atom> := [Star(DashOrSpace)]

  /** `[0-9]{3}[-\s]*[0-9]{3}[-\s]*[0-9]{7}[-\s]*[0-9]`. */
  const IdNumberShape: seq<Atom> :=
    DigitRun(3) + IdSpaces + DigitRun(3) + IdSpaces + DigitRun(7) + IdSpaces + DigitRun(1)

  /** The four Emirates ID patterns, in the order they are tried. */
  const IdPatterns: seq<Pattern> := [
    Pattern(Word("emirates") + Spaces + Word("id") + ColonsAndSpaces, IdNumberShape, []),
    Pattern(Word("id") + Spaces + Word("number") + ColonsAndSpaces, IdNumberShape, []),
    Pattern(Word("رقم") + Spaces + Word("الهوية") + ColonsAndSpaces, IdNumberShape, []),
    Pattern([], EmiratesIdShape, [])
  ]

  /**
   * The number the Emirates ID loop settles on: the first pattern that
   * matches and whose first match, without dashes and whitespace, starts
   * with "784"; a pattern whose first match does not start so is passed over.
   */
  function ExpectedEmiratesId(ps: seq<Pattern>, text: string): Option<string>
  {
    if ps == [] then None
    else
      var matches := FindAll(ps[0], text, 0);
      if matches != [] && Attestation.EmiratesIdPrefix <= RemoveSeparators(matches[0]) then
        Some(RemoveSeparators(matches[0]))
      else ExpectedEmiratesId(ps[1..], text)
  }

  /** `extract_emirates_id_fields`: the Emirates ID number, then the free-text fields (name, nationality, dates). */
  function EmiratesIdFields(ocrText: string, freeText: Fields): Fields
  {
    var number := ExpectedEmiratesId(IdPatterns, ocrText);
    (if number.Some? then map[EmiratesIdKey := number.value] else map[]) + Restrict(freeText, EmiratesIdTextKeys)
  }

  method ExtractEmiratesIdFields(ocrText: string, freeText: Fields) returns (fields: Fields)
    ensures fields == EmiratesIdFields(ocrText, freeText)
  {
    fields := map[];
    var i := 0;
    while i < |IdPatterns|
      invariant 0 <= i <= |IdPatterns|
      invariant fields == map[]
      invariant ExpectedEmiratesId(IdPatterns, ocrText) == ExpectedEmiratesId(IdPatterns[i..], ocrText)
    {
      assert IdPatterns[i..][1..] == IdPatterns[i + 1..];
      var matches := FindAll(IdPatterns[i], ocrText, 0);
      if matches != [] {
        var cleanNumber := RemoveSeparators(matches[0]);
        if Attestation.EmiratesIdPrefix <= cleanNumber {
          fields := fields[EmiratesIdKey := cleanNumber];
          break;
        }
      }
      i := i + 1;
    }
    fields := fields + Restrict(freeText, EmiratesIdTextKeys);
  }

  const EmiratesIdTextKeys: set<string> := {"Full Name", "Nationality", "Date of Birth", "Expiry Date", "Issue Date"}

  /** The Emirates ID number, when found, is 14 ASCII digits (no dashes or whitespace left) starting with "784". */
  lemma {:induction false} EmiratesIdShapeLemma(ps: seq<Pattern>, text: string)
    requires forall p :: p in ps ==> p.group == IdNumberShape || p.group == EmiratesIdShape
    ensures var r := ExpectedEmiratesId(ps, text);
      r.Some? ==> |r.value| == 14 && AllAsciiDigits(r.value) && Attestation.EmiratesIdPrefix <= r.value
  {
    if ps != [] {
      assert ps[0] in ps;
      assert forall p :: p in ps[1..] ==> p in ps;
      var matches := FindAll(ps[0], text, 0);
      if matches != [] && Attestation.EmiratesIdPrefix <= RemoveSeparators(matches[0]) {
        assert matches[0] in matches;
        FindAllCaptures(ps[0], text, 0, matches[0]);
        var j, k :| 0 <= j <= k <= |text| && MatchAtoms(ps[0].group, text, j) == Some(k) && matches[0] == text[j..k];
        IdShapeAtoms();
        IdNumberShapeAtoms();
        MatchIdAtoms(ps[0].group, text, j);
      } else {
        EmiratesIdShapeLemma(ps[1..], text);
      }
    }
  }

  lemma IdNumberShapeAtoms()
    ensures forall a :: a in IdNumberShape ==> IsIdAtom(a)
    ensures DigitSlots(IdNumberShape) == 14
  {
    DigitSlotsConcat(DigitRun(3) + IdSpaces + DigitRun(3) + IdSpaces + DigitRun(7) + IdSpaces, DigitRun(1));
    DigitSlotsConcat(DigitRun(3) + IdSpaces + DigitRun(3) + IdSpaces + DigitRun(7), IdSpaces);
    DigitSlotsConcat(DigitRun(3) + IdSpaces + DigitRun(3) + IdSpaces, DigitRun(7));
    DigitSlotsConcat(DigitRun(3) + IdSpaces + DigitRun(3), IdSpaces);
    DigitSlotsConcat(DigitRun(3) + IdSpaces, DigitRun(3));
    DigitSlotsConcat(DigitRun(3), IdSpaces);
    DigitSlotsOfRun(7);
    DigitSlotsOfRun(3);
    DigitSlotsOfRun(1);
  }

  /**
   * When the Emirates ID fields carry a number, it is 14 ASCII digits (no
   * dash or whitespace left) starting with "784".
   */
  lemma EmiratesIdFieldsFacts(ocrText: string, freeText: Fields)
    ensures var f := EmiratesIdFields(ocrText, freeText);
      && (EmiratesIdKey in f <==> ExpectedEmiratesId(IdPatterns, ocrText).Some?)
      && (EmiratesIdKey in f ==> |f[EmiratesIdKey]| == 14 && AllAsciiDigits(f[EmiratesIdKey])
                                 && Attestation.EmiratesIdPrefix <= f[EmiratesIdKey])
  {
    EmiratesIdShapeLemma(IdPatterns, ocrText);
    KeysDistinct();
  }

  // ---------------------------------------------------------------- dispatch

  /**
   * The regex extractors left as given functions of the text:
   * `extract_specific_fields` whole, and the free-text parts of the
   * certificate and Emirates ID extractors.
   */
  datatype Extractors = Extractors(
    specific: string -> Fields,
    certificateText: string -> Fields,
    emiratesIdText: string -> Fields)

  /** What `extract_fields_by_document_type` returns for the text. */
  function FieldsByType(ocrText: string, ex: Extractors): Fields
  {
    var certificate := CertificateFields(ocrText, ex.certificateText(ocrText));
    var emiratesId := EmiratesIdFields(ocrText, ex.emiratesIdText(ocrText));
    match GetDocumentType(ocrText)
    case Passport => ex.specific(ocrText)
    case EmiratesId => emiratesId
    case AttestationCertificate => certificate
    case Certificate => certificate
    case UnknownType => ex.specific(ocrText) + certificate + emiratesId
  }

  /**
   * Passports get the specific fields, Emirates IDs the Emirates ID fields,
   * both certificate kinds the certificate fields; an unknown document gets
   * all three merged in the order specific, certificate, Emirates ID, a later
   * extractor overwriting an earlier one on a shared key.
   */
  lemma FieldsByTypeFacts(ocrText: string, ex: Extractors)
    ensures var fields := FieldsByType(ocrText, ex);
      && (GetDocumentType(ocrText) == Passport ==> fields == ex.specific(ocrText))
      && (GetDocumentType(ocrText) == EmiratesId ==> fields == EmiratesIdFields(ocrText, ex.emiratesIdText(ocrText)))
      && (GetDocumentType(ocrText) in {AttestationCertificate, Certificate} ==>
            fields == CertificateFields(ocrText, ex.certificateText(ocrText)))
    ensures GetDocumentType(ocrText) == UnknownType ==>
      var fields := FieldsByType(ocrText, ex);
      var s := ex.specific(ocrText);
      var c := CertificateFields(ocrText, ex.certificateText(ocrText));
      var e := EmiratesIdFields(ocrText, ex.emiratesIdText(ocrText));
      && fields.Keys == s.Keys + c.Keys + e.Keys
      && forall k :: k in fields ==> fields[k] == (if k in e then e[k] else if k in c then c[k] else s[k])
  {
  }

  /** `extract_fields_by_document_type`, updating one dictionary in turn for an unknown document. */
  method ExtractFieldsByDocumentType(ocrText: string, ex: Extractors) returns (fields: Fields)
    ensures fields == FieldsByType(ocrText, ex)
  {
    var documentType := GetDocumentType(ocrText);
    match documentType
    case Passport =>
      fields := ex.specific(ocrText);
    case EmiratesId =>
      fields := ExtractEmiratesIdFields(ocrText, ex.emiratesIdText(ocrText));
    case AttestationCertificate =>
      fields := ExtractCertificateFields(ocrText, ex.certificateText(ocrText));
    case Certificate =>
      fields := ExtractCertificateFields(ocrText, ex.certificateText(ocrText));
    case UnknownType =>
      fields := map[];
      fields := fields + ex.specific(ocrText);
      var certificate := ExtractCertificateFields(ocrText, ex.certificateText(ocrText));
      fields := fields + certificate;
      var emiratesId := ExtractEmiratesIdFields(ocrText, ex.emiratesIdText(ocrText));
      fields := fields + emiratesId;
      assert map[] + ex.specific(ocrText) == ex.specific(ocrText);
  }

  // ---------------------------------------------------------------- text anchors

  /** A text-anchor segment: `start_index` and `end_index` into the document text. */
  datatype Segment = Segment(startIndex: int, endIndex: int)

  /** A slice bound as Python clamps it: negative counts from the end, then into [0, n]. */
  function ClampIndex(i: int, n: nat): (r: nat)
    ensures r <= n
    ensures 0 <= i <= n ==> r == i
    ensures i > n ==> r == n
    ensures i < 0 && i + n >= 0 ==> r == i + n
    ensures i + n < 0 ==> r == 0
  {
    if i < 0 then (if i + n < 0 then 0 else i + n) else if i > n then n else i
  }

  /** `s[i:j]`. */
  function PySlice(s: string, i: int, j: int): (r: string)
    ensures |r| <= |s|
    ensures 0 <= i <= j <= |s| ==> r == s[i..j]
    ensures ClampIndex(j, |s|) <= ClampIndex(i, |s|) ==> r == ""
  {
    var a := ClampIndex(i, |s|);
    var b := ClampIndex(j, |s|);
    if a < b then s[a..b] else ""
  }

  /** The segments' slices of the full text, joined in segment order. */
  function SegmentsText(fullText: string, segments: seq<Segment>): string
  {
    if segments == [] then ""
    else
      var last := segments[|segments| - 1];
      SegmentsText(fullText, segments[..|segments| - 1]) + PySlice(fullText, last.startIndex, last.endIndex)
  }

  /** `_get_text_from_layout`: "" without segments, otherwise the joined slices. */
  method GetTextFromLayout(segments: seq<Segment>, fullText: string) returns (text: string)
    ensures segments == [] ==> text == ""
    ensures text == SegmentsText(fullText, segments)
  {
    if segments == [] {
      return "";
    }
    var joined := "";
    for i := 0 to |segments|
      invariant joined == SegmentsText(fullText, segments[..i])
    {
      var piece := PySlice(fullText, segments[i].startIndex, segments[i].endIndex);
      assert segments[..i + 1][..i] == segments[..i];
      joined := joined + piece;
    }
    assert segments[..|segments|] == segments;
    text := joined;
  }

  /** Segments that follow each other without gaps reassemble the text they cover. */
  lemma {:induction false} ContiguousSegments(fullText: string, segments: seq<Segment>, from: nat)
    requires from <= |fullText|
    requires forall k :: 0 <= k < |segments| ==> from <= segments[k].startIndex <= segments[k].endIndex <= |fullText|
    requires segments != [] ==> segments[0].startIndex == from
    requires forall k :: 0 < k < |segments| ==> segments[k].startIndex == segments[k - 1].endIndex
    ensures segments == [] ==> SegmentsText(fullText, segments) == ""
    ensures segments != [] ==> SegmentsText(fullText, segments) == fullText[from..segments[|segments| - 1].endIndex]
    decreases |segments|
  {
    if |segments| > 1 {
      var init := segments[..|segments| - 1];
      var last := segments[|segments| - 1];
      assert forall k :: 0 <= k < |init| ==> init[k] == segments[k];
      ContiguousSegments(fullText, init, from);
      SliceJoin(fullText, from, last.startIndex, last.endIndex);
    } else if |segments| == 1 {
      assert segments[..0] == [];
    }
  }

  lemma SliceJoin(s: string, a: nat, b: nat, c: nat)
    requires a <= b <= c <= |s|
    ensures s[a..c] == s[a..b] + s[b..c]
  {
  }

  /** A negative start index takes that many characters from the end, as Python does. */
  lemma NegativeStartTakesSuffix(s: string, k: int)
    requires 0 < k <= |s|
    ensures PySlice(s, -k, |s|) == s[|s| - k..]
  {
  }

  // ---------------------------------------------------------------- Document AI against Vision

  /** What `is_better_than_vision` reads from the Document AI result; a missing key is None. */
  datatype DocAiOutcome = DocAiOutcome(hasError: bool, confidence: Option<real>, fullText: Option<string>)

  const IssueKeywords: seq<string> := ["dubai", "duba", "place of issue", "authority"]

  /** Some issue keyword is in the first (lowercased) text and not in the second. */
  predicate FoundMissedKeyword(docLower: string, visionLower: string)
  {
    exists k :: k in IssueKeywords && Contains(docLower, k) && !Contains(visionLower, k)
  }

  /**
   * `is_better_than_vision`, in order: an error result loses; a confidence
   * above 0.9 wins; text more than 1.2 times as long as Vision's wins (the
   * float product compared with an integer length, exactly 5|doc| > 6|vision|
   * for lengths below 2^50); otherwise it wins exactly when it found an issue
   * keyword Vision missed.
   */
  function IsBetterThanVision(doc: DocAiOutcome, visionText: Option<string>): (r: bool)
    ensures doc.hasError ==> !r
    ensures !doc.hasError && doc.confidence.GetOr(0.0) > 0.9 ==> r
    ensures r <==>
      && !doc.hasError
      && (|| doc.confidence.GetOr(0.0) > 0.9
          || 5 * |doc.fullText.GetOr("")| > 6 * |visionText.GetOr("")|
          || FoundMissedKeyword(Lower(doc.fullText.GetOr("")), Lower(visionText.GetOr(""))))
  {
    if doc.hasError then false
    else
      var confidence := doc.confidence.GetOr(0.0);
      if confidence > 0.9 then true
      else
        var docText := doc.fullText.GetOr("");
        var vision := visionText.GetOr("");
        if 5 * |docText| > 6 * |vision| then true
        else FoundMissedKeyword(Lower(docText), Lower(vision))
  }

  /** When both engines read the same text, only the confidence can make Document AI better. */
  lemma SameTextNeedsConfidence(c: real, t: string)
    ensures IsBetterThanVision(DocAiOutcome(false, Some(c), Some(t)), Some(t)) <==> c > 0.9
  {
  }

  /** Raising the confidence never turns a better result into a worse one. */
  lemma BetterIsMonotoneInConfidence(doc: DocAiOutcome, visionText: Option<string>, c: real)
    requires IsBetterThanVision(doc, visionText)
    requires c >= doc.confidence.GetOr(0.0)
    ensures IsBetterThanVision(doc.(confidence := Some(c)), visionText)
  {
  }

  // ---------------------------------------------------------------- structured result

  /** A block's bounding box: its first vertex and the extent to the third. */
  datatype BoundingBox = BoundingBox(x: real, y: real, width: real, height: real)

  /** A block of a page's layout; a box of fewer than four vertices is the empty dictionary, None here. */
  datatype LayoutBlock = LayoutBlock(text: string, confidence: real, boundingBox: Option<BoundingBox>)

  /** An entry of `page_layout`: the page's number, size and blocks. */
  datatype PageLayout = PageLayout(pageNumber: int, width: real, height: real, textBlocks: seq<LayoutBlock>)

  /** The `ocr_data` dictionary: every block's text and confidence, in order, and each page's layout. */
  datatype OcrData = OcrData(textBlocks: seq<string>, confidenceScores: seq<real>, pageLayout: seq<PageLayout>)

  /** The outcome of `process_document`: its error dictionary, or the document's text, OCR data, confidence and page count. */
  datatype ProcessOutcome =
    | ProcessFailed(error: string)
    | Processed(fullText: string, ocrData: OcrData, confidence: real, pages: nat)

  datatype StructuredResult =
    | StructuredFailed(error: string)
    | Structured(ocrText: string, confidence: real, textBlocks: seq<string>, pageCount: nat,
                 documentType: string, documentAiConfidence: real, documentAiOcrData: OcrData)

  const DocumentAiProcessed := "document_ai_processed"

  /**
   * `get_structured_result`: an error result is passed on unchanged;
   * otherwise the OCR text, confidence (twice), the text blocks of the OCR
   * data, the page count and the whole OCR data are carried over under the
   * pipeline's names, typed "document_ai_processed".
   */
  function GetStructuredResult(outcome: ProcessOutcome): (r: StructuredResult)
    ensures outcome.ProcessFailed? <==> r.StructuredFailed?
    ensures outcome.ProcessFailed? ==> r.error == outcome.error
    ensures outcome.Processed? ==>
      && r.ocrText == outcome.fullText && r.textBlocks == outcome.ocrData.textBlocks
      && r.confidence == r.documentAiConfidence == outcome.confidence
      && r.pageCount == outcome.pages && r.documentType == DocumentAiProcessed
      && r.documentAiOcrData == outcome.ocrData
  {
    match outcome
    case ProcessFailed(e) => StructuredFailed(e)
    case Processed(text, ocrData, confidence, pages) =>
      Structured(text, confidence, ocrData.textBlocks, pages, DocumentAiProcessed, confidence, ocrData)
  }
}
