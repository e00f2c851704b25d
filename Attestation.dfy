/**
 * Attestation-number validation and candidate extraction
 * (src/attestation_utils.py): Arabic-Indic digit normalisation, leading-zero
 * stripping with a length window, the "784" (Emirates ID) rejection rule, and
 * whole-token digit runs as candidates.
 */
module Attestation {
  import opened Wrappers
  import opened Text

  const Number1Key := "Attestation Number 1"
  const Number2Key := "Attestation Number 2"

  /** The national-ID prefix an attestation number must not carry. */
  const EmiratesIdPrefix := "784"

  // ---------------------------------------------------------------- normalisation

  function DigitValue(c: char): nat
    requires IsArabicIndicDigit(c)
  {
    c as int - '٠' as int
  }

  function ArabicIndicDigit(d: nat): (c: char)
    requires d < 10
    ensures IsArabicIndicDigit(c) && DigitValue(c) == d
  {
    ('٠' as int + d) as char
  }

  /** One entry of the Arabic-to-Western table: an Arabic-Indic digit becomes the ASCII digit of the same value. */
  function NormalizeChar(c: char): (r: char)
    ensures IsArabicIndicDigit(c) ==> IsAsciiDigit(r) && r as int - '0' as int == DigitValue(c)
    ensures !IsArabicIndicDigit(c) ==> r == c
    ensures !IsArabicIndicDigit(r)
  {
    if IsArabicIndicDigit(c) then DigitChar(DigitValue(c)) else c
  }

  /** The OCR text with every Arabic-Indic digit replaced by its ASCII digit. */
  function Normalized(s: string): (r: string)
    ensures |r| == |s|
    ensures forall i :: 0 <= i < |s| ==> r[i] == NormalizeChar(s[i])
  {
    seq(|s|, i requires 0 <= i < |s| => NormalizeChar(s[i]))
  }

  /** The table applied for the digits of value below `d` only (the state after `d` replacements). */
  function NormalizeBelow(c: char, d: nat): char
  {
    if IsArabicIndicDigit(c) && DigitValue(c) < d then NormalizeChar(c) else c
  }

  /** `str.replace` of one character by one character changes exactly the occurrences of that character. */
  lemma {:induction false} ReplaceOneChar(s: string, a: char, b: char)
    ensures |ReplaceAll(s, [a], [b])| == |s|
    ensures forall i :: 0 <= i < |s| ==> ReplaceAll(s, [a], [b])[i] == if s[i] == a then b else s[i]
    decreases |s|
  {
    if s != [] {
      ReplaceOneChar(s[1..], a, b);
      assert [a] <= s <==> s[0] == a;
    }
  }

  /**
   * The loop of validate_attestation_numbers that applies the ten `replace`
   * calls of the Arabic-to-Western table, in table order.
   */
  method NormalizeOcrText(ocrText: string) returns (normalized: string)
    ensures normalized == Normalized(ocrText)
  {
    normalized := ocrText;
    for d := 0 to 10
      invariant |normalized| == |ocrText|
      invariant forall i :: 0 <= i < |ocrText| ==> normalized[i] == NormalizeBelow(ocrText[i], d)
    {
      ReplaceOneChar(normalized, ArabicIndicDigit(d), DigitChar(d));
      normalized := ReplaceAll(normalized, [ArabicIndicDigit(d)], [DigitChar(d)]);
    }
  }

  /** Normalising leaves no Arabic-Indic digit behind and is idempotent. */
  lemma NormalizedIsCanonical(s: string)
    ensures forall i :: 0 <= i < |s| ==> !IsArabicIndicDigit(Normalized(s)[i])
    ensures Normalized(Normalized(s)) == Normalized(s)
  {
  }

  /** A number written in Arabic-Indic digits normalises to the same string as the same number in ASCII digits. */
  lemma {:induction false} NormalizedAgrees(arabic: string, western: string)
    requires |arabic| == |western|
    requires forall i :: 0 <= i < |arabic| ==>
      IsArabicIndicDigit(arabic[i]) && IsAsciiDigit(western[i]) && western[i] as int - '0' as int == DigitValue(arabic[i])
    ensures Normalized(arabic) == Normalized(western) == western
  {
    forall i | 0 <= i < |arabic|
      ensures Normalized(arabic)[i] == western[i]
    {
      assert western[i] == DigitChar(DigitValue(arabic[i]));
    }
  }

  // ---------------------------------------------------------------- cleaning

  /** `s.lstrip('0')`. */
  function StripLeadingZeros(s: string): (r: string)
    ensures |r| <= |s| && r == s[|s| - |r|..]
    ensures forall i :: 0 <= i < |s| - |r| ==> s[i] == '0'
    ensures r == [] || r[0] != '0'
    decreases |s|
  {
    if s != [] && s[0] == '0' then StripLeadingZeros(s[1..]) else s
  }

  /**
   * `clean_attestation_number`: None for a missing, empty or literal 'null'
   * value; otherwise the value without leading '0's, provided that is a
   * non-empty digit string whose length lies in [minLength, maxLength].
   */
  function CleanAttestationNumber(number: Option<string>, minLength: int, maxLength: int): (r: Option<string>)
    ensures number.None? || number.value == "" || number.value == "null" ==> r.None?
    ensures r.Some? ==>
      && number.Some?
      && |r.value| <= |number.value|
      && number.value[|number.value| - |r.value|..] == r.value
      && (forall i :: 0 <= i < |number.value| - |r.value| ==> number.value[i] == '0')
      && AllDigits(r.value)
      && r.value[0] != '0'
      && minLength <= |r.value| <= maxLength
    ensures (number.Some? && number.value != "null" && AllDigits(StripLeadingZeros(number.value))
             && minLength <= |StripLeadingZeros(number.value)| <= maxLength) ==> r.Some?
  {
    match number
    case None => None
    case Some(s) =>
      if s == "" || s == "null" then None
      else
        var cleaned := StripLeadingZeros(s);
        if !AllDigits(cleaned) then None
        else if |cleaned| < minLength || |cleaned| > maxLength then None
        else Some(cleaned)
  }

  /** An all-zero value is rejected whatever the window: stripping leaves '', which is not a digit string. */
  lemma AllZerosRejected(s: string, minLength: int, maxLength: int)
    requires s != [] && forall i :: 0 <= i < |s| ==> s[i] == '0'
    ensures CleanAttestationNumber(Some(s), minLength, maxLength) == None
  {
    ZerosStripToEmpty(s);
  }

  lemma {:induction false} ZerosStripToEmpty(s: string)
    requires forall i :: 0 <= i < |s| ==> s[i] == '0'
    ensures StripLeadingZeros(s) == []
    decreases |s|
  {
    if s != [] {
      ZerosStripToEmpty(s[1..]);
    }
  }

  /** Cleaning a cleaned value changes nothing. */
  lemma CleanIdempotent(s: string, minLength: int, maxLength: int)
    requires CleanAttestationNumber(Some(s), minLength, maxLength).Some?
    ensures var c := CleanAttestationNumber(Some(s), minLength, maxLength).value;
            CleanAttestationNumber(Some(c), minLength, maxLength) == Some(c)
  {
    var c := CleanAttestationNumber(Some(s), minLength, maxLength).value;
    assert c != "null" by { assert c[0] != 'n'; assert IsDigit(c[0]); }
  }

  // ---------------------------------------------------------------- validation

  function Lookup(m: map<string, Option<string>>, key: string): Option<string>
  {
    if key in m then m[key] else None
  }

  /** The rule for Attestation Number 1: the cleaned value (5 to 15 digits), found in the OCR text or not. */
  function ValidatedNumber1(number: Option<string>): Option<string>
  {
    CleanAttestationNumber(number, 5, 15)
  }

  /**
   * The rule for Attestation Number 2: the cleaned value (6 to 7 digits),
   * kept when the normalised OCR text contains it, and otherwise kept unless
   * it starts with the Emirates ID prefix.
   */
  function ValidatedNumber2(normalizedOcr: string, number: Option<string>): (r: Option<string>)
    ensures r.Some? ==> r == CleanAttestationNumber(number, 6, 7)
    ensures r.None? <==>
      || CleanAttestationNumber(number, 6, 7).None?
      || (!Contains(normalizedOcr, CleanAttestationNumber(number, 6, 7).value)
          && EmiratesIdPrefix <= CleanAttestationNumber(number, 6, 7).value)
  {
    var cleaned := CleanAttestationNumber(number, 6, 7);
    if cleaned.None? then None
    else if Contains(normalizedOcr, cleaned.value) then cleaned
    else if !(EmiratesIdPrefix <= cleaned.value) then cleaned
    else None
  }

  /**
   * `validate_attestation_numbers`: the result has exactly the two keys;
   * number 1 is the cleaned value whether or not the OCR text contains it;
   * number 2 is dropped only when it is absent from the normalised OCR text
   * and starts with "784".
   */
  method ValidateAttestationNumbers(ocrText: string, extracted: map<string, Option<string>>)
    returns (validated: map<string, Option<string>>)
    ensures validated.Keys == {Number1Key, Number2Key}
    ensures validated[Number1Key] == CleanAttestationNumber(Lookup(extracted, Number1Key), 5, 15)
    ensures validated[Number2Key] == ValidatedNumber2(Normalized(ocrText), Lookup(extracted, Number2Key))
  {
    var normalizedOcr := NormalizeOcrText(ocrText);

    var number1: Option<string> := None;
    if Number1Key in extracted {
      var cleaned1 := CleanAttestationNumber(extracted[Number1Key], 5, 15);
      if cleaned1.Some? {
        if Contains(normalizedOcr, cleaned1.value) {
          number1 := cleaned1;
        } else {
          number1 := cleaned1;
        }
      }
    }

    var number2: Option<string> := None;
    if Number2Key in extracted {
      var cleaned2 := CleanAttestationNumber(extracted[Number2Key], 6, 7);
      if cleaned2.Some? {
        if Contains(normalizedOcr, cleaned2.value) {
          number2 := cleaned2;
        } else if !(EmiratesIdPrefix <= cleaned2.value) {
          number2 := cleaned2;
        }
      }
    }

    validated := map[Number1Key := number1, Number2Key := number2];
  }

  // ---------------------------------------------------------------- candidates

  /** `re.findall(r"\w+", s)`: the maximal word-character runs. */
  function WordTokens(s: string): seq<string>
  {
    Tokens(s, IsWordChar)
  }

  predicate IsLongCandidate(t: string) { AllDigits(t) && 10 <= |t| <= 15 }

  predicate IsSevenCandidate(t: string) { AllDigits(t) && |t| == 7 }

  predicate NotEmiratesId(t: string) { !(EmiratesIdPrefix <= t) }

  /**
   * The matches of `\b\d{10,15}\b` without those starting with "784": a match
   * is a whole word-character run made only of digits, of length 10 to 15.
   */
  function LongCandidates(ocrText: string): (r: seq<string>)
    ensures forall t :: t in r <==> t in WordTokens(ocrText) && IsLongCandidate(t) && NotEmiratesId(t)
  {
    Filter(Filter(WordTokens(ocrText), IsLongCandidate), NotEmiratesId)
  }

  /** The matches of `\b\d{7}\b` without those starting with "784". */
  function SevenCandidates(ocrText: string): (r: seq<string>)
    ensures forall t :: t in r <==> t in WordTokens(ocrText) && IsSevenCandidate(t) && NotEmiratesId(t)
  {
    Filter(Filter(WordTokens(ocrText), IsSevenCandidate), NotEmiratesId)
  }

  datatype Candidates = Candidates(long: seq<string>, seven: seq<string>)

  /** `extract_attestation_numbers_from_ocr`: ValueError on empty text, otherwise both candidate lists. */
  function ExtractAttestationNumbersFromOcr(ocrText: string): (r: Result<Candidates>)
    ensures r.Err? <==> ocrText == ""
    ensures r.Ok? ==> forall t :: t in r.value.long <==>
      t in WordTokens(ocrText) && AllDigits(t) && 10 <= |t| <= 15 && !(EmiratesIdPrefix <= t)
    ensures r.Ok? ==> forall t :: t in r.value.seven <==>
      t in WordTokens(ocrText) && AllDigits(t) && |t| == 7 && !(EmiratesIdPrefix <= t)
  {
    if ocrText == "" then Err("OCR text is required for number extraction")
    else Ok(Candidates(LongCandidates(ocrText), SevenCandidates(ocrText)))
  }

  /** Candidates keep text order: the candidates of two texts joined by a non-word character are those of each, in order. */
  lemma CandidatesInTextOrder(a: string, sep: char, b: string)
    requires !IsWordChar(sep)
    ensures LongCandidates(a + [sep] + b) == LongCandidates(a) + LongCandidates(b)
    ensures SevenCandidates(a + [sep] + b) == SevenCandidates(a) + SevenCandidates(b)
  {
    TokensSplit(a, sep, b, IsWordChar);
    FilterConcat(WordTokens(a), WordTokens(b), IsLongCandidate);
    FilterConcat(Filter(WordTokens(a), IsLongCandidate), Filter(WordTokens(b), IsLongCandidate), NotEmiratesId);
    FilterConcat(WordTokens(a), WordTokens(b), IsSevenCandidate);
    FilterConcat(Filter(WordTokens(a), IsSevenCandidate), Filter(WordTokens(b), IsSevenCandidate), NotEmiratesId);
  }

  /** A lone digit run is a candidate exactly when its length fits and it does not start with "784". */
  lemma LoneRunCandidates(run: string)
    requires AllDigits(run)
    ensures SevenCandidates(run) == if |run| == 7 && NotEmiratesId(run) then [run] else []
    ensures LongCandidates(run) == if 10 <= |run| <= 15 && NotEmiratesId(run) then [run] else []
  {
    TokensOfRun(run, IsWordChar);
  }

  datatype Suggestions = Suggestions(
    number1: Option<string>,
    number2: Option<string>,
    availableLongNumbers: seq<string>,
    availableSevenDigitNumbers: seq<string>)

  function First(xs: seq<string>): Option<string>
  {
    if xs == [] then None else Some(xs[0])
  }

  /**
   * `suggest_attestation_numbers`: both lists as extracted, number 1 and
   * number 2 the first element of each (None for an empty list); the
   * ValueError of the extraction propagates.
   */
  function SuggestAttestationNumbers(ocrText: string): (r: Result<Suggestions>)
    ensures r.Err? <==> ocrText == ""
    ensures r.Ok? ==>
      && r.value.availableLongNumbers == LongCandidates(ocrText)
      && r.value.availableSevenDigitNumbers == SevenCandidates(ocrText)
      && (r.value.number1.Some? <==> |LongCandidates(ocrText)| > 0)
      && (r.value.number2.Some? <==> |SevenCandidates(ocrText)| > 0)
      && (r.value.number1.Some? ==> r.value.number1.value == LongCandidates(ocrText)[0])
      && (r.value.number2.Some? ==> r.value.number2.value == SevenCandidates(ocrText)[0])
  {
    match ExtractAttestationNumbersFromOcr(ocrText)
    case Err(e) => Err(e)
    case Ok(c) => Ok(Suggestions(First(c.long), First(c.seven), c.long, c.seven))
  }

  /** A suggested number 2 without a leading zero always survives the number-2 validation rule, whatever the OCR text. */
  lemma SuggestedNumber2Survives(ocrText: string, otherText: string)
    requires SuggestAttestationNumbers(ocrText).Ok?
    requires var n2 := SuggestAttestationNumbers(ocrText).value.number2; n2.Some? && n2.value[0] != '0'
    ensures var n2 := SuggestAttestationNumbers(ocrText).value.number2;
            ValidatedNumber2(otherText, n2) == n2
  {
    var t := SuggestAttestationNumbers(ocrText).value.number2.value;
    assert t in SevenCandidates(ocrText);
    assert t != "null" by { assert IsDigit(t[0]); }
    assert StripLeadingZeros(t) == t;
  }
}
