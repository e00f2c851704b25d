/**
 * Routing an e-mail to a MOHRE service (src/service_detector.py): the list of
 * services is the caller's, or the one scraped from the ministry's site
 * (filtered, de-duplicated and sorted), or a default list; Gemini picks the
 * service when it is configured and answers, and otherwise the service
 * sharing the largest fraction of its words with the e-mail wins, the
 * earliest on a tie.
 *
 * The web page, the bundled JSON list and Gemini's answer are given values.
 */
module ServiceDetector {
  import opened Wrappers
  import opened Text

  const UnknownService := "Unknown Service"

  // ---------------------------------------------------------------- sorted, without duplicates

  predicate StrictlySorted(xs: seq<string>)
  {
    forall i, j :: 0 <= i < j < |xs| ==> Below(xs[i], xs[j])
  }

  lemma {:induction false} BelowAsymmetric(a: string, b: string)
    ensures !(Below(a, b) && Below(b, a))
    decreases |a|
  {
    if a != [] && b != [] && a[0] == b[0] {
      BelowAsymmetric(a[1..], b[1..]);
    }
  }

  /** Adds `x` to a sorted list at its place, unless it is there already. */
  function Insert(xs: seq<string>, x: string): (r: seq<string>)
    requires StrictlySorted(xs)
    ensures StrictlySorted(r)
    ensures forall y :: y in r <==> y in xs || y == x
    decreases |xs|
  {
    if xs == [] then [x]
    else if x == xs[0] then xs
    else if Below(x, xs[0]) then
      assert forall j :: 0 < j < |xs| ==> Below(x, xs[j]) by {
        forall j | 0 < j < |xs| {
          BelowTransitive(x, xs[0], xs[j]);
        }
      }
      [x] + xs
    else
      BelowTotal(x, xs[0]);
      var rest := Insert(xs[1..], x);
      assert forall y :: y in rest ==> Below(xs[0], y);
      [xs[0]] + rest
  }

  /** `sorted(set(xs))`. */
  function SortedSet(xs: seq<string>): (r: seq<string>)
    ensures StrictlySorted(r)
    ensures forall y :: y in r <==> y in xs
    decreases |xs|
  {
    if xs == [] then [] else Insert(SortedSet(xs[..|xs| - 1]), xs[|xs| - 1])
  }

  /** A sorted list without duplicates is determined by its elements, so `SortedSet` is the only such list. */
  lemma {:induction false} SortedUnique(a: seq<string>, b: seq<string>)
    requires StrictlySorted(a) && StrictlySorted(b)
    requires forall x :: x in a <==> x in b
    ensures a == b
    decreases |a|
  {
    assert b != [] ==> b[0] in a;
    assert a != [] ==> a[0] in b;
    if a != [] && b != [] {
      BelowAsymmetric(a[0], b[0]);
      assert a[0] == b[0];
      forall x | x in a[1..]
        ensures x != a[0]
      {
        BelowIrreflexive(x);
      }
      forall x | x in b[1..]
        ensures x != b[0]
      {
        BelowIrreflexive(x);
      }
      assert forall x :: x in a[1..] <==> x in a && x != a[0];
      assert forall x :: x in b[1..] <==> x in b && x != b[0];
      SortedUnique(a[1..], b[1..]);
      assert a == [a[0]] + a[1..] && b == [b[0]] + b[1..];
    }
  }

  // ---------------------------------------------------------------- fetching the services

  /** A link text is kept when it is not empty, does not mention "services" and has at most eight words. */
  predicate KeepLink(text: string)
  {
    text != [] && !Contains(Lower(text), "services") && |Split(text)| <= 8
  }

  /** The stripped texts of the page's links that are kept, in page order. */
  function Scraped(links: seq<string>): (r: seq<string>)
    ensures forall x :: x in r <==> KeepLink(x) && exists l :: l in links && x == Strip(l)
    decreases |links|
  {
    if links == [] then []
    else
      var init := Scraped(links[..|links| - 1]);
      var text := Strip(links[|links| - 1]);
      assert forall l :: l in links <==> l in links[..|links| - 1] || l == links[|links| - 1];
      if KeepLink(text) then init + [text] else init
  }

  lemma ScrapedStep(links: seq<string>, i: nat)
    requires i < |links|
    ensures Scraped(links[..i + 1]) ==
      if KeepLink(Strip(links[i])) then Scraped(links[..i]) + [Strip(links[i])] else Scraped(links[..i])
  {
    assert links[..i + 1][..i] == links[..i];
  }

  predicate NonEmpty(s: string) { s != [] }

  /**
   * `fetch_mohre_services`: `links` are the link texts of the services page,
   * or None when the request fails; `local` is the bundled list.
   */
  function FetchedServices(links: Option<seq<string>>, local: seq<string>): (r: seq<string>)
  {
    var found := if links.Some? then Scraped(links.value) else [];
    SortedSet(Filter(if found != [] then found else local, NonEmpty))
  }

  /** `fetch_mohre_services`, building the list link by link. */
  method FetchMohreServices(links: Option<seq<string>>, local: seq<string>) returns (services: seq<string>)
    ensures services == FetchedServices(links, local)
  {
    var found: seq<string> := [];
    if links.Some? {
      var page := links.value;
      for i := 0 to |page|
        invariant found == Scraped(page[..i])
      {
        ScrapedStep(page, i);
        var text := Strip(page[i]);
        if KeepLink(text) {
          found := found + [text];
        }
      }
      assert page[..|page|] == page;
    }
    if found == [] {
      found := local;
    }
    services := SortedSet(Filter(found, NonEmpty));
  }

  /**
   * The fetched list is sorted and free of duplicates and empty names; when
   * the page gave anything, the names are exactly the kept link texts, and
   * otherwise they are the non-empty names of the bundled list.
   */
  lemma FetchedServicesFacts(links: Option<seq<string>>, local: seq<string>)
    ensures var r := FetchedServices(links, local);
      && StrictlySorted(r)
      && (forall x :: x in r ==> x != [])
      && (links.Some? && Scraped(links.value) != [] ==>
            forall x :: x in r <==> KeepLink(x) && exists l :: l in links.value && x == Strip(l))
      && (links.None? || Scraped(links.value) == [] ==>
            forall x :: x in r <==> x in local && x != [])
  {
  }

  // ---------------------------------------------------------------- keyword match

  /** `set(re.findall(r"\w+", s.lower()))`. */
  function WordSet(s: string): set<string>
  {
    set w | w in Tokens(Lower(s), IsWordChar)
  }

  /** The fraction of the service's words found in the text; 0 for a service without words. */
  function Score(serviceWords: set<string>, textWords: set<string>): (r: real)
    ensures r >= 0.0
    ensures r > 0.0 <==> serviceWords * textWords != {}
  {
    if serviceWords == {} then 0.0
    else
      assert serviceWords * textWords != {} ==> |serviceWords * textWords| > 0;
      |serviceWords * textWords| as real / |serviceWords| as real
  }

  /** The loop's best service and best score after `services`, from "Unknown Service" and 0. */
  function Scanned(textWords: set<string>, services: seq<string>): (r: (string, real))
    ensures r.1 >= 0.0
    decreases |services|
  {
    if services == [] then (UnknownService, 0.0)
    else
      var prev := Scanned(textWords, services[..|services| - 1]);
      var service := services[|services| - 1];
      var serviceWords := WordSet(service);
      if serviceWords == {} then prev
      else
        var score := Score(serviceWords, textWords);
        if score > prev.1 then (service, score) else prev
  }

  /** `_simple_keyword_match` as a function. */
  function KeywordMatch(text: string, services: seq<string>): string
  {
    var (best, bestScore) := Scanned(WordSet(text), services);
    if bestScore > 0.0 then best else UnknownService
  }

  /** `_simple_keyword_match`. */
  method SimpleKeywordMatch(text: string, services: seq<string>) returns (r: string)
    ensures r == KeywordMatch(text, services)
  {
    var textWords := WordSet(text);
    var bestService := UnknownService;
    var bestScore := 0.0;
    for i := 0 to |services|
      invariant (bestService, bestScore) == Scanned(textWords, services[..i])
    {
      assert services[..i + 1][..i] == services[..i];
      var serviceWords := WordSet(services[i]);
      if serviceWords == {} {
        continue;
      }
      var score := Score(serviceWords, textWords);
      if score > bestScore {
        bestScore := score;
        bestService := services[i];
      }
    }
    assert services[..|services|] == services;
    r := if bestScore > 0.0 then bestService else UnknownService;
  }

  /** The score of the `j`-th service against the text. */
  function ScoreAt(textWords: set<string>, services: seq<string>, j: nat): (r: real)
    requires j < |services|
    ensures r >= 0.0
  {
    Score(WordSet(services[j]), textWords)
  }

  /** The score of every service, in list order. */
  function Scores(textWords: set<string>, services: seq<string>): (r: seq<real>)
    ensures |r| == |services|
    ensures forall j :: 0 <= j < |services| ==> r[j] == ScoreAt(textWords, services, j)
  {
    seq(|services|, j requires 0 <= j < |services| => ScoreAt(textWords, services, j))
  }

  /** The index and value kept by a scan that moves only to a strictly higher score, from -1 and 0. */
  function FirstMax(scores: seq<real>): (r: (int, real))
    ensures -1 <= r.0 < |scores|
    decreases |scores|
  {
    if scores == [] then (-1, 0.0)
    else
      var prev := FirstMax(scores[..|scores| - 1]);
      if scores[|scores| - 1] > prev.1 then (|scores| - 1, scores[|scores| - 1]) else prev
  }

  /** `k` holds the highest score, it is positive, and every earlier score is lower. */
  predicate IsFirstMax(scores: seq<real>, k: int)
  {
    && 0 <= k < |scores|
    && scores[k] > 0.0
    && (forall j :: 0 <= j < |scores| ==> scores[j] <= scores[k])
    && (forall j :: 0 <= j < k ==> scores[j] < scores[k])
  }

  /** With no negative score, the scan ends on the first highest score, or on -1 when every score is 0. */
  lemma {:induction false} FirstMaxSpec(scores: seq<real>)
    requires forall j :: 0 <= j < |scores| ==> scores[j] >= 0.0
    ensures var (k, m) := FirstMax(scores);
      && (k == -1 ==> m == 0.0 && forall j :: 0 <= j < |scores| ==> scores[j] == 0.0)
      && (k != -1 ==> IsFirstMax(scores, k) && m == scores[k])
    decreases |scores|
  {
    if scores != [] {
      var init := scores[..|scores| - 1];
      FirstMaxSpec(init);
      assert forall j :: 0 <= j < |init| ==> init[j] == scores[j];
    }
  }

  /** Skipping a service without words is the same as scoring it 0, so the loop is the first-maximum scan. */
  lemma {:induction false} ScannedIsFirstMax(textWords: set<string>, services: seq<string>)
    ensures var (k, m) := FirstMax(Scores(textWords, services));
      Scanned(textWords, services) == (if k == -1 then UnknownService else services[k], m)
    decreases |services|
  {
    if services != [] {
      var last := |services| - 1;
      ScannedIsFirstMax(textWords, services[..last]);
      assert Scores(textWords, services)[..last] == Scores(textWords, services[..last]);
    }
  }

  /**
   * The keyword match is "Unknown Service" exactly when no service shares a
   * word with the text, and otherwise the first service whose share of
   * matched words is highest.
   */
  lemma KeywordMatchFacts(text: string, services: seq<string>)
    ensures var r := KeywordMatch(text, services);
      var scores := Scores(WordSet(text), services);
      && ((forall j :: 0 <= j < |services| ==> scores[j] == 0.0) ==> r == UnknownService)
      && ((exists j :: 0 <= j < |services| && scores[j] > 0.0) ==>
            exists k :: IsFirstMax(scores, k) && r == services[k])
      && (r == UnknownService || r in services)
  {
    var scores := Scores(WordSet(text), services);
    ScannedIsFirstMax(WordSet(text), services);
    FirstMaxSpec(scores);
  }

  // ---------------------------------------------------------------- word sets of plain text

  /** A non-empty run of word characters. */
  predicate Word(w: string)
  {
    w != [] && forall i :: 0 <= i < |w| ==> IsWordChar(w[i])
  }

  /** Words joined by single spaces tokenize back into those words. */
  lemma {:induction false} TokensOfSpacedWords(words: seq<string>)
    requires forall k :: 0 <= k < |words| ==> Word(words[k])
    ensures Tokens(Join(" ", words), IsWordChar) == words
    decreases |words|
  {
    if |words| == 1 {
      TokensOfRun(words[0], IsWordChar);
    } else if |words| > 1 {
      TokensOfRun(words[0], IsWordChar);
      TokensOfSpacedWords(words[1..]);
      TokensSplit(words[0], ' ', Join(" ", words[1..]), IsWordChar);
      assert Join(" ", words) == words[0] + [' '] + Join(" ", words[1..]);
    }
  }

  /** A text that lowers to words joined by spaces has exactly those words. */
  lemma WordSetOfSpaced(s: string, words: seq<string>)
    requires forall k :: 0 <= k < |words| ==> Word(words[k])
    requires Lower(s) == Join(" ", words)
    ensures WordSet(s) == set w | w in words
  {
    TokensOfSpacedWords(words);
  }

  /** Words joined by spaces and closed by one separator have exactly those words. */
  lemma TokensOfSpacedThen(x: string, words: seq<string>, c: char)
    requires forall k :: 0 <= k < |words| ==> Word(words[k])
    requires !IsWordChar(c) && x == Join(" ", words) + [c]
    ensures Tokens(x, IsWordChar) == words
  {
    var j := Join(" ", words);
    assert x == j + [c] + [];
    TokensSplit(j, c, [], IsWordChar);
    TokensOfSpacedWords(words);
  }

  /** A text that ends in a separator tokenises apart from what follows it. */
  lemma TokensAfterSeparator(x: string, y: string)
    requires x != [] && !IsWordChar(x[|x| - 1])
    ensures Tokens(x + y, IsWordChar) == Tokens(x, IsWordChar) + Tokens(y, IsWordChar)
  {
    var x', c := x[..|x| - 1], x[|x| - 1];
    assert x == x' + [c] + [] && x + y == x' + [c] + y;
    TokensSplit(x', c, y, IsWordChar);
    TokensSplit(x', c, [], IsWordChar);
  }

  /** A piece of text that lowers to something ending in a separator. */
  predicate ClosedPiece(x: string)
  {
    Lower(x) != [] && !IsWordChar(Lower(x)[|Lower(x)| - 1])
  }

  /** The words of four pieces, each but the last ending in a separator, are the pieces' words in order. */
  lemma TokensOfPieces(a: string, b: string, c: string, d: string)
    requires ClosedPiece(a) && ClosedPiece(b) && ClosedPiece(c)
    ensures Tokens(Lower(a + b + c + d), IsWordChar)
      == Tokens(Lower(a), IsWordChar) + Tokens(Lower(b), IsWordChar)
         + Tokens(Lower(c), IsWordChar) + Tokens(Lower(d), IsWordChar)
  {
    LowerConcat(a + b + c, d);
    LowerConcat(a + b, c);
    LowerConcat(a, b);
    TokensAfterSeparator(Lower(a), Lower(b));
    TokensAfterSeparator(Lower(a) + Lower(b), Lower(c));
    TokensAfterSeparator(Lower(a) + Lower(b) + Lower(c), Lower(d));
  }

  /** One word followed by two separators. */
  lemma TokensOfWordThen(x: string, w: string, c: char, e: char)
    requires Word(w) && !IsWordChar(c) && !IsWordChar(e) && x == w + [c] + [e]
    ensures Tokens(x, IsWordChar) == [w]
  {
    TokensSplit(w, c, [e], IsWordChar);
    TokensOfRun(w, IsWordChar);
    TokensEmpty([e], IsWordChar);
  }

  // The test's service names and request, one literal fact per lemma.

  lemma CancellationLowered()
    ensures Lower("Work Permit Cancellation") == "work permit cancellation"
  {
  }

  lemma CancellationJoined()
    ensures Join(" ", ["work", "permit", "cancellation"]) == "work permit cancellation"
  {
  }

  lemma CancellationTokens(ws: seq<string>)
    requires ws == ["work", "permit", "cancellation"]
    ensures (forall k :: 0 <= k < |ws| ==> Word(ws[k])) && (set w | w in ws) == {"work", "permit", "cancellation"}
  {
  }

  lemma CancellationWords(s: string)
    requires s == "Work Permit Cancellation"
    ensures WordSet(s) == {"work", "permit", "cancellation"}
  {
    var ws := ["work", "permit", "cancellation"];
    CancellationLowered();
    CancellationJoined();
    CancellationTokens(ws);
    WordSetOfSpaced(s, ws);
  }

  lemma IssueLowered()
    ensures Lower("Issue New Work Permit") == "issue new work permit"
  {
  }

  lemma IssueJoined()
    ensures Join(" ", ["issue", "new", "work", "permit"]) == "issue new work permit"
  {
  }

  lemma IssueTokens(ws: seq<string>)
    requires ws == ["issue", "new", "work", "permit"]
    ensures (forall k :: 0 <= k < |ws| ==> Word(ws[k])) && (set w | w in ws) == {"issue", "new", "work", "permit"}
  {
  }

  lemma IssueWords(s: string)
    requires s == "Issue New Work Permit"
    ensures WordSet(s) == {"issue", "new", "work", "permit"}
  {
    var ws := ["issue", "new", "work", "permit"];
    IssueLowered();
    IssueJoined();
    IssueTokens(ws);
    WordSetOfSpaced(s, ws);
  }

  /** The request text of the test case for routing by keywords, written in four pieces. */
  const CancelRequest := "Hello, " + "I would like to " + "cancel my work " + "permit as soon as possible."

  lemma GreetingLowered()
    ensures Lower("Hello, ") == "hello" + [','] + [' ']
  {
  }

  lemma GreetingWord()
    ensures Word("hello")
  {
  }

  /** "Hello, " has the one word "hello". */
  lemma GreetingPiece(a: string)
    requires a == "Hello, "
    ensures ClosedPiece(a) && Tokens(Lower(a), IsWordChar) == ["hello"]
  {
    GreetingLowered();
    GreetingWord();
    TokensOfWordThen(Lower(a), "hello", ',', ' ');
  }

  lemma WishLowered()
    ensures Lower("I would like to ") == "i would like to "
  {
  }

  lemma WishJoined()
    ensures Join(" ", ["i", "would", "like", "to"]) + [' '] == "i would like to "
  {
  }

  lemma WishWords(ws: seq<string>)
    requires ws == ["i", "would", "like", "to"]
    ensures forall k :: 0 <= k < |ws| ==> Word(ws[k])
  {
  }

  /** "I would like to " has the words "i", "would", "like" and "to". */
  lemma WishPiece(b: string)
    requires b == "I would like to "
    ensures ClosedPiece(b) && Tokens(Lower(b), IsWordChar) == ["i", "would", "like", "to"]
  {
    WishLowered();
    WishJoined();
    WishWords(["i", "would", "like", "to"]);
    TokensOfSpacedThen(Lower(b), ["i", "would", "like", "to"], ' ');
  }

  lemma ActionLowered()
    ensures Lower("cancel my work ") == "cancel my work "
  {
  }

  lemma ActionJoined()
    ensures Join(" ", ["cancel", "my", "work"]) + [' '] == "cancel my work "
  {
  }

  lemma ActionWords(ws: seq<string>)
    requires ws == ["cancel", "my", "work"]
    ensures forall k :: 0 <= k < |ws| ==> Word(ws[k])
  {
  }

  /** "cancel my work " has the words "cancel", "my" and "work". */
  lemma ActionPiece(c: string)
    requires c == "cancel my work "
    ensures ClosedPiece(c) && Tokens(Lower(c), IsWordChar) == ["cancel", "my", "work"]
  {
    ActionLowered();
    ActionJoined();
    ActionWords(["cancel", "my", "work"]);
    TokensOfSpacedThen(Lower(c), ["cancel", "my", "work"], ' ');
  }

  lemma UrgencyLowered()
    ensures Lower("permit as soon as possible.") == "permit as soon as possible."
  {
  }

  lemma UrgencyJoined()
    ensures Join(" ", ["permit", "as", "soon", "as", "possible"]) + ['.'] == "permit as soon as possible."
  {
  }

  lemma UrgencyWords(ws: seq<string>)
    requires ws == ["permit", "as", "soon", "as", "possible"]
    ensures forall k :: 0 <= k < |ws| ==> Word(ws[k])
  {
  }

  /** "permit as soon as possible." has the words "permit", "as", "soon", "as" and "possible". */
  lemma UrgencyPiece(d: string)
    requires d == "permit as soon as possible."
    ensures Tokens(Lower(d), IsWordChar) == ["permit", "as", "soon", "as", "possible"]
  {
    UrgencyLowered();
    UrgencyJoined();
    UrgencyWords(["permit", "as", "soon", "as", "possible"]);
    TokensOfSpacedThen(Lower(d), ["permit", "as", "soon", "as", "possible"], '.');
  }

  lemma RequestSet(ws: seq<string>)
    requires ws == ["hello"] + ["i", "would", "like", "to"] + ["cancel", "my", "work"] + ["permit", "as", "soon", "as", "possible"]
    ensures (set w | w in ws) == {"hello", "i", "would", "like", "to", "cancel", "my", "work", "permit", "as", "soon", "possible"}
  {
  }

  lemma CancelRequestWordSet(s: string)
    requires s == CancelRequest
    ensures WordSet(s) == {"hello", "i", "would", "like", "to", "cancel", "my", "work", "permit", "as", "soon", "possible"}
  {
    var a, b, c, d := "Hello, ", "I would like to ", "cancel my work ", "permit as soon as possible.";
    GreetingPiece(a);
    WishPiece(b);
    ActionPiece(c);
    UrgencyPiece(d);
    TokensOfPieces(a, b, c, d);
    RequestSet(Tokens(Lower(a + b + c + d), IsWordChar));
  }

  /** Of two services, the first wins when it scores above zero and the second does not beat it. */
  lemma FirstOfTwoWins(text: string, services: seq<string>)
    requires |services| == 2 && WordSet(services[0]) != {} && WordSet(services[1]) != {}
    requires 0.0 < Score(WordSet(services[0]), WordSet(text))
    requires Score(WordSet(services[1]), WordSet(text)) <= Score(WordSet(services[0]), WordSet(text))
    ensures KeywordMatch(text, services) == services[0]
  {
    var first := WordSet(services[0]);
    var textWords := WordSet(text);
    assert services[..1][..0] == [] && services[..|services| - 1] == services[..1];
    assert Scanned(textWords, services[..1]) == (services[0], Score(first, textWords));
    assert Scanned(textWords, services) == (services[0], Score(first, textWords));
  }

  lemma ExampleScores(cancellation: set<string>, issue: set<string>, textWords: set<string>)
    requires cancellation == {"work", "permit", "cancellation"} && issue == {"issue", "new", "work", "permit"}
    requires textWords == {"hello", "i", "would", "like", "to", "cancel", "my", "work", "permit", "as", "soon", "possible"}
    ensures Score(cancellation, textWords) == 2.0 / 3.0 && Score(issue, textWords) == 2.0 / 4.0
  {
    assert cancellation * textWords == {"work", "permit"} && issue * textWords == {"work", "permit"};
    assert |{"work", "permit"}| == 2 && |cancellation| == 3 && |issue| == 4;
  }

  /** A request to cancel a work permit is routed to "Work Permit Cancellation" (2 of 3 words against 2 of 4). */
  lemma CancelWorkPermitExample(text: string, services: seq<string>)
    requires text == CancelRequest && services == ["Work Permit Cancellation", "Issue New Work Permit"]
    ensures KeywordMatch(text, services) == "Work Permit Cancellation"
  {
    CancelRequestWordSet(text);
    CancellationWords(services[0]);
    IssueWords(services[1]);
    ExampleScores(WordSet(services[0]), WordSet(services[1]), WordSet(text));
    FirstOfTwoWins(text, services);
  }

  // ---------------------------------------------------------------- detection

  /** The built-in list used when neither the caller nor the site nor the bundled file gives one. */
  const BuiltInServices: seq<string> := [
    "Work Permit Cancellation", "New Work Permit Application", "Contract Amendment",
    "Labour Card Issuance", "Salary Complaint", "Work Permit Renewal", "Temporary Work Permit",
    "Part-Time Work Permit", "Student Training Permit", "Juvenile Work Permit",
    "Employment Contract Registration", "Labour Card Cancellation", "Labour Card Renewal",
    "Bank Guarantee Refund", "Issue New Employment Visa", "Employment Visa Renewal",
    "Employment Visa Cancellation", "Labour Complaint", "Absconding Report",
    "Wage Protection System Registration", "Wage Protection System Amendment",
    "Wage Protection System Cancellation", "Establishment Card Renewal", "Establishment Registration",
    "Domestic Worker Permit", "Transfer Work Permit", "Work Injury Compensation",
    "End of Service Benefits Claim", "Quota Request", "Job Offer Registration",
    "Work Permit Replacement", "Probation Period Contract", "Mission Work Permit",
    "Family Residence Visa Sponsorship", "Occupational Health Card",
    "Certification of Loss of Passport", "Grievance Submission", "Housing Allowance Request",
    "Contract Termination", "Employment History Request", "Complaint Follow-up",
    "Salary Certificate Issuance", "Resignation Notice", "Return of Work Permit Deposit",
    "Establishment Data Update", "Emiratisation Certificate Request", "Part-time Job Approval",
    "Exemption from Bank Guarantee", "Work Place Inspection Request", "Annual Leave Approval"]

  /** `DEFAULT_SERVICES`: the bundled list when it has entries, else the built-in one. */
  function DefaultServices(local: seq<string>): (r: seq<string>)
    ensures r != []
  {
    if local != [] then local else BuiltInServices
  }

  /** `services or fetch_mohre_services() or DEFAULT_SERVICES`. */
  function ChosenServices(given: seq<string>, links: Option<seq<string>>, local: seq<string>): (r: seq<string>)
    ensures r != []
    ensures given != [] ==> r == given
    ensures given == [] && FetchedServices(links, local) != [] ==> r == FetchedServices(links, local)
    ensures given == [] && FetchedServices(links, local) == [] ==> r == DefaultServices(local)
  {
    if given != [] then given
    else
      var fetched := FetchedServices(links, local);
      if fetched != [] then fetched else DefaultServices(local)
  }

  /**
   * `detect_service_from_email`. `configured` is whether an API key is set;
   * `reply` is Gemini's answer text, or Err when the call raises.
   */
  function DetectService(emailText: string, given: seq<string>, links: Option<seq<string>>, local: seq<string>,
                         configured: bool, reply: Result<string>): (r: string)
    ensures configured && reply.Ok? && reply.value != [] ==> r == Strip(reply.value)
    ensures !(configured && reply.Ok? && reply.value != []) ==> r == UnknownService || r in ChosenServices(given, links, local)
  {
    var services := ChosenServices(given, links, local);
    if configured && reply.Ok? && reply.value != [] then Strip(reply.value)
    else
      KeywordMatchFacts(emailText, services);
      KeywordMatch(emailText, services)
  }
}
