/**
 * The mail side of intake (src/email_parser.py): cleaning subjects and attachment
 * names into folder and file names, building the IMAP search criteria with the
 * UNSEEN-only fallback, and removing download folders older than a cutoff.
 * The IMAP server, the clock and the download directory are parameters.
 */
module EmailParser {
  import opened Wrappers
  import opened Text

  // ---------------------------------------------------------------- file names

  /** A character `clean_filename` keeps: alphanumeric, space, '.' or '_'. */
  predicate FilenameChar(c: char) { IsAlnum(c) || c == ' ' || c == '.' || c == '_' }

  /** `a` can be obtained from `b` by deleting characters. */
  predicate Subsequence(a: string, b: string)
    decreases |b|
  {
    a == [] || (b != [] && if a[0] == b[0] then Subsequence(a[1..], b[1..]) else Subsequence(a, b[1..]))
  }

  lemma {:induction false} FilterSubsequence(s: string, p: char -> bool)
    ensures Subsequence(Filter(s, p), s)
    decreases |s|
  {
    if s != [] {
      FilterSubsequence(s[1..], p);
      if p(s[0]) {
        assert Filter(s, p) == [s[0]] + Filter(s[1..], p);
        assert Filter(s, p)[1..] == Filter(s[1..], p);
      } else {
        SubsequenceDrop(Filter(s, p), s);
      }
    }
  }

  /** A subsequence of the tail is a subsequence of the whole. */
  lemma {:induction false} SubsequenceDrop(a: string, b: string)
    requires b != [] && Subsequence(a, b[1..])
    ensures Subsequence(a, b)
    decreases |b|, 0
  {
    if a != [] && a[0] == b[0] {
      if |b| > 1 && a[1..] != [] {
        SubsequenceTail(a, b[1..]);
      }
    }
  }

  /** Dropping the first character of a subsequence keeps it a subsequence. */
  lemma {:induction false} SubsequenceTail(a: string, b: string)
    requires a != [] && Subsequence(a, b)
    ensures Subsequence(a[1..], b)
    decreases |b|, 1
  {
    if a[1..] != [] {
      if a[0] == b[0] {
        SubsequenceDrop(a[1..], b);
      } else {
        SubsequenceTail(a, b[1..]);
        SubsequenceDrop(a[1..], b);
      }
    }
  }

  /** A prefix of a subsequence is a subsequence. */
  lemma {:induction false} SubsequencePrefix(a: string, b: string, k: nat)
    requires k <= |a| && Subsequence(a, b)
    ensures Subsequence(a[..k], b)
    decreases |b|
  {
    if k > 0 {
      if a[0] == b[0] {
        SubsequencePrefix(a[1..], b[1..], k - 1);
        assert a[..k][1..] == a[1..][..k - 1];
      } else {
        SubsequencePrefix(a, b[1..], k);
      }
    }
  }

  lemma {:induction false} FilterKeepsAll(s: string, p: char -> bool)
    requires forall i :: 0 <= i < |s| ==> p(s[i])
    ensures Filter(s, p) == s
    decreases |s|
  {
    if s != [] {
      FilterKeepsAll(s[1..], p);
      assert s == [s[0]] + s[1..];
    }
  }

  /** `clean_filename`: the allowed characters in order, less trailing whitespace. */
  function CleanFilename(name: string): string
  {
    RStrip(Filter(name, FilenameChar))
  }

  /**
   * The cleaned name holds only allowed characters and does not end in a
   * space; it is the allowed characters of the name, in order, less the
   * trailing spaces among them.
   */
  lemma CleanFilenameFacts(name: string)
    ensures var r := CleanFilename(name);
      && (forall i :: 0 <= i < |r| ==> FilenameChar(r[i]))
      && (r == [] || r[|r| - 1] != ' ')
      && var kept := Filter(name, FilenameChar);
         |r| <= |kept| && r == kept[..|r|] && forall i :: |r| <= i < |kept| ==> kept[i] == ' '
  {
    var kept := Filter(name, FilenameChar);
    var r := RStrip(kept);
    KeptAllowed(name);
    forall i | |r| <= i < |kept|
      ensures kept[i] == ' '
    {
      AllowedSpace(kept[i]);
    }
    forall i | 0 <= i < |r|
      ensures FilenameChar(r[i])
    {
      assert r[i] == kept[i];
    }
  }

  lemma KeptAllowed(name: string)
    ensures var kept := Filter(name, FilenameChar); forall i :: 0 <= i < |kept| ==> FilenameChar(kept[i])
  {
    var kept := Filter(name, FilenameChar);
    forall i | 0 <= i < |kept|
      ensures FilenameChar(kept[i])
    {
      assert kept[i] in kept;
    }
  }

  /** The only whitespace a file name keeps is the plain space. */
  lemma AllowedSpace(c: char)
    requires FilenameChar(c) && IsSpace(c)
    ensures c == ' '
  {
  }

  /** The cleaned name is obtained from the original by deleting characters. */
  lemma CleanFilenameSubsequence(name: string)
    ensures Subsequence(CleanFilename(name), name)
  {
    var kept := Filter(name, FilenameChar);
    var r := CleanFilename(name);
    CleanFilenameFacts(name);
    FilterSubsequence(name, FilenameChar);
    SubsequencePrefix(kept, name, |r|);
  }

  /** Cleaning a cleaned name changes nothing. */
  lemma CleanFilenameIdempotent(name: string)
    ensures CleanFilename(CleanFilename(name)) == CleanFilename(name)
  {
    var r := CleanFilename(name);
    CleanFilenameFacts(name);
    FilterKeepsAll(r, FilenameChar);
  }

  /** The folder for a message: its cleaned subject, or "NoSubject" when that is empty. */
  function SubjectFolder(subject: string): (r: string)
    ensures r != []
  {
    var cleaned := CleanFilename(subject);
    if cleaned != [] then cleaned else "NoSubject"
  }

  /** A subject folder is already a clean file name. */
  lemma SubjectFolderIsClean(subject: string)
    ensures CleanFilename(SubjectFolder(subject)) == SubjectFolder(subject)
  {
    if CleanFilename(subject) != [] {
      CleanFilenameIdempotent(subject);
    } else {
      NoSubjectIsClean("NoSubject");
    }
  }

  lemma NoSubjectIsClean(s: string)
    requires s == "NoSubject"
    ensures CleanFilename(s) == s
  {
    assert forall i :: 0 <= i < |s| ==> IsAlpha(s[i]);
    FilterKeepsAll(s, FilenameChar);
  }

  // ---------------------------------------------------------------- dates

  /** A calendar date as the clock reports it, in the years `strftime("%Y")` writes with four digits. */
  datatype Date = Date(day: nat, month: nat, year: nat)

  predicate ValidDate(d: Date) { 1 <= d.day <= 31 && 1 <= d.month <= 12 && 1000 <= d.year <= 9999 }

  const MonthAbbreviations: seq<string> :=
    ["Jan", "Feb", "Mar", "Apr", "May", "Jun", "Jul", "Aug", "Sep", "Oct", "Nov", "Dec"]

  function Digit(d: nat): (c: char)
    requires d < 10
    ensures IsAsciiDigit(c) && c as int - '0' as int == d
  {
    ('0' as int + d) as char
  }

  /** `strftime("%d-%b-%Y")`: two-digit day, English month abbreviation, four-digit year. */
  function DateText(d: Date): (r: string)
    requires ValidDate(d)
    ensures |r| == 11 && r[2] == '-' && r[6] == '-'
    ensures r[3..6] == MonthAbbreviations[d.month - 1]
  {
    [Digit(d.day / 10), Digit(d.day % 10), '-'] + MonthAbbreviations[d.month - 1]
      + ['-', Digit(d.year / 1000), Digit(d.year / 100 % 10), Digit(d.year / 10 % 10), Digit(d.year % 10)]
  }

  function DigitValue(c: char): int { c as int - '0' as int }

  /** The index of a month abbreviation, or None. */
  function MonthNumber(name: string): (m: Option<nat>)
    ensures m.Some? ==> 1 <= m.value <= 12 && MonthAbbreviations[m.value - 1] == name
  {
    if exists k :: 0 <= k < 12 && MonthAbbreviations[k] == name then
      var k :| 0 <= k < 12 && MonthAbbreviations[k] == name;
      Some(k + 1)
    else None
  }

  /** Reads a `%d-%b-%Y` date back. */
  function ParseDate(s: string): Option<Date>
  {
    if |s| != 11 then None
    else
      var m := MonthNumber(s[3..6]);
      if m.None? then None
      else
        var day := 10 * DigitValue(s[0]) + DigitValue(s[1]);
        var year := 1000 * DigitValue(s[7]) + 100 * DigitValue(s[8]) + 10 * DigitValue(s[9]) + DigitValue(s[10]);
        if day < 0 || year < 0 then None else Some(Date(day, m.value, year))
  }

  lemma MonthAbbreviationsDistinct(j: nat, k: nat)
    requires j < 12 && k < 12 && MonthAbbreviations[j] == MonthAbbreviations[k]
    ensures j == k
  {
    assert MonthAbbreviations[j][..2] == MonthAbbreviations[k][..2];
    assert MonthAbbreviations[j][2] == MonthAbbreviations[k][2];
  }

  /** The search date written by `DateText` names the same day. */
  lemma DateTextRoundTrip(d: Date)
    requires ValidDate(d)
    ensures ParseDate(DateText(d)) == Some(d)
  {
    var s := DateText(d);
    MonthNumberOf(d.month);
    DateTextDigits(d);
    NumberFromDigits(d.day, d.year);
    ParseDateOf(s, d);
  }

  /** Each month abbreviation reads back as its own month. */
  lemma MonthNumberOf(month: nat)
    requires 1 <= month <= 12
    ensures MonthNumber(MonthAbbreviations[month - 1]) == Some(month)
  {
    var m := MonthNumber(MonthAbbreviations[month - 1]);
    assert m.Some?;
    MonthAbbreviationsDistinct(m.value - 1, month - 1);
  }

  lemma DateTextDigits(d: Date)
    requires ValidDate(d)
    ensures var s := DateText(d);
      && DigitValue(s[0]) == d.day / 10 && DigitValue(s[1]) == d.day % 10
      && DigitValue(s[7]) == d.year / 1000 && DigitValue(s[8]) == d.year / 100 % 10
      && DigitValue(s[9]) == d.year / 10 % 10 && DigitValue(s[10]) == d.year % 10
  {
  }

  lemma NumberFromDigits(day: nat, year: nat)
    requires year <= 9999
    ensures 10 * (day / 10) + day % 10 == day
    ensures 1000 * (year / 1000) + 100 * (year / 100 % 10) + 10 * (year / 10 % 10) + year % 10 == year
  {
    var q1, q2, q3 := year / 10, year / 100, year / 1000;
    DivideByTen(year);
    DivideByTen(q1);
    DivideByTen(q2);
    DivideTwice(year);
    assert year == 1000 * q3 + 100 * (q2 % 10) + 10 * (q1 % 10) + year % 10;
  }

  lemma DivideByTen(a: nat)
    ensures a == 10 * (a / 10) + a % 10 && 0 <= a % 10 < 10
  {
  }

  lemma DivideTwice(a: nat)
    ensures a / 10 / 10 == a / 100 && a / 100 / 10 == a / 1000
  {
  }

  lemma ParseDateOf(s: string, d: Date)
    requires ValidDate(d) && |s| == 11 && MonthNumber(s[3..6]) == Some(d.month)
    requires 10 * DigitValue(s[0]) + DigitValue(s[1]) == d.day
    requires 1000 * DigitValue(s[7]) + 100 * DigitValue(s[8]) + 10 * DigitValue(s[9]) + DigitValue(s[10]) == d.year
    ensures ParseDate(s) == Some(d)
  {
  }

  // ---------------------------------------------------------------- search criteria

  /** The criteria parts: UNSEEN when asked for, then SINCE "<today>" when asked for. */
  function CriteriaParts(unseenOnly: bool, sinceToday: bool, today: string): seq<string>
  {
    (if unseenOnly then ["UNSEEN"] else []) + (if sinceToday then ["SINCE \"" + today + "\""] else [])
  }

  function Criteria(unseenOnly: bool, sinceToday: bool, today: string): string
  {
    var parts := CriteriaParts(unseenOnly, sinceToday, today);
    if parts != [] then "(" + Join(" ", parts) + ")" else "ALL"
  }

  /** The four criteria strings, one per setting of the two flags. */
  lemma CriteriaCases(unseenOnly: bool, sinceToday: bool, today: string)
    ensures var c := Criteria(unseenOnly, sinceToday, today);
      && (unseenOnly && sinceToday ==> c == "(UNSEEN SINCE \"" + today + "\")")
      && (unseenOnly && !sinceToday ==> c == "(UNSEEN)")
      && (!unseenOnly && sinceToday ==> c == "(SINCE \"" + today + "\")")
      && (!unseenOnly && !sinceToday ==> c == "ALL")
  {
    var since := "SINCE \"" + today + "\"";
    if unseenOnly && sinceToday {
      assert CriteriaParts(unseenOnly, sinceToday, today) == ["UNSEEN", since];
      assert Join(" ", ["UNSEEN", since]) == "UNSEEN" + " " + since;
    } else if unseenOnly {
      assert CriteriaParts(unseenOnly, sinceToday, today) == ["UNSEEN"];
    } else if sinceToday {
      assert CriteriaParts(unseenOnly, sinceToday, today) == [since];
    }
  }

  /** "ALL" is searched exactly when neither flag is set. */
  lemma CriteriaAllOnlyUnfiltered(unseenOnly: bool, sinceToday: bool, today: string)
    ensures Criteria(unseenOnly, sinceToday, today) == "ALL" <==> !unseenOnly && !sinceToday
  {
    CriteriaCases(unseenOnly, sinceToday, today);
  }

  /** The criteria-building steps of `fetch_and_store_emails`. */
  method SearchCriteria(unseenOnly: bool, sinceToday: bool, now: Date) returns (criteria: string)
    requires ValidDate(now)
    ensures criteria == Criteria(unseenOnly, sinceToday, DateText(now))
  {
    var parts: seq<string> := [];
    if unseenOnly {
      parts := parts + ["UNSEEN"];
    }
    if sinceToday {
      var today := DateText(now);
      parts := parts + ["SINCE \"" + today + "\""];
    }
    if parts != [] {
      criteria := "(" + Join(" ", parts) + ")";
    } else {
      criteria := "ALL";
    }
  }

  // ---------------------------------------------------------------- fetching

  /**
   * A part of a `fetch` reply: a (header, message) tuple, whose Subject header
   * decodes to a string or raises (None: the message has no Subject header, or
   * its charset is unknown), or any other part.
   */
  datatype FetchPart = MessagePart(subject: Option<string>) | OtherPart

  /**
   * The mailbox as `fetch_and_store_emails` sees it: `search` gives the id line of
   * an OK reply, or None for any other status; `fetch` gives the parts of a
   * message's reply.
   */
  datatype Mailbox = Mailbox(search: string -> Option<string>, fetch: string -> seq<FetchPart>)

  /**
   * One visit to the inbox: the criteria searched, in order; each stored
   * message with its id and folder, in order; and whether a subject that could
   * not be decoded raised and ended the run.
   */
  datatype Visit = Visit(searches: seq<string>, processed: seq<(string, string)>, aborted: bool)

  /** A message met by the loop: its id and its decoded subject, if any. */
  type Message = (string, Option<string>)

  /** The ids a run goes on to process, after the UNSEEN-only retry. */
  function IdsToProcess(unseenOnly: bool, sinceToday: bool, today: string, mail: Mailbox): seq<string>
  {
    var first := mail.search(Criteria(unseenOnly, sinceToday, today));
    if first.None? then []
    else
      var ids := Split(first.value);
      if ids == [] && sinceToday && unseenOnly then
        var retry := mail.search("UNSEEN");
        if retry.Some? then Split(retry.value) else ids
      else ids
  }

  /** Whether a run searches a second time. */
  predicate Retries(unseenOnly: bool, sinceToday: bool, today: string, mail: Mailbox)
  {
    var first := mail.search(Criteria(unseenOnly, sinceToday, today));
    first.Some? && Split(first.value) == [] && sinceToday && unseenOnly
  }

  /** The messages of one id's reply: its tuple parts, in order; other parts are skipped. */
  function PartMessages(id: string, parts: seq<FetchPart>): seq<Message>
    decreases |parts|
  {
    if parts == [] then []
    else
      var last := parts[|parts| - 1];
      PartMessages(id, parts[..|parts| - 1]) + if last.MessagePart? then [(id, last.subject)] else []
  }

  /** The messages of all ids, in id order and then in reply order. */
  function Messages(ids: seq<string>, mail: Mailbox): seq<Message>
    decreases |ids|
  {
    if ids == [] then []
    else
      var id := ids[|ids| - 1];
      Messages(ids[..|ids| - 1], mail) + PartMessages(id, mail.fetch(id))
  }

  /** One message through the loop body: stored under its subject folder, or the run ends. */
  function StoreStep(r: (seq<(string, string)>, bool), m: Message): (seq<(string, string)>, bool)
  {
    if r.1 then r
    else if m.1.None? then (r.0, true)
    else (r.0 + [(m.0, SubjectFolder(m.1.value))], false)
  }

  /** The messages stored, and whether the run ended early, after visiting `ms` in order. */
  function Store(ms: seq<Message>): (seq<(string, string)>, bool)
    decreases |ms|
  {
    if ms == [] then ([], false) else StoreStep(Store(ms[..|ms| - 1]), ms[|ms| - 1])
  }

  /** `fetch_and_store_emails` as a function of the mailbox. */
  function FetchVisit(unseenOnly: bool, sinceToday: bool, today: string, mail: Mailbox): Visit
  {
    var criteria := Criteria(unseenOnly, sinceToday, today);
    var searches := if Retries(unseenOnly, sinceToday, today, mail) then [criteria, "UNSEEN"] else [criteria];
    var stored := Store(Messages(IdsToProcess(unseenOnly, sinceToday, today, mail), mail));
    Visit(searches, stored.0, stored.1)
  }

  /**
   * The search rules: the retry uses exactly UNSEEN and happens only when the
   * first search succeeded, found nothing and both flags are set; "ALL" is
   * searched only when neither flag is set and is never a fallback; a failed
   * first search processes nothing.
   */
  lemma FetchVisitFacts(unseenOnly: bool, sinceToday: bool, today: string, mail: Mailbox)
    ensures var v := FetchVisit(unseenOnly, sinceToday, today, mail);
      && v.searches[0] == Criteria(unseenOnly, sinceToday, today)
      && (|v.searches| == 2 <==> Retries(unseenOnly, sinceToday, today, mail))
      && (|v.searches| == 2 ==> v.searches[1] == "UNSEEN" && unseenOnly && sinceToday)
      && ("ALL" in v.searches ==> !unseenOnly && !sinceToday && |v.searches| == 1)
      && (mail.search(v.searches[0]).None? ==> v.processed == [] && !v.aborted)
  {
    var v := FetchVisit(unseenOnly, sinceToday, today, mail);
    CriteriaAllOnlyUnfiltered(unseenOnly, sinceToday, today);
    if |v.searches| == 2 {
      assert v.searches[1] == "UNSEEN";
      assert "ALL" != "UNSEEN" by { assert "ALL"[0] != "UNSEEN"[0]; }
    }
  }

  /**
   * The stored messages are the longest prefix of the messages whose subjects
   * decode, each under its subject folder; the run ends early exactly when a
   * message follows that prefix, and that message's subject did not decode.
   */
  lemma {:induction false} StoreFacts(ms: seq<Message>)
    ensures var r := Store(ms);
      && |r.0| <= |ms|
      && (forall k :: 0 <= k < |r.0| ==> ms[k].1.Some? && r.0[k] == (ms[k].0, SubjectFolder(ms[k].1.value)))
      && (r.1 <==> |r.0| < |ms|)
      && (r.1 ==> ms[|r.0|].1.None?)
    decreases |ms|
  {
    if ms != [] {
      var init := ms[..|ms| - 1];
      StoreFacts(init);
      assert forall k :: 0 <= k < |init| ==> init[k] == ms[k];
    }
  }

  /** Once the run has ended, later messages change nothing. */
  lemma {:induction false} StoreAbortedStays(ms: seq<Message>, rest: seq<Message>)
    requires Store(ms).1
    ensures Store(ms + rest) == Store(ms)
    decreases |rest|
  {
    if rest == [] {
      assert ms + rest == ms;
    } else {
      var init := rest[..|rest| - 1];
      StoreAbortedStays(ms, init);
      assert (ms + rest)[..|ms + rest| - 1] == ms + init;
    }
  }

  /** The messages of a reply split with the reply. */
  lemma {:induction false} PartMessagesAppend(id: string, p: seq<FetchPart>, q: seq<FetchPart>)
    ensures PartMessages(id, p + q) == PartMessages(id, p) + PartMessages(id, q)
    decreases |q|
  {
    if q == [] {
      assert p + q == p;
    } else {
      PartMessagesAppend(id, p, q[..|q| - 1]);
      assert (p + q)[..|p + q| - 1] == p + q[..|q| - 1];
    }
  }

  /** The messages of a list of ids split with the list. */
  lemma {:induction false} MessagesAppend(a: seq<string>, b: seq<string>, mail: Mailbox)
    ensures Messages(a + b, mail) == Messages(a, mail) + Messages(b, mail)
    decreases |b|
  {
    if b == [] {
      assert a + b == a;
    } else {
      MessagesAppend(a, b[..|b| - 1], mail);
      assert (a + b)[..|a + b| - 1] == a + b[..|b| - 1];
    }
  }

  /** Every message the loop meets comes from a tuple part of its own id's reply. */
  lemma {:induction false} MessagesFromTupleParts(ids: seq<string>, mail: Mailbox)
    ensures forall m :: m in Messages(ids, mail) ==> m.0 in ids && MessagePart(m.1) in mail.fetch(m.0)
    decreases |ids|
  {
    if ids != [] {
      var init := ids[..|ids| - 1];
      var id := ids[|ids| - 1];
      MessagesFromTupleParts(init, mail);
      PartMessagesFromTupleParts(id, mail.fetch(id));
      assert forall x :: x in init ==> x in ids;
    }
  }

  lemma {:induction false} PartMessagesFromTupleParts(id: string, parts: seq<FetchPart>)
    ensures forall m :: m in PartMessages(id, parts) ==> m.0 == id && MessagePart(m.1) in parts
    decreases |parts|
  {
    if parts != [] {
      var init := parts[..|parts| - 1];
      PartMessagesFromTupleParts(id, init);
      assert forall x :: x in init ==> x in parts;
    }
  }

  /** A reply without tuple parts has no messages. */
  lemma {:induction false} NoTupleNoMessages(id: string, parts: seq<FetchPart>)
    requires forall p :: p in parts ==> p.OtherPart?
    ensures PartMessages(id, parts) == []
    decreases |parts|
  {
    if parts != [] {
      var init := parts[..|parts| - 1];
      assert forall p :: p in init ==> p in parts;
      assert parts[|parts| - 1] in parts;
      NoTupleNoMessages(id, init);
    }
  }

  /** The messages of the ids before `k`, of id `k` and of the ids after it. */
  lemma MessagesSplit(ids: seq<string>, mail: Mailbox, k: nat)
    requires k < |ids|
    ensures Messages(ids, mail) ==
      Messages(ids[..k], mail) + PartMessages(ids[k], mail.fetch(ids[k])) + Messages(ids[k + 1..], mail)
  {
    assert ids == (ids[..k] + [ids[k]]) + ids[k + 1..];
    MessagesAppend(ids[..k] + [ids[k]], ids[k + 1..], mail);
    MessagesAppend(ids[..k], [ids[k]], mail);
    assert [ids[k]][..0] == [];
  }

  /** The messages of the parts before `j`, of part `j` and of the parts after it. */
  lemma PartMessagesSplit(id: string, parts: seq<FetchPart>, j: nat)
    requires j < |parts|
    ensures PartMessages(id, parts) ==
      PartMessages(id, parts[..j]) + PartMessages(id, [parts[j]]) + PartMessages(id, parts[j + 1..])
  {
    assert parts == (parts[..j] + [parts[j]]) + parts[j + 1..];
    PartMessagesAppend(id, parts[..j] + [parts[j]], parts[j + 1..]);
    PartMessagesAppend(id, parts[..j], [parts[j]]);
  }

  /** One part's messages: itself when it is a tuple, nothing otherwise. */
  lemma OnePart(id: string, p: FetchPart)
    ensures PartMessages(id, [p]) == if p.MessagePart? then [(id, p.subject)] else []
  {
    assert [p][..0] == [];
  }

  /** An id whose reply has no tuple part is skipped: nothing is stored for it and the run goes on. */
  lemma IdWithoutTupleSkipped(ids: seq<string>, mail: Mailbox, k: nat)
    requires k < |ids|
    requires forall p :: p in mail.fetch(ids[k]) ==> p.OtherPart?
    ensures Messages(ids, mail) == Messages(ids[..k], mail) + Messages(ids[k + 1..], mail)
  {
    NoTupleNoMessages(ids[k], mail.fetch(ids[k]));
    MessagesSplit(ids, mail, k);
  }

  /** Storing one more message is one more step. */
  lemma StoreSnoc(ms: seq<Message>, m: Message)
    ensures Store(ms + [m]) == StoreStep(Store(ms), m)
  {
    assert (ms + [m])[..|ms|] == ms;
  }

  /**
   * The run stores, in id order, the messages before the first one whose
   * subject does not decode, each under a non-empty, already clean folder
   * named by its subject; it ends early exactly when such a message exists.
   */
  lemma FetchVisitFolders(unseenOnly: bool, sinceToday: bool, today: string, mail: Mailbox)
    ensures var v := FetchVisit(unseenOnly, sinceToday, today, mail);
      var ms := Messages(IdsToProcess(unseenOnly, sinceToday, today, mail), mail);
      && |v.processed| <= |ms|
      && (forall k :: 0 <= k < |v.processed| ==>
            ms[k].1.Some? && v.processed[k] == (ms[k].0, SubjectFolder(ms[k].1.value))
            && v.processed[k].1 != [] && CleanFilename(v.processed[k].1) == v.processed[k].1)
      && (v.aborted <==> exists k :: 0 <= k < |ms| && ms[k].1.None?)
      && (v.aborted ==> ms[|v.processed|].1.None?)
  {
    var v := FetchVisit(unseenOnly, sinceToday, today, mail);
    var ms := Messages(IdsToProcess(unseenOnly, sinceToday, today, mail), mail);
    StoreFacts(ms);
    forall k | 0 <= k < |v.processed| {
      SubjectFolderIsClean(ms[k].1.value);
    }
  }

  /** `fetch_and_store_emails`, step by step: search, retry with UNSEEN, then visit each message. */
  method FetchAndStoreEmails(unseenOnly: bool, sinceToday: bool, now: Date, mail: Mailbox) returns (v: Visit)
    requires ValidDate(now)
    ensures v == FetchVisit(unseenOnly, sinceToday, DateText(now), mail)
  {
    var searches, emailIds := SearchMailbox(unseenOnly, sinceToday, now, mail);
    if |emailIds| == 0 {
      return Visit(searches, [], false);
    }
    var processed, aborted := ProcessEmails(emailIds, mail);
    v := Visit(searches, processed, aborted);
  }

  /**
   * The per-message loop of `fetch_and_store_emails`: every tuple part of every
   * id's reply is stored under its subject folder, in order, until a subject
   * that does not decode raises and ends the run.
   */
  method ProcessEmails(emailIds: seq<string>, mail: Mailbox) returns (processed: seq<(string, string)>, aborted: bool)
    ensures (processed, aborted) == Store(Messages(emailIds, mail))
  {
    processed, aborted := [], false;
    for k := 0 to |emailIds|
      invariant (processed, false) == Store(Messages(emailIds[..k], mail))
    {
      MessagesStep(emailIds, mail, k);
      processed, aborted := StoreReply(emailIds[k], mail.fetch(emailIds[k]), Messages(emailIds[..k], mail), processed);
      if aborted {
        AbortSkipsLaterIds(emailIds, mail, k);
        return;
      }
    }
    assert emailIds[..|emailIds|] == emailIds;
  }

  /** The loop over the parts of one id's reply, after the messages `before` stored `stored`. */
  method StoreReply(eid: string, msgData: seq<FetchPart>, ghost before: seq<Message>, stored: seq<(string, string)>)
    returns (processed: seq<(string, string)>, aborted: bool)
    requires Store(before) == (stored, false)
    ensures (processed, aborted) == Store(before + PartMessages(eid, msgData))
  {
    processed, aborted := stored, false;
    assert before + PartMessages(eid, msgData[..0]) == before;
    for j := 0 to |msgData|
      invariant (processed, false) == Store(before + PartMessages(eid, msgData[..j]))
    {
      PartsStep(eid, msgData, j);
      if msgData[j].MessagePart? {
        var subject := msgData[j].subject;
        StoreSnoc(before + PartMessages(eid, msgData[..j]), (eid, subject));
        if subject.None? {
          aborted := true;
          AbortSkipsLaterParts(eid, msgData, before, j);
          return;
        }
        assert before + PartMessages(eid, msgData[..j + 1]) == (before + PartMessages(eid, msgData[..j])) + [(eid, subject)];
        processed := processed + [(eid, SubjectFolder(subject.value))];
      } else {
        assert before + PartMessages(eid, msgData[..j + 1]) == before + PartMessages(eid, msgData[..j]);
      }
    }
    assert msgData[..|msgData|] == msgData;
  }

  /** A subject that does not decode in part `j` ends the run: the later parts store nothing. */
  lemma AbortSkipsLaterParts(eid: string, parts: seq<FetchPart>, before: seq<Message>, j: nat)
    requires j < |parts| && parts[j] == MessagePart(None)
    requires !Store(before + PartMessages(eid, parts[..j])).1
    ensures Store(before + PartMessages(eid, parts)) == (Store(before + PartMessages(eid, parts[..j])).0, true)
  {
    var earlier, later := PartMessages(eid, parts[..j]), PartMessages(eid, parts[j + 1..]);
    AroundPart(eid, parts, before, j);
    StoreAbortAt(before + earlier, (eid, None), later);
  }

  /** The messages after `before` and a reply, around the reply's tuple part `j`. */
  lemma AroundPart(eid: string, parts: seq<FetchPart>, before: seq<Message>, j: nat)
    requires j < |parts| && parts[j].MessagePart?
    ensures before + PartMessages(eid, parts) ==
      (before + PartMessages(eid, parts[..j])) + [(eid, parts[j].subject)] + PartMessages(eid, parts[j + 1..])
  {
    var earlier, later := PartMessages(eid, parts[..j]), PartMessages(eid, parts[j + 1..]);
    PartMessagesSplit(eid, parts, j);
    OnePart(eid, parts[j]);
    assert before + (earlier + [(eid, parts[j].subject)] + later) == (before + earlier) + [(eid, parts[j].subject)] + later;
  }

  /** A run that ended within id `k` stores nothing for the later ids. */
  lemma AbortSkipsLaterIds(ids: seq<string>, mail: Mailbox, k: nat)
    requires k < |ids| && Store(Messages(ids[..k + 1], mail)).1
    ensures Store(Messages(ids, mail)) == Store(Messages(ids[..k + 1], mail))
  {
    var done, later := ids[..k + 1], ids[k + 1..];
    MessagesAppend(done, later, mail);
    assert done + later == ids;
    StoreAbortedStays(Messages(done, mail), Messages(later, mail));
  }

  lemma PartsStep(id: string, parts: seq<FetchPart>, j: nat)
    requires j < |parts|
    ensures PartMessages(id, parts[..j + 1]) ==
      PartMessages(id, parts[..j]) + if parts[j].MessagePart? then [(id, parts[j].subject)] else []
  {
    assert parts[..j + 1][..j] == parts[..j];
  }

  lemma MessagesStep(ids: seq<string>, mail: Mailbox, k: nat)
    requires k < |ids|
    ensures Messages(ids[..k + 1], mail) == Messages(ids[..k], mail) + PartMessages(ids[k], mail.fetch(ids[k]))
  {
    assert ids[..k + 1][..k] == ids[..k];
    assert mail.fetch(ids[k])[..|mail.fetch(ids[k])|] == mail.fetch(ids[k]);
  }

  /** A message whose subject does not decode ends the run with what was stored before it. */
  lemma StoreAbortAt(before: seq<Message>, m: Message, after: seq<Message>)
    requires m.1.None? && !Store(before).1
    ensures Store(before + [m] + after) == (Store(before).0, true)
  {
    StoreSnoc(before, m);
    StoreAbortedStays(before + [m], after);
  }

  /**
   * The search part of `fetch_and_store_emails`: the criteria searched and the
   * ids found; a failed first search finds no ids.
   */
  method SearchMailbox(unseenOnly: bool, sinceToday: bool, now: Date, mail: Mailbox)
    returns (searches: seq<string>, emailIds: seq<string>)
    requires ValidDate(now)
    ensures var today := DateText(now);
      searches == if Retries(unseenOnly, sinceToday, today, mail)
        then [Criteria(unseenOnly, sinceToday, today), "UNSEEN"] else [Criteria(unseenOnly, sinceToday, today)]
    ensures emailIds == IdsToProcess(unseenOnly, sinceToday, DateText(now), mail)
  {
    var searchCriteria := SearchCriteria(unseenOnly, sinceToday, now);
    searches := [searchCriteria];
    var messages := mail.search(searchCriteria);
    if messages.None? {
      return searches, [];
    }
    emailIds := Split(messages.value);
    if |emailIds| == 0 && sinceToday && unseenOnly {
      searchCriteria := "UNSEEN";
      searches := searches + [searchCriteria];
      messages := mail.search(searchCriteria);
      if messages.Some? {
        emailIds := Split(messages.value);
      }
    }
  }

  // ---------------------------------------------------------------- cleanup

  /** An entry of the download directory: a folder with its modification time, or anything else. */
  datatype Entry = Folder(mtime: real) | Other

  /** `now - days_old * 86400`. */
  function Cutoff(now: real, daysOld: int): real
  {
    now - (daysOld * 86400) as real
  }

  predicate Expired(e: Entry, cutoff: real) { e.Folder? && e.mtime < cutoff }

  /** The entries left once every expired folder is removed. */
  function Surviving(entries: map<string, Entry>, cutoff: real): (r: map<string, Entry>)
    ensures forall n :: n in r <==> n in entries && !Expired(entries[n], cutoff)
    ensures forall n :: n in r ==> r[n] == entries[n]
  {
    map n | n in entries && !Expired(entries[n], cutoff) :: entries[n]
  }

  /** A second cleanup with the same cutoff removes nothing more. */
  lemma SurvivingIdempotent(entries: map<string, Entry>, cutoff: real)
    ensures Surviving(Surviving(entries, cutoff), cutoff) == Surviving(entries, cutoff)
  {
  }

  /** A later cutoff removes everything an earlier one does, and possibly more. */
  lemma LaterCutoffRemovesMore(entries: map<string, Entry>, earlier: real, later: real)
    requires earlier <= later
    ensures Surviving(entries, later).Keys <= Surviving(entries, earlier).Keys
  {
  }

  /** The download directory, whose entries `cleanup_old_files` removes. */
  class Downloads {
    var entries: map<string, Entry>

    constructor(initial: map<string, Entry>)
      ensures entries == initial
    {
      entries := initial;
    }

    /** `cleanup_old_files`: removes, in any listing order, every folder last modified before the cutoff. */
    method CleanupOldFiles(daysOld: int, now: real)
      modifies this
      ensures entries == Surviving(old(entries), Cutoff(now, daysOld))
    {
      var cutoff := Cutoff(now, daysOld);
      var listing := entries.Keys;
      while listing != {}
        invariant listing <= old(entries).Keys
        invariant entries == map n | n in old(entries) && (n in listing || !Expired(old(entries)[n], cutoff)) :: old(entries)[n]
        decreases listing
      {
        var folder :| folder in listing;
        if entries[folder].Folder? && entries[folder].mtime < cutoff {
          entries := entries - {folder};
        }
        listing := listing - {folder};
      }
    }
  }
}
