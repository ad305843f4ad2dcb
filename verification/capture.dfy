/**
 The capture pipeline: the emails session handlers commit, handed to the
 shared store one `AddEmail` at a time. However the handlers of concurrent
 connections interleave, the store sees one sequence of such emails.
 */
module Capture {
  import opened Ascii
  import opened Decimal
  import opened MailStore
  import opened DataParser
  import opened Smtp

  /** Adds `mails` to the store in order, keeping the earlier emails. */
  function Deliver(s: Store, mails: seq<Email>, now: Time): (r: Store)
    decreases |mails|
    ensures |r.emails| == |s.emails| + |mails|
    ensures r.emails[..|s.emails|] == s.emails
  {
    if mails == [] then s
    else
      var next := Add(s, mails[0], now);
      var r := Deliver(next, mails[1..], now);
      assert r.emails[..|s.emails|] == r.emails[..|next.emails|][..|s.emails|];
      r
  }

  /**
   Each delivered email follows the earlier ones in turn, unchanged except
   that the store may number and stamp it.
   */
  lemma {:induction false} DeliverKeepsContents(s: Store, mails: seq<Email>, now: Time)
    decreases |mails|
    ensures var r := Deliver(s, mails, now);
      forall k :: 0 <= k < |mails| ==>
        r.emails[|s.emails| + k].(id := mails[k].id, timestamp := mails[k].timestamp) == mails[k]
  {
    if mails != [] {
      var next := Add(s, mails[0], now);
      var r := Deliver(next, mails[1..], now);
      DeliverKeepsContents(next, mails[1..], now);
      assert r == Deliver(s, mails, now);
      assert r.emails[|s.emails|] == r.emails[..|next.emails|][|s.emails|];
      assert forall k :: 1 <= k < |mails| ==>
        r.emails[|s.emails| + k] == r.emails[|next.emails| + (k - 1)] && mails[k] == mails[1..][k - 1];
    }
  }

  /** Emails without ids keep the store well numbered, so stored ids stay unique. */
  lemma {:induction false} DeliverKeepsWellNumbered(s: Store, mails: seq<Email>, now: Time)
    requires WellNumbered(s)
    requires forall k :: 0 <= k < |mails| ==> mails[k].id == ""
    decreases |mails|
    ensures WellNumbered(Deliver(s, mails, now))
    ensures IdsUnique(Deliver(s, mails, now))
    ensures Deliver(s, mails, now).counter == s.counter + |mails|
  {
    if mails == [] {
      WellNumberedIdsUnique(s);
    } else {
      AddKeepsWellNumbered(s, mails[0], now);
      DeliverKeepsWellNumbered(Add(s, mails[0], now), mails[1..], now);
    }
  }

  /**
   Whatever a connection sends, the emails it commits land in a
   well-numbered store with ids distinct from each other and from every
   email already there.
   */
  lemma CapturedIdsUnique(s: Store, lines: seq<string>, clock: Clock, now: Time)
    requires WellNumbered(s)
    ensures WellNumbered(Deliver(s, HandleConnection(lines, clock).committed, now))
    ensures IdsUnique(Deliver(s, HandleConnection(lines, clock).committed, now))
  {
    SessionNeverSetsIds(lines, clock);
    DeliverKeepsWellNumbered(s, HandleConnection(lines, clock).committed, now);
  }

  /** A fresh store gives the first captured email the id "1" and stamps it only if it has no time. */
  lemma FreshStoreNumbersFromOne(e: Email, now: Time)
    requires e.id == ""
    ensures Deliver(NewStore(), [e], now).emails
      == [e.(id := "1", timestamp := if e.timestamp == 0 then now else e.timestamp)]
  {
    assert FormatId(1) == "1";
    assert Deliver(NewStore(), [e], now) == Deliver(Add(NewStore(), e, now), [], now);
  }

  /** `RSET` mid-transaction: a following empty DATA phase commits an email with no sender or recipients. */
  lemma ResetThenEmptyData(c: Session, lines: seq<string>, clock: Clock)
    requires c.phase == Idle
    requires lines == ["RSET", "DATA", "."]
    ensures Feed(c, lines, clock).committed
      == c.committed + [Email("", "", [], "", "", false, clock(|c.committed|))]
  {
    KeywordIsUpper("RSET");
    ResetEmptiesTransaction(c, "RSET", clock);
    var r := Step(c, "RSET", clock);
    assert lines == ["RSET"] + ["DATA", "."];
    FeedAppend(c, ["RSET"], ["DATA", "."], clock);
    FeedSingle(c, "RSET", clock);
    EmptyDataPhase(r, clock);
  }

  /** An empty DATA phase on an empty transaction commits an email with every field empty. */
  lemma EmptyDataPhase(c: Session, clock: Clock)
    requires c.phase == Idle && c.tx == EmptyTransaction
    ensures Feed(c, ["DATA", "."], clock).committed
      == c.committed + [Email("", "", [], "", "", false, clock(|c.committed|))]
  {
    KeywordIsUpper("DATA");
    var empty: seq<string> := [];
    assert ["DATA", "."] == ["DATA"] + empty + ["."];
    DataPhaseCommitsOne(c, "DATA", empty, clock);
    assert Unstuffed(empty) == "";
    LacksFirstCharNotContained("", Separator);
    NoBlankLineAllBody("");
  }

  lemma ExampleLinesSplit()
    ensures "MAIL FROM:<a@x>" == MailFrom + "<a@x>"
    ensures "RCPT TO:<b@y>" == RcptTo + "<b@y>"
  {
  }

  /** `MAIL FROM:<a@x>` in the idle phase records the sender `<a@x>`. */
  lemma ExampleSender(c: Session, line: string, clock: Clock)
    requires c.phase == Idle
    requires line == "MAIL FROM:<a@x>"
    ensures Step(c, line, clock) == c.(tx := c.tx.(sender := "<a@x>"), replies := c.replies + [SenderOk])
  {
    ExampleLinesSplit();
    MailFromArgument(c, "<a@x>", clock);
    TrimSpaceKeepsUnpadded("<a@x>");
  }

  /** `RCPT TO:<b@y>` in the idle phase appends the recipient `<b@y>`. */
  lemma ExampleRecipient(c: Session, line: string, clock: Clock)
    requires c.phase == Idle
    requires line == "RCPT TO:<b@y>"
    ensures Step(c, line, clock)
      == c.(tx := c.tx.(recipients := c.tx.recipients + ["<b@y>"]), replies := c.replies + [RecipientOk])
  {
    ExampleLinesSplit();
    RcptToArgument(c, "<b@y>", clock);
    TrimSpaceKeepsUnpadded("<b@y>");
  }

  /** The envelope of the round trip: `MAIL FROM:<a@x>` then `RCPT TO:<b@y>`. */
  lemma ExampleEnvelope(c0: Session, l0: string, l1: string, clock: Clock)
    requires c0 == Open()
    requires l0 == "MAIL FROM:<a@x>" && l1 == "RCPT TO:<b@y>"
    ensures Feed(c0, [l0, l1], clock)
      == Session(Idle, Transaction("<a@x>", ["<b@y>"], ""), [Greeting, SenderOk, RecipientOk], [])
  {
    ExampleSender(c0, l0, clock);
    ExampleRecipient(Step(c0, l0, clock), l1, clock);
    FeedPair(c0, l0, l1, clock);
  }

  /** `Subject: Hi` is one header line: it holds no line break. */
  lemma ExampleHeaderIsOneLine(h: string)
    requires h == "Subject: Hi"
    ensures Split(h, Crlf) == [h]
  {
    LacksFirstCharNotContained(h, Crlf);
    assert Join(Split(h, Crlf), Crlf) == h;
  }

  /** `Subject: Hi` is a subject line with value `Hi` that does not announce HTML. */
  lemma ExampleSubjectLine(h: string)
    requires h == "Subject: Hi"
    ensures IsSubjectLine(h) && SubjectValue(h) == "Hi" && !MentionsHtml(h)
  {
    assert forall i :: 0 <= i < |SubjectKey| ==> LowerChar(h[i]) == SubjectKey[i];
    ToLowerHasPrefix(h, SubjectKey);
    assert SubjectValue(h) == "Hi" by {
      assert h[|SubjectKey|..] == " Hi";
      assert TrimLeft(" Hi") == TrimLeft("Hi");
      TrimSpaceKeepsUnpadded("Hi");
    }
    assert !MentionsHtml(h) by {
      assert |ToLower(h)| < |HtmlMarker|;
    }
  }

  /** The header block `Subject: Hi` yields the subject `Hi` and no HTML flag. */
  lemma ExampleHeader(h: string)
    requires h == "Subject: Hi"
    ensures ScanHeaders(Split(h, Crlf), "", false) == HeaderFields("Hi", false)
  {
    ExampleHeaderIsOneLine(h);
    ExampleSubjectLine(h);
    var headerLines := [h];
    assert LastSubjectAt(headerLines, 0);
    LastSubjectWins(headerLines, "", false, 0);
  }

  /** None of the example's message lines is the lone terminating dot. */
  lemma ExampleDataHasNoDot(h: string, blank: string, hello: string)
    requires h == "Subject: Hi" && blank == "" && hello == "hello"
    ensures forall k :: 0 <= k < 3 ==> [h, blank, hello][k] != "."
  {
    assert h[0] != '.' && |blank| != 1 && hello[0] != '.';
  }

  lemma ExampleData(h: string, blank: string, hello: string)
    requires h == "Subject: Hi" && blank == "" && hello == "hello"
    ensures ParseData(Unstuffed([h, blank, hello])) == Content("Hi", false, "hello\r\n")
  {
    var b := "hello\r\n";
    var data := [h, blank, hello];
    assert Unstuffed(data) == h + Separator + b by {
      assert h[0] == 'S' && hello[0] == 'h';
      assert !HasPrefix(h, ".") && !HasPrefix(hello, ".");
      assert data[1..] == [blank, hello] && data[1..][1..] == [hello] && data[1..][1..][1..] == [];
      assert Unstuffed([hello]) == hello + Crlf;
      assert Unstuffed([blank, hello]) == blank + Crlf + hello + Crlf;
    }
    LacksFirstCharNotContained(h, Separator);
    BodyFollowsBlankLine(h, b);
    ExampleHeader(h);
  }

  /**
   The round trip of a complete conversation: `MAIL FROM:<a@x>`,
   `RCPT TO:<b@y>`, `DATA`, `Subject: Hi`, an empty line, `hello`, `.`,
   `QUIT` commits exactly one email, which a fresh store numbers "1".
   */
  lemma ConversationRoundTrip(lines: seq<string>, clock: Clock, now: Time)
    requires |lines| == 8
    requires lines[0] == "MAIL FROM:<a@x>" && lines[1] == "RCPT TO:<b@y>" && lines[2] == "DATA"
    requires lines[3] == "Subject: Hi" && lines[4] == "" && lines[5] == "hello"
    requires lines[6] == "." && lines[7] == "QUIT"
    ensures HandleConnection(lines, clock).committed
      == [Email("", "<a@x>", ["<b@y>"], "Hi", "hello\r\n", false, clock(0))]
    ensures Deliver(NewStore(), HandleConnection(lines, clock).committed, now).emails
      == [Email("1", "<a@x>", ["<b@y>"], "Hi", "hello\r\n", false, if clock(0) == 0 then now else clock(0))]
  {
    var envelope := [lines[0], lines[1]];
    var data := [lines[3], lines[4], lines[5]];
    var phase := ["DATA"] + data + ["."];
    assert lines == envelope + phase + ["QUIT"];
    var c0 := Open();
    assert HandleConnection(lines, clock) == EndOfInput(Feed(c0, lines, clock), clock);
    FeedAppend(c0, envelope + phase, ["QUIT"], clock);
    FeedAppend(c0, envelope, phase, clock);
    ExampleEnvelope(c0, lines[0], lines[1], clock);
    var c2 := Feed(c0, envelope, clock);
    ExampleDataHasNoDot(lines[3], lines[4], lines[5]);
    ExampleData(lines[3], lines[4], lines[5]);
    KeywordIsUpper("DATA");
    DataPhaseCommitsOne(c2, "DATA", data, clock);
    var c3 := Feed(c2, phase, clock);
    assert c3.committed == [Email("", "<a@x>", ["<b@y>"], "Hi", "hello\r\n", false, clock(0))];
    KeywordIsUpper("QUIT");
    QuitEndsSession(c3, "QUIT", [], clock);
    FeedSingle(c3, "QUIT", clock);
    FreshStoreNumbersFromOne(HandleConnection(lines, clock).committed[0], now);
  }
}
