/**
 One connection of the SMTP-subset capture server (`handleConnection` in
 server/smtp.go), as a pure function from the lines the peer sends (already
 split, line terminators removed) to the replies written back and the emails
 handed to the store, in order.
 */
module Smtp {
  import opened Ascii
  import opened MailStore
  import opened DataParser

  const Greeting := "220 localhost SMTP server ready\r\n"
  const SenderOk := "250 Sender OK\r\n"
  const RecipientOk := "250 Recipient OK\r\n"
  const StartInput := "354 Start mail input; end with <CRLF>.<CRLF>\r\n"
  const Accepted := "250 Mail accepted\r\n"
  const Bye := "221 Bye\r\n"
  const Hello := "250 Hello\r\n"
  const Ok := "250 OK\r\n"
  const Unknown := "500 Unknown command\r\n"

  const MailFrom := "MAIL FROM:"
  const RcptTo := "RCPT TO:"

  /** `Closed` is the handler having returned after `QUIT`. */
  datatype Phase = Idle | InData | Closed

  /** The pending transaction: sender, recipients and the DATA buffer. */
  datatype Transaction = Transaction(sender: string, recipients: seq<string>, data: string)

  const EmptyTransaction := Transaction("", [], "")

  /** Everything one handler has done so far. */
  datatype Session = Session(phase: Phase, tx: Transaction, replies: seq<string>, committed: seq<Email>)

  /**
   The time `time.Now()` reports when the handler commits its `k`-th email
   (counting from 0).
   */
  type Clock = nat -> Time

  /** A freshly accepted connection: the greeting is its only reply, and nothing is pending or committed. */
  function Open(): (c: Session)
    ensures c.phase == Idle && c.tx == EmptyTransaction
    ensures c.replies == [Greeting] && c.committed == []
  {
    Session(Idle, EmptyTransaction, [Greeting], [])
  }

  /** SMTP dot-unstuffing: at most one leading `.` is removed. */
  function Unstuff(line: string): (r: string)
    ensures HasPrefix(line, ".") ==> "." + r == line
    ensures !HasPrefix(line, ".") ==> r == line
  {
    if HasPrefix(line, ".") then line[1..] else line
  }

  /** The DATA buffer built from data lines: each unstuffed line followed by CRLF. */
  function Unstuffed(lines: seq<string>): string
    decreases |lines|
  {
    if lines == [] then "" else Unstuff(lines[0]) + Crlf + Unstuffed(lines[1..])
  }

  /** The email a finished DATA phase hands to the store. */
  function Captured(tx: Transaction, when: Time): (e: Email)
    ensures e.id == "" && e.sender == tx.sender && e.recipients == tx.recipients
    ensures e.timestamp == when
  {
    var p := ParseData(tx.data);
    Email("", tx.sender, tx.recipients, p.subject, p.body, p.html, when)
  }

  /**
   End of the DATA phase: one 250 reply, one more committed email carrying
   the pending envelope, the parsed buffer and the clock's time for it, and
   an empty transaction.
   */
  function Finish(c: Session, clock: Clock): (r: Session)
    ensures r.phase == Idle && r.tx == EmptyTransaction
    ensures r.replies == c.replies + [Accepted]
    ensures |r.committed| == |c.committed| + 1 && r.committed[..|c.committed|] == c.committed
    ensures var e := r.committed[|c.committed|]; var p := ParseData(c.tx.data);
      && e.id == "" && e.sender == c.tx.sender && e.recipients == c.tx.recipients
      && e.subject == p.subject && e.body == p.body && e.html == p.html
      && e.timestamp == clock(|c.committed|)
  {
    Session(Idle, EmptyTransaction, c.replies + [Accepted],
            c.committed + [Captured(c.tx, clock(|c.committed|))])
  }

  /** The branch of the command dispatch a line of the idle phase takes. */
  datatype Command = MailCmd | RcptCmd | DataCmd | QuitCmd | HelloCmd | ResetCmd | NoopCmd | UnknownCmd

  /**
   Command recognition on the upper-cased line: `MAIL FROM:` and `RCPT TO:`
   are prefixes, every other keyword must be the whole line.
   */
  function Classify(line: string): (r: Command)
    ensures r == MailCmd <==> HasPrefix(ToUpper(line), MailFrom)
    ensures r == RcptCmd <==> HasPrefix(ToUpper(line), RcptTo)
    ensures r == DataCmd <==> ToUpper(line) == "DATA"
    ensures r == QuitCmd <==> ToUpper(line) == "QUIT"
    ensures r == HelloCmd <==> ToUpper(line) == "HELO" || ToUpper(line) == "EHLO"
    ensures r == ResetCmd <==> ToUpper(line) == "RSET"
    ensures r == NoopCmd <==> ToUpper(line) == "NOOP"
  {
    var cmd := ToUpper(line);
    assert MailFrom[0] != RcptTo[0] && 4 < |RcptTo| < |MailFrom|;
    if HasPrefix(cmd, MailFrom) then MailCmd
    else if HasPrefix(cmd, RcptTo) then RcptCmd
    else if cmd == "DATA" then DataCmd
    else if cmd == "QUIT" then QuitCmd
    else if cmd == "HELO" || cmd == "EHLO" then HelloCmd
    else if cmd == "RSET" then ResetCmd
    else if cmd == "NOOP" then NoopCmd
    else UnknownCmd
  }

  /**
   Runs the recognised command; arguments are cut from the line in its own
   case. Every idle line gets exactly one reply and commits nothing; only
   `DATA` and `QUIT` change the phase, and only `RSET` touches the buffer.
   */
  function Dispatch(c: Session, line: string): (r: Session)
    ensures r.committed == c.committed
    ensures |r.replies| == |c.replies| + 1 && r.replies[..|c.replies|] == c.replies
    ensures r.phase == (if Classify(line) == DataCmd then InData
                        else if Classify(line) == QuitCmd then Closed
                        else c.phase)
    ensures r.tx.data == (if Classify(line) == ResetCmd then "" else c.tx.data)
  {
    match Classify(line)
    case MailCmd =>
      c.(tx := c.tx.(sender := TrimSpace(TrimPrefix(line, MailFrom))), replies := c.replies + [SenderOk])
    case RcptCmd =>
      c.(tx := c.tx.(recipients := c.tx.recipients + [TrimSpace(TrimPrefix(line, RcptTo))]),
         replies := c.replies + [RecipientOk])
    case DataCmd => c.(phase := InData, replies := c.replies + [StartInput])
    case QuitCmd => c.(phase := Closed, replies := c.replies + [Bye])
    case HelloCmd => c.(replies := c.replies + [Hello])
    case ResetCmd => c.(tx := EmptyTransaction, replies := c.replies + [Ok])
    case NoopCmd => c.(replies := c.replies + [Ok])
    case UnknownCmd => c.(replies := c.replies + [Unknown])
  }

  /** A keyword in any mix of cases is recognised as that keyword. */
  lemma ClassifyKeyword(line: string)
    requires ToUpper(line) in ["DATA", "QUIT", "RSET", "HELO", "EHLO", "NOOP"]
    ensures Classify(line) == (match ToUpper(line)
      case "DATA" => DataCmd
      case "QUIT" => QuitCmd
      case "RSET" => ResetCmd
      case "NOOP" => NoopCmd
      case _ => HelloCmd)
  {
  }

  /** The keywords as written in the dispatch are their own upper-case form. */
  lemma KeywordIsUpper(line: string)
    requires line in ["DATA", "QUIT", "RSET", "HELO", "EHLO", "NOOP"]
    ensures ToUpper(line) == line
  {
    assert forall i :: 0 <= i < |line| ==> 'A' <= line[i] <= 'Z';
    ToUpperKeepsUpper(line);
  }

  /**
   One line read from the connection. Replies and committed emails are only
   ever appended to, at most one of each per line, and a committed email
   leaves the session idle with an empty transaction.
   */
  function Step(c: Session, line: string, clock: Clock): (r: Session)
    ensures c.phase == Closed ==> r == c
    ensures |c.replies| <= |r.replies| <= |c.replies| + 1 && r.replies[..|c.replies|] == c.replies
    ensures |c.committed| <= |r.committed| <= |c.committed| + 1 && r.committed[..|c.committed|] == c.committed
    ensures |r.committed| > |c.committed| ==>
      r.committed[|c.committed|].id == "" && r.phase == Idle && r.tx == EmptyTransaction
  {
    match c.phase
    case Closed => c
    case InData =>
      if line == "." then Finish(c, clock)
      else c.(tx := c.tx.(data := c.tx.data + Unstuff(line) + Crlf))
    case Idle => Dispatch(c, line)
  }

  /** Reads `lines` one after the other. */
  function Feed(c: Session, lines: seq<string>, clock: Clock): Session
    decreases |lines|
  {
    if lines == [] then c else Feed(Step(c, lines[0], clock), lines[1..], clock)
  }

  /**
   Input ran out: a DATA phase in progress is still accepted and committed,
   and otherwise nothing happens. No DATA phase is left open.
   */
  function EndOfInput(c: Session, clock: Clock): (r: Session)
    ensures r.phase != InData
    ensures c.phase != InData ==> r == c
    ensures c.phase == InData ==>
      r.replies == c.replies + [Accepted] && |r.committed| == |c.committed| + 1
      && r.committed[..|c.committed|] == c.committed
  {
    if c.phase == InData then Finish(c, clock) else c
  }

  /**
   `handleConnection` over the whole input of one connection: the greeting
   comes first, each line adds at most one reply and one email, input that
   ends inside DATA adds one more of each, and no DATA phase is left open.
   */
  function HandleConnection(lines: seq<string>, clock: Clock): (r: Session)
    ensures 1 <= |r.replies| <= |lines| + 2 && r.replies[0] == Greeting
    ensures |r.committed| <= |lines| + 1
    ensures r.phase != InData
  {
    var f := Feed(Open(), lines, clock);
    FeedOnlyAppends(Open(), lines, clock);
    assert f.replies[0] == f.replies[..1][0];
    EndOfInput(f, clock)
  }

  /**
   Reading lines only appends to the replies and the committed emails, at
   most one of each per line.
   */
  lemma {:induction false} FeedOnlyAppends(c: Session, lines: seq<string>, clock: Clock)
    decreases |lines|
    ensures var r := Feed(c, lines, clock);
      && |c.replies| <= |r.replies| <= |c.replies| + |lines| && r.replies[..|c.replies|] == c.replies
      && |c.committed| <= |r.committed| <= |c.committed| + |lines|
      && r.committed[..|c.committed|] == c.committed
  {
    if lines != [] {
      var next := Step(c, lines[0], clock);
      FeedOnlyAppends(next, lines[1..], clock);
      var r := Feed(c, lines, clock);
      assert r == Feed(next, lines[1..], clock);
      assert r.replies[..|c.replies|] == r.replies[..|next.replies|][..|c.replies|];
      assert r.committed[..|c.committed|] == r.committed[..|next.committed|][..|c.committed|];
    }
  }

  lemma {:induction false} FeedAppend(c: Session, a: seq<string>, b: seq<string>, clock: Clock)
    decreases |a|
    ensures Feed(c, a + b, clock) == Feed(Feed(c, a, clock), b, clock)
  {
    if a == [] {
      assert a + b == b;
    } else {
      assert (a + b)[0] == a[0];
      assert (a + b)[1..] == a[1..] + b;
      FeedAppend(Step(c, a[0], clock), a[1..], b, clock);
    }
  }

  lemma FeedSingle(c: Session, line: string, clock: Clock)
    ensures Feed(c, [line], clock) == Step(c, line, clock)
  {
    assert [line][1..] == [];
  }

  lemma FeedPair(c: Session, a: string, b: string, clock: Clock)
    ensures Feed(c, [a, b], clock) == Step(Step(c, a, clock), b, clock)
  {
    assert [a, b][1..] == [b];
    FeedSingle(Step(c, a, clock), b, clock);
  }

  /**
   `MAIL FROM:` in any case sets the sender to the trimmed line with the
   upper-case prefix removed when it is literally there, and leaves the
   recipients and the buffer alone.
   */
  lemma MailFromSetsSender(c: Session, line: string, clock: Clock)
    requires c.phase == Idle
    requires HasPrefix(ToUpper(line), MailFrom)
    ensures var r := Step(c, line, clock);
      && r.phase == Idle
      && r.tx.sender == (if HasPrefix(line, MailFrom) then TrimSpace(line[|MailFrom|..]) else TrimSpace(line))
      && r.tx.recipients == c.tx.recipients && r.tx.data == c.tx.data
      && r.replies == c.replies + [SenderOk] && r.committed == c.committed
  {
  }

  /** `MAIL FROM:` spelled in upper case stores its argument, trimmed. */
  lemma MailFromArgument(c: Session, arg: string, clock: Clock)
    requires c.phase == Idle
    ensures Step(c, MailFrom + arg, clock)
      == c.(tx := c.tx.(sender := TrimSpace(arg)), replies := c.replies + [SenderOk])
  {
    var line := MailFrom + arg;
    assert forall i :: 0 <= i < |MailFrom| ==> line[i] == MailFrom[i];
    ToUpperHasPrefix(line, MailFrom);
    MailFromSetsSender(c, line, clock);
    assert line[|MailFrom|..] == arg;
  }

  /** `RCPT TO:` spelled in upper case appends its argument, trimmed. */
  lemma RcptToArgument(c: Session, arg: string, clock: Clock)
    requires c.phase == Idle
    ensures Step(c, RcptTo + arg, clock)
      == c.(tx := c.tx.(recipients := c.tx.recipients + [TrimSpace(arg)]), replies := c.replies + [RecipientOk])
  {
    var line := RcptTo + arg;
    assert forall i :: 0 <= i < |RcptTo| ==> line[i] == RcptTo[i];
    ToUpperHasPrefix(line, RcptTo);
    RcptAppendsRecipient(c, line, clock);
    assert line[|RcptTo|..] == arg;
  }

  /** A lower-case `mail from:` keeps its keyword in the stored sender. */
  lemma LowerCaseMailFromKeepsKeyword(line: string, clock: Clock)
    requires line == "mail from:<a>"
    ensures Step(Open(), line, clock).tx.sender == line
  {
    assert forall i :: 0 <= i < |MailFrom| ==> UpperChar(line[i]) == MailFrom[i];
    ToUpperHasPrefix(line, MailFrom);
    MailFromSetsSender(Open(), line, clock);
    assert !HasPrefix(line, MailFrom) by {
      assert line[0] != MailFrom[0];
    }
    TrimSpaceKeepsUnpadded(line);
  }

  /** `RCPT TO:` appends exactly one trimmed recipient at the end; nothing else in the transaction changes. */
  lemma RcptAppendsRecipient(c: Session, line: string, clock: Clock)
    requires c.phase == Idle
    requires HasPrefix(ToUpper(line), RcptTo)
    ensures var r := Step(c, line, clock);
      && r.phase == Idle
      && |r.tx.recipients| == |c.tx.recipients| + 1
      && r.tx.recipients[..|c.tx.recipients|] == c.tx.recipients
      && r.tx.recipients[|c.tx.recipients|] == TrimSpace(TrimPrefix(line, RcptTo))
      && r.tx.sender == c.tx.sender && r.tx.data == c.tx.data
      && r.replies == c.replies + [RecipientOk] && r.committed == c.committed
  {
    assert ToUpper(line)[0] == RcptTo[0] != MailFrom[0];
    assert Classify(line) == RcptCmd;
  }

  /** One data line other than `.` is buffered unstuffed with CRLF restored, and nothing else changes. */
  lemma DataLineBuffered(c: Session, line: string, clock: Clock)
    requires c.phase == InData && line != "."
    ensures Step(c, line, clock) == c.(tx := c.tx.(data := c.tx.data + Unstuff(line) + Crlf))
  {
  }

  /** `DATA` in any case, in the idle phase, opens the DATA phase with the 354 reply. */
  lemma DataStartsInput(c: Session, line: string, clock: Clock)
    requires c.phase == Idle && ToUpper(line) == "DATA"
    ensures Step(c, line, clock) == c.(phase := InData, replies := c.replies + [StartInput])
  {
    assert Classify(line) == DataCmd;
  }

  /**
   Data lines other than `.` are buffered unstuffed with CRLF restored and
   produce no reply; the session stays in the DATA phase.
   */
  lemma {:induction false} DataLinesAccumulate(c: Session, lines: seq<string>, clock: Clock)
    requires c.phase == InData
    requires forall k :: 0 <= k < |lines| ==> lines[k] != "."
    decreases |lines|
    ensures Feed(c, lines, clock) == c.(tx := c.tx.(data := c.tx.data + Unstuffed(lines)))
  {
    if lines != [] {
      DataLineBuffered(c, lines[0], clock);
      var next := Step(c, lines[0], clock);
      assert Feed(c, lines, clock) == Feed(next, lines[1..], clock);
      DataLinesAccumulate(next, lines[1..], clock);
      var head := Unstuff(lines[0]) + Crlf;
      assert Unstuffed(lines) == head + Unstuffed(lines[1..]);
      assert c.tx.data + Unstuffed(lines) == (c.tx.data + head) + Unstuffed(lines[1..]);
    }
  }

  /** A lone `.` ends the DATA phase and is not buffered; `..x` is buffered as `.x`. */
  lemma DotHandling(c: Session, clock: Clock)
    requires c.phase == InData
    ensures Step(c, ".", clock) == Finish(c, clock)
    ensures Step(c, "..leading", clock).tx.data == c.tx.data + ".leading\r\n"
  {
    assert HasPrefix("..leading", ".");
  }

  /** The session is idle or closed only with an empty DATA buffer, and never numbers an email itself. */
  ghost predicate Consistent(c: Session) {
    && (c.phase != InData ==> c.tx.data == "")
    && forall k :: 0 <= k < |c.committed| ==> c.committed[k].id == ""
  }

  lemma {:induction false} FeedKeepsConsistent(c: Session, lines: seq<string>, clock: Clock)
    requires Consistent(c)
    decreases |lines|
    ensures Consistent(Feed(c, lines, clock))
  {
    if lines != [] {
      var next := Step(c, lines[0], clock);
      assert Consistent(next) by {
        forall k | 0 <= k < |next.committed|
          ensures next.committed[k].id == ""
        {
          if k < |c.committed| {
            assert next.committed[k] == next.committed[..|c.committed|][k];
          }
        }
      }
      FeedKeepsConsistent(next, lines[1..], clock);
    }
  }

  /** Every email a connection hands to the store has an empty id, so the store numbers it. */
  lemma SessionNeverSetsIds(lines: seq<string>, clock: Clock)
    ensures forall k :: 0 <= k < |HandleConnection(lines, clock).committed| ==>
      HandleConnection(lines, clock).committed[k].id == ""
  {
    FeedKeepsConsistent(Open(), lines, clock);
  }

  /**
   `DATA` (in any case) followed by data lines other than `.`: the session is
   in the DATA phase with those lines buffered.
   */
  lemma DataPhaseBuffers(c: Session, data: string, lines: seq<string>, clock: Clock)
    requires c.phase == Idle && c.tx.data == "" && ToUpper(data) == "DATA"
    requires forall k :: 0 <= k < |lines| ==> lines[k] != "."
    ensures Feed(c, [data] + lines, clock)
      == c.(phase := InData, tx := c.tx.(data := Unstuffed(lines)), replies := c.replies + [StartInput])
  {
    DataStartsInput(c, data, clock);
    var d := Step(c, data, clock);
    var input := [data] + lines;
    assert input[0] == data && input[1..] == lines;
    DataLinesAccumulate(d, lines, clock);
  }

  /**
   A complete DATA phase — `DATA`, data lines, `.` — replies 354 then 250,
   commits exactly one email carrying the pending sender and recipients and
   the parsed buffer, and leaves an empty transaction.
   */
  lemma DataPhaseCommitsOne(c: Session, data: string, lines: seq<string>, clock: Clock)
    requires c.phase == Idle && c.tx.data == "" && ToUpper(data) == "DATA"
    requires forall k :: 0 <= k < |lines| ==> lines[k] != "."
    ensures var r := Feed(c, [data] + lines + ["."], clock);
      var p := ParseData(Unstuffed(lines));
      && r.phase == Idle && r.tx == EmptyTransaction
      && r.replies == c.replies + [StartInput, Accepted]
      && r.committed == c.committed
           + [Email("", c.tx.sender, c.tx.recipients, p.subject, p.body, p.html, clock(|c.committed|))]
  {
    DataPhaseBuffers(c, data, lines, clock);
    FeedAppend(c, [data] + lines, ["."], clock);
    var e := Feed(c, [data] + lines, clock);
    DotHandling(e, clock);
    FeedSingle(e, ".", clock);
  }

  /** Input that ends inside a DATA phase still gets the 250 reply and commits the email. */
  lemma DataCutShortStillCommits(c: Session, data: string, lines: seq<string>, clock: Clock)
    requires c.phase == Idle && c.tx.data == "" && ToUpper(data) == "DATA"
    requires forall k :: 0 <= k < |lines| ==> lines[k] != "."
    ensures var r := EndOfInput(Feed(c, [data] + lines, clock), clock);
      var p := ParseData(Unstuffed(lines));
      && r.phase == Idle && r.tx == EmptyTransaction
      && r.replies == c.replies + [StartInput, Accepted]
      && r.committed == c.committed
           + [Email("", c.tx.sender, c.tx.recipients, p.subject, p.body, p.html, clock(|c.committed|))]
  {
    DataPhaseBuffers(c, data, lines, clock);
  }

  /** `RSET` in any case empties the transaction, exactly as a finished DATA phase does. */
  lemma ResetEmptiesTransaction(c: Session, line: string, clock: Clock)
    requires c.phase == Idle && ToUpper(line) == "RSET"
    ensures var r := Step(c, line, clock);
      && r.phase == Idle && r.tx == EmptyTransaction && r.tx == Finish(c, clock).tx
      && r.replies == c.replies + [Ok] && r.committed == c.committed
  {
    assert Classify(line) == ResetCmd;
  }

  /** A line that is none of the transaction commands. */
  predicate IsNeutral(line: string) {
    var cmd := ToUpper(line);
    !HasPrefix(cmd, MailFrom) && !HasPrefix(cmd, RcptTo) && cmd != "DATA" && cmd != "QUIT" && cmd != "RSET"
  }

  /**
   `HELO`, `EHLO`, `NOOP` and unrecognised lines get their reply and leave
   the transaction untouched.
   */
  lemma NeutralLinesKeepTransaction(c: Session, line: string, clock: Clock)
    requires c.phase == Idle
    requires IsNeutral(line)
    ensures var r := Step(c, line, clock);
      var cmd := ToUpper(line);
      && r.phase == Idle && r.tx == c.tx && r.committed == c.committed
      && r.replies == c.replies + [if cmd == "HELO" || cmd == "EHLO" then Hello
                                   else if cmd == "NOOP" then Ok
                                   else Unknown]
  {
    var cmd := ToUpper(line);
    assert Classify(line) == (if cmd == "HELO" || cmd == "EHLO" then HelloCmd
                              else if cmd == "NOOP" then NoopCmd
                              else UnknownCmd);
  }

  /** Keywords match only as the whole line: `EHLO host` is an unknown command. */
  lemma EhloWithArgumentIsUnknown(c: Session, line: string, clock: Clock)
    requires c.phase == Idle
    requires line == "EHLO host"
    ensures Step(c, line, clock) == c.(replies := c.replies + [Unknown])
  {
    var u := ToUpper(line);
    assert |u| == 9 && u[0] == UpperChar(line[0]) == 'E';
    assert !HasPrefix(u, MailFrom) && !HasPrefix(u, RcptTo);
    assert Classify(line) == UnknownCmd;
  }

  /** After `QUIT` in any case the handler is gone: it replies 221 and no later line has any effect. */
  lemma {:induction false} QuitEndsSession(c: Session, line: string, rest: seq<string>, clock: Clock)
    requires c.phase == Idle && ToUpper(line) == "QUIT"
    ensures var q := Step(c, line, clock);
      && q.replies == c.replies + [Bye] && q.tx == c.tx && q.committed == c.committed
      && Feed(q, rest, clock) == q
      && EndOfInput(Feed(q, rest, clock), clock) == q
    decreases |rest|
  {
    assert Classify(line) == QuitCmd;
    var q := Step(c, line, clock);
    ClosedIgnoresInput(q, rest, clock);
  }

  lemma {:induction false} ClosedIgnoresInput(c: Session, rest: seq<string>, clock: Clock)
    requires c.phase == Closed
    decreases |rest|
    ensures Feed(c, rest, clock) == c
  {
    if rest != [] {
      ClosedIgnoresInput(c, rest[1..], clock);
    }
  }
}
