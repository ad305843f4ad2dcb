/**
 What the session handler extracts from a finished DATA section
 (server/smtp.go): the body after the first blank line, the last
 `Subject:` header and whether any header announces `text/html`.
 */
module DataParser {
  import opened Wrappers
  import opened Ascii

  const Crlf := "\r\n"

  /** The blank line that separates headers from body. */
  const Separator := "\r\n\r\n"

  const SubjectKey := "subject:"

  const HtmlMarker := "content-type: text/html"

  /** The fields of an email that come from its DATA section. */
  datatype Content = Content(subject: string, html: bool, body: string)

  /** What the header loop has found so far. */
  datatype HeaderFields = HeaderFields(subject: string, html: bool)

  /** A header line whose lower-cased form starts with `subject:`. */
  predicate IsSubjectLine(line: string) {
    HasPrefix(ToLower(line), SubjectKey)
  }

  /** The trimmed text after the 8 characters of `subject:`, in the line's own case. */
  function SubjectValue(line: string): string
    requires IsSubjectLine(line)
  {
    TrimSpace(line[|SubjectKey|..])
  }

  /** A header line whose lower-cased form mentions `content-type: text/html`. */
  predicate MentionsHtml(line: string) {
    Contains(ToLower(line), HtmlMarker)
  }

  /** `k` is the last subject line of `lines`. */
  predicate LastSubjectAt(lines: seq<string>, k: int) {
    0 <= k < |lines| && IsSubjectLine(lines[k]) && forall j :: k < j < |lines| ==> !IsSubjectLine(lines[j])
  }

  /**
   The header loop: walks the lines in order, letting each subject line
   overwrite the subject found so far, and setting the HTML flag once any
   line mentions `text/html`.
   */
  function ScanHeaders(lines: seq<string>, subject: string, html: bool): (r: HeaderFields)
    decreases |lines|
    ensures r.html <==> html || exists k :: 0 <= k < |lines| && MentionsHtml(lines[k])
  {
    if lines == [] then HeaderFields(subject, html)
    else
      var line := lines[0];
      var subject' := if IsSubjectLine(line) then SubjectValue(line) else subject;
      ScanHeaders(lines[1..], subject', html || MentionsHtml(line))
  }

  /** With no subject line among the headers the header loop keeps its starting subject. */
  lemma {:induction false} NoSubjectLineKeepsSubject(lines: seq<string>, subject: string, html: bool)
    requires forall k :: 0 <= k < |lines| ==> !IsSubjectLine(lines[k])
    decreases |lines|
    ensures ScanHeaders(lines, subject, html).subject == subject
  {
    if lines != [] {
      assert forall j :: 0 <= j < |lines[1..]| ==> lines[1..][j] == lines[j + 1];
      NoSubjectLineKeepsSubject(lines[1..], subject, html || MentionsHtml(lines[0]));
    }
  }

  /**
   The subject the header loop settles on is the value of the last subject
   line of the headers.
   */
  lemma {:induction false} LastSubjectWins(lines: seq<string>, subject: string, html: bool, k: int)
    requires LastSubjectAt(lines, k)
    decreases |lines|
    ensures ScanHeaders(lines, subject, html).subject == SubjectValue(lines[k])
  {
    var line := lines[0];
    var subject' := if IsSubjectLine(line) then SubjectValue(line) else subject;
    var html' := html || MentionsHtml(line);
    assert ScanHeaders(lines, subject, html) == ScanHeaders(lines[1..], subject', html');
    if k > 0 {
      assert LastSubjectAt(lines[1..], k - 1);
      LastSubjectWins(lines[1..], subject', html', k - 1);
    } else {
      assert forall j :: 0 <= j < |lines[1..]| ==> lines[1..][j] == lines[j + 1];
      NoSubjectLineKeepsSubject(lines[1..], subject', html');
    }
  }

  /**
   The DATA-section parser: split on `\r\n\r\n`; with at least two parts the
   first is the header block, scanned line by line, and the rest rejoined is
   the body; otherwise everything is body, with no subject and no HTML.
   */
  function ParseData(content: string): (p: Content)
    ensures Index(content, Separator).None? ==> p == Content("", false, content)
    ensures Index(content, Separator).Some? ==>
      var i := Index(content, Separator).value;
      && p.body == content[i + |Separator|..]
      && p.subject == ScanHeaders(Split(content[..i], Crlf), "", false).subject
      && p.html == ScanHeaders(Split(content[..i], Crlf), "", false).html
  {
    var parts := Split(content, Separator);
    if |parts| >= 2 then
      SplitAtFirst(content, Separator, Index(content, Separator).value);
      var h := ScanHeaders(Split(parts[0], Crlf), "", false);
      Content(h.subject, h.html, Join(parts[1..], Separator))
    else
      Content("", false, content)
  }

  /**
   A header block `h` followed by a blank line and `b`: the body is exactly
   `b` and the headers are `h`'s lines, provided `h` has no blank line of
   its own and does not end in CR LF (which would let an earlier
   `\r\n\r\n` straddle the join).
   */
  lemma {:induction false} BodyFollowsBlankLine(h: string, b: string)
    requires !Contains(h, Separator)
    requires !(|h| >= 2 && h[|h| - 2..] == Crlf)
    ensures ParseData(h + Separator + b).body == b
    ensures ParseData(h + Separator + b).subject == ScanHeaders(Split(h, Crlf), "", false).subject
    ensures ParseData(h + Separator + b).html == ScanHeaders(Split(h, Crlf), "", false).html
  {
    var s := h + Separator + b;
    assert Occurs(s, Separator, |h|) by {
      assert s[|h|..|h| + |Separator|] == Separator;
    }
    forall j | 0 <= j < |h|
      ensures !Occurs(s, Separator, j)
    {
      if j + |Separator| <= |h| {
        assert s[j..j + |Separator|] == h[j..j + |Separator|];
        assert !Occurs(h, Separator, j);
      } else {
        NoSeparatorAcrossJoin(h, b, j);
      }
    }
    assert Index(s, Separator) == Some(|h|);
    assert s[..|h|] == h;
    assert s[|h| + |Separator|..] == b;
  }

  /**
   A window that starts inside `h` and ends inside the separator after it is
   not a separator unless `h` ends in CR LF.
   */
  lemma NoSeparatorAcrossJoin(h: string, b: string, j: nat)
    requires j < |h| < j + |Separator|
    requires !(|h| >= 2 && h[|h| - 2..] == Crlf)
    ensures !Occurs(h + Separator + b, Separator, j)
  {
    var w := (h + Separator + b)[j..j + |Separator|];
    if j == |h| - 2 {
      // the window holds h's last two characters and then CR LF
      assert w[..2] == h[|h| - 2..];
    } else {
      // one or three characters before the join the separator has LF, but
      // the window has the separator's leading CR there
      assert w[|h| - j] == '\r';
    }
  }

  /** Without a blank line the whole text is body, with no subject and no HTML flag. */
  lemma NoBlankLineAllBody(content: string)
    requires !Contains(content, Separator)
    ensures ParseData(content) == Content("", false, content)
  {
  }
}
