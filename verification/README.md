# go-mail-sim capture core in Dafny

go-mail-sim is a local mail catcher. An SMTP listener accepts messages, and a web UI shows the captured messages. This project models the two parts of it that carry logic, and proves properties of the model:

- **The SMTP session** (`handleConnection` in `server/smtp.go`). One connection is a pure function from the lines the peer sends to two results: the replies the server writes, and the emails it hands to the store. Lines arrive already split, with terminators removed.
  - An idle phase dispatches commands on the upper-cased line.
  - `DATA` opens a phase that buffers dot-unstuffed lines until a lone `.`.
  - The end of that phase runs the header/body splitter. The body is what follows the first blank line. The subject comes from the last `Subject:` header. The HTML flag is set by any `Content-Type: text/html` header.
- **The message store** (`EmailServer` in `server/email.go`). It holds a sequence of emails in insertion order and a counter that starts at 1.
  - `AddEmail` gives an email without an id the decimal rendering of the counter, then advances the counter.
  - It also stamps an email that has no time.
  - `GetEmails` lists the emails. `GetEmailByID` scans for the first matching email. `ClearEmails` empties the list but keeps the counter.

Modules:

| module | file | contents |
|---|---|---|
| `Wrappers` | wrappers.dfy | `Option` |
| `Ascii` | ascii.dfy | The Go `strings` functions the handler uses, restricted to ASCII: `ToUpper`, `ToLower`, `TrimSpace`, `HasPrefix`, `TrimPrefix`, `Index`, `Contains`, `Split`, `Join` |
| `Decimal` | decimal.dfy | `formatID` and its inverse |
| `MailStore` | store.dfy | `Email`, `Store`, the store operations, and traces of adds and clears |
| `DataParser` | data_parser.dfy | The header/body splitter run at the end of a DATA phase |
| `Smtp` | smtp.dfy | The session state machine |
| `Capture` | capture.dfy | Sessions feeding the store, and a complete example conversation |

Time is a natural number, and 0 stands for Go's zero `time.Time`. The `time.Now()` of `AddEmail` is a parameter `now`. The `time.Now()` a session reads when it commits its k-th email is `clock(k)`, for a `Clock` parameter.

Three behaviours of the code are easy to misread:

- **Input that ends inside a DATA phase is still accepted and stored.** The inner read loop just stops (`server/smtp.go:82-92`). The handler then replies `250 Mail accepted` and stores the email (`server/smtp.go:94-130`).
- **The subject is trimmed on both sides.** `strings.TrimSpace` removes white space at both ends (`server/smtp.go:111`).
- **Listing order is insertion order.** The comment on `GetEmails` says "sorted by timestamp (newest first)", but the code returns the emails in the order they were added (`server/email.go:59-68`). The model follows the code. Sorting happens in the HTTP layer, which is not part of this model.

`DataParser.BodyFollowsBlankLine` requires that the header block `h` contain no `\r\n\r\n` and not end in CR LF. The second condition is needed: if `h` ends in CR LF, an earlier `\r\n\r\n` straddles `h` and the separator after it. For example, with `h = "a\r\n"`, `h + "\r\n\r\n" + b` splits at index 1, not at `|h|`. A lone trailing CR or LF does no harm: a window starting one or three characters before the join has the separator's leading CR where `\r\n\r\n` needs LF. This is a property of the code, not a defect: the code splits at the first occurrence, as `strings.Split` does.

## Model

| member | source | states |
|---|---|---|
| Ascii.ToUpper | server/smtp.go:67 | Each character is upper-cased in place, so the length is kept, and no lower-case ASCII letter is left. |
| Ascii.ToUpperHasPrefix | server/smtp.go:67-69 | The upper-cased line starts with `p` when its first characters upper-case to `p`, whatever their case. |
| Ascii.ToLower | server/smtp.go:110 | Each character is lower-cased in place, so the length is kept, and no upper-case ASCII letter is left. |
| Ascii.ToLowerHasPrefix | server/smtp.go:110 | The lower-cased line starts with `p` when its first characters lower-case to `p`. |
| Ascii.HasPrefix | server/smtp.go:69 | No contract of its own. It holds when `p` is no longer than `s` and equals its first characters. `Ascii.TrimPrefix` states what the prefix means for the rest of the text. |
| Ascii.TrimPrefix | server/smtp.go:70 | When the text starts with `p`, `p` followed by the result is the text. Otherwise the text comes back unchanged. |
| Ascii.TrimSpace | server/smtp.go:71 | The result is a slice of the input. Only white space was cut from either end, and the result neither starts nor ends with white space. |
| Ascii.TrimIsUnique | server/smtp.go:71 | At most one text fits that description, so the contract of `TrimSpace` determines its result exactly. |
| Ascii.TrimSpaceKeepsUnpadded | server/smtp.go:75 | Text that neither starts nor ends with white space comes back unchanged. |
| Ascii.Index | server/smtp.go:103 | When it reports a position, the pattern occurs there and at no earlier position. When it reports none, the pattern occurs nowhere. |
| Ascii.Contains | server/smtp.go:113 | True exactly when the pattern occurs at some position of the text. |
| Ascii.Split | server/smtp.go:103 | Joining the pieces with the separator gives back the input. There is a single piece exactly when the separator does not occur. In every piece but the last, the separator written after it is its first occurrence. The last piece does not contain the separator. Together these fix every piece. |
| Ascii.FirstPieceEndsAtSeparator | server/smtp.go:103 | The text before the first separator, followed by the separator, contains it first at its end. |
| Ascii.JoinCons | server/smtp.go:106 | Joining a piece in front of further pieces puts exactly one separator between it and their join. `Ascii.Join` itself has no contract; `Ascii.Split` states the round trip. |
| Ascii.SplitAtFirst | server/smtp.go:103-106 | The first piece ends at the first separator. The remaining pieces, rejoined with the separator, are exactly the text after that separator. |
| Decimal.FormatId | server/email.go:100-102 | The id is a non-empty string of decimal digits without a leading zero. |
| Decimal.ValueOfFormatId | server/email.go:100-102 | Reading a rendered id back as a decimal number gives the counter it came from. |
| Decimal.FormatIdInjective | server/email.go:100-102 | Distinct counters render to distinct ids. |
| MailStore.NewStore | server/email.go:31-38 | A new store holds no emails and its counter is 1. |
| MailStore.Add | server/email.go:41-56 | Adding appends exactly one email and leaves every earlier email in place. An email without an id gets the decimal rendering of the counter, and the counter grows by one. An email with an id keeps it, and the counter is unchanged. A zero timestamp becomes `now`. Every other field is the argument's. |
| MailStore.List | server/email.go:59-68 | No contract of its own: it returns the stored emails. `MailStore.ListAfterAddAndClear` states how adds and clears change the listing. |
| MailStore.ListAfterAddAndClear | server/email.go:59-68 | Listing shows the stored emails in insertion order. An added email appears last. After a clear, only emails added since are listed. |
| MailStore.Clear | server/email.go:85-90 | Clearing empties the list and leaves the counter alone. |
| MailStore.GetEmailById | server/email.go:71-82 | When found, the result is the email at the first position holding that id. When not found, no stored email has the id and the result is the zero email. |
| MailStore.NewStoreWellNumbered | server/email.go:31-38 | A new store is well numbered: every id is a decimal below the counter, and ids increase along the list. |
| MailStore.AddKeepsWellNumbered | server/email.go:46-49 | Adding an email without an id keeps the store well numbered. The new id is numerically above every stored id. |
| MailStore.ClearKeepsWellNumbered | server/email.go:85-90 | Clearing keeps the store well numbered. |
| MailStore.WellNumberedIdsUnique | server/email.go:46-49 | In a well-numbered store no two emails share an id. |
| MailStore.LookupFindsNewEmail | server/email.go:71-82 | In a well-numbered store, looking up the id just assigned finds the email just added. |
| MailStore.IssuedIdsIncrease | server/email.go:46-49 | Over any sequence of adds and clears, the counter never decreases. Every auto-assigned id is a decimal between the starting and the final counter, and auto-assigned ids strictly increase. |
| MailStore.AutoIdsNeverRepeat | server/email.go:46-49 | Auto-assigned ids never repeat, whatever adds and clears come in between. |
| MailStore.ClearNeverReusesIds | server/email.go:85-90 | Every id auto-assigned after a clear is numerically greater than every id auto-assigned before it. |
| DataParser.ScanHeaders | server/smtp.go:109-116 | The HTML flag ends up set exactly when it started set or some header line, lower-cased, contains `content-type: text/html`. |
| DataParser.LastSubjectWins | server/smtp.go:109-112 | The subject is the trimmed text after the first 8 characters of the last header line whose lower-cased form starts with `subject:`. |
| DataParser.NoSubjectLineKeepsSubject | server/smtp.go:98-112 | With no subject line among the headers, the subject stays what it was (the empty string at the start). |
| DataParser.ParseData | server/smtp.go:97-117 | Without a blank line, everything is body, the subject is empty and the HTML flag is false. Otherwise the body is exactly the text after the first `\r\n\r\n`. Subject and flag come from scanning the CRLF-separated lines before it. |
| DataParser.BodyFollowsBlankLine | server/smtp.go:103-107 | Take headers `h` that contain no blank line and do not end in CR LF. For `h + "\r\n\r\n" + b`, the body is `b`, and subject and flag come from `h`'s lines. |
| DataParser.NoSeparatorAcrossJoin | server/smtp.go:103 | A `\r\n\r\n` cannot start in the header block and end in the separator after it, unless the header block ends in CR LF. |
| DataParser.NoBlankLineAllBody | server/smtp.go:97-104 | Text without `\r\n\r\n` is all body, with no subject and no HTML flag. |
| Smtp.Open | server/smtp.go:56-63 | A new connection has the greeting as its only reply. It has no pending sender, recipients or buffer, and nothing committed. |
| Smtp.Unstuff | server/smtp.go:88-90 | A line starting with `.` loses exactly that one dot. Any other line is kept. |
| Smtp.Captured | server/smtp.go:120-127 | The email handed to the store has no id, carries the pending sender and recipients, and has the commit time as its timestamp. |
| Smtp.Finish | server/smtp.go:94-136 | Ending a DATA phase adds the `250 Mail accepted` reply. It commits one more email, without an id, carrying the pending sender and recipients, the parsed buffer and the clock's time for that commit. Earlier emails are kept, and the transaction is left empty and idle. |
| Smtp.Classify | server/smtp.go:67-156 | Each command is recognised exactly when its own test on the upper-cased line holds. For `MAIL FROM:` and `RCPT TO:` the test is a prefix; for `DATA`, `QUIT`, `HELO`/`EHLO`, `RSET` and `NOOP` it is the whole line. The tests never overlap, so the order of the checks does not matter. |
| Smtp.Dispatch | server/smtp.go:67-156 | Every line of the idle phase gets exactly one reply and commits nothing. Only `DATA` (opens the DATA phase) and `QUIT` (closes) change the phase, and only `RSET` empties the buffer. |
| Smtp.ClassifyKeyword | server/smtp.go:78-151 | `DATA`, `QUIT`, `RSET`, `HELO`, `EHLO` and `NOOP`, written as the whole line in any mix of cases, are recognised as their commands. |
| Smtp.Step | server/smtp.go:65-157 | After `QUIT` nothing changes. One line appends at most one reply and at most one committed email, and never alters earlier ones. A commit carries no id and leaves the session idle with an empty transaction. |
| Smtp.EndOfInput | server/smtp.go:82-94 | When input runs out, no DATA phase is left open. A DATA phase in progress gets the `250` reply and commits one email. Otherwise nothing changes. |
| Smtp.HandleConnection | server/smtp.go:53-158 | The greeting is the first reply. Each line adds at most one reply and one email, and input that ends inside DATA adds one more of each. The connection never ends in the DATA phase. |
| Smtp.FeedOnlyAppends | server/smtp.go:65-157 | Reading lines only appends to the replies and the committed emails, at most one of each per line. |
| Smtp.MailFromSetsSender | server/smtp.go:69-72 | A line whose upper-cased form starts with `MAIL FROM:` sets the sender. The sender is the trimmed line, with `MAIL FROM:` cut off only when the line literally starts with it. The reply is `250 Sender OK`. Recipients and buffer are unchanged. |
| Smtp.LowerCaseMailFromKeepsKeyword | server/smtp.go:69-71 | `mail from:<a>` is accepted, but the sender becomes the whole line, keyword included. |
| Smtp.MailFromArgument | server/smtp.go:69-72 | `MAIL FROM:` followed by an argument sets the sender to the trimmed argument. |
| Smtp.RcptAppendsRecipient | server/smtp.go:73-77 | A `RCPT TO:` line appends exactly one trimmed recipient at the end and keeps the earlier ones in order. Duplicates are allowed. The reply is `250 Recipient OK`. Sender and buffer are unchanged. |
| Smtp.RcptToArgument | server/smtp.go:73-77 | `RCPT TO:` followed by an argument appends the trimmed argument. |
| Smtp.DataStartsInput | server/smtp.go:78-79 | `DATA` in any case, when idle, opens the DATA phase with the 354 reply and changes nothing else. |
| Smtp.DataLineBuffered | server/smtp.go:82-92 | In the DATA phase, a line other than `.` is appended unstuffed and followed by CRLF. It gets no reply. |
| Smtp.DataLinesAccumulate | server/smtp.go:82-92 | A run of such lines leaves in the buffer the concatenation of the unstuffed lines, each followed by CRLF. |
| Smtp.DotHandling | server/smtp.go:84-90 | A lone `.` ends the phase and is not buffered. `..leading` is buffered as `.leading`. |
| Smtp.DataPhaseBuffers | server/smtp.go:78-92 | `DATA` in any case, followed by non-`.` lines leaves the session in the DATA phase with exactly those lines buffered. |
| Smtp.DataPhaseCommitsOne | server/smtp.go:78-136 | `DATA` in any case, then data lines and `.` reply 354 then 250. They commit exactly one email with the pending sender and recipients and the parsed buffer, and leave an empty idle transaction. |
| Smtp.DataCutShortStillCommits | server/smtp.go:82-130 | Input that ends inside the DATA phase is replied to and committed exactly as if `.` had followed. |
| Smtp.ResetEmptiesTransaction | server/smtp.go:143-148 | `RSET` in any case replies `250 OK` and leaves the same empty transaction as a finished DATA phase, committing nothing. |
| Smtp.NeutralLinesKeepTransaction | server/smtp.go:140-156 | `HELO`, `EHLO`, `NOOP` and unrecognised lines get `250 Hello`, `250 OK` or `500 Unknown command` respectively, and leave the transaction untouched. |
| Smtp.EhloWithArgumentIsUnknown | server/smtp.go:140-156 | Keywords match only the whole line, so `EHLO host` gets `500 Unknown command`. |
| Smtp.QuitEndsSession | server/smtp.go:137-139 | `QUIT` in any case replies `221 Bye`. No later line and no end of input has any effect. |
| Smtp.ClosedIgnoresInput | server/smtp.go:137-139 | Once the handler has returned, any further input leaves the session as it is. |
| Smtp.FeedKeepsConsistent | server/smtp.go:120-136 | Outside the DATA phase the buffer is empty, and no committed email has an id. Reading any lines preserves both. |
| Smtp.SessionNeverSetsIds | server/smtp.go:120-127 | Every email a connection commits has an empty id, so the store numbers it. |
| Capture.Deliver | server/smtp.go:130 | Handing a session's emails to the store appends exactly that many emails and keeps the earlier ones. |
| Capture.DeliverKeepsContents | server/smtp.go:130 | Each appended email is the delivered one, in order. The store may have filled in only its id and timestamp. |
| Capture.DeliverKeepsWellNumbered | server/email.go:46-49 | Delivering emails without ids keeps the store well numbered with unique ids, and advances the counter by their number. |
| Capture.CapturedIdsUnique | server/smtp.go:120-130 | Whatever a connection sends, the emails it commits land in a well-numbered store whose ids are pairwise distinct. |
| Capture.FreshStoreNumbersFromOne | server/email.go:41-56 | A new store gives its first captured email the id `1`. It stamps the email only if the email has no time. |
| Capture.ResetThenEmptyData | server/smtp.go:143-148 | `RSET`, `DATA`, `.` commits an email with no sender, no recipients and an empty body. |
| Capture.EmptyDataPhase | server/smtp.go:78-136 | `DATA` and `.` on an empty transaction commit an email whose sender, recipients, subject and body are empty and whose HTML flag is false. |
| Capture.ExampleEnvelope | server/smtp.go:69-77 | `MAIL FROM:<a@x>` then `RCPT TO:<b@y>` gives sender `<a@x>`, recipients `[<b@y>]` and the greeting plus two 250 replies. |
| Capture.ExampleHeader | server/smtp.go:109-116 | The header block `Subject: Hi` yields subject `Hi` and no HTML flag. |
| Capture.ExampleData | server/smtp.go:82-117 | Data lines `Subject: Hi`, an empty line and `hello` parse to subject `Hi`, body `hello\r\n` and no HTML flag. |
| Capture.ConversationRoundTrip | server/smtp.go:53-158 | A full conversation commits exactly one email: `<a@x>` to `<b@y>`, subject `Hi`, body `hello\r\n`, stamped at the first commit time. A fresh store numbers it `1`. |

## Left out

- The TCP listener, the accept loop, goroutines, `conn.Write`, `conn.Close` and logging are I/O. Replies are collected in order in `Session.replies` instead of being written.
- `bufio.Scanner` line splitting is not modelled; the input is already a sequence of lines. A scanner error or a line over its 64 KiB token limit ends the loop as end of input does, which the model cannot express.
- `sync.RWMutex` is not modelled. Each store operation is atomic, so concurrent connections reach the store as one sequence of adds, which is what `Deliver` and `Replay` cover. How handlers interleave is not modelled.
- `time.Now()` is the parameter `now` for the store and `Clock` for a session. `time.Time` is a natural number with 0 for the zero time; time zones and monotonic readings are not modelled.
- `idCounter` is a Go `int`; the model's counter is an unbounded natural, so overflow after 2^63 - 1 emails is not modelled.
- `strings.ToUpper`, `strings.ToLower` and `strings.TrimSpace` are restricted to ASCII (white space is tab, LF, VT, FF, CR and space). Strings are sequences of characters, not UTF-8 bytes, so `line[8:]` cuts 8 characters where Go cuts 8 bytes. The two agree on ASCII text.
- The difference between a nil and an empty recipient slice (`null` and `[]` in JSON) is not modelled; both are the empty sequence.
- `GetEmails` returns a copy of the slice. Values here are immutable, so `MailStore.List` returns the sequence itself.
- `NewEmailServer`'s ports and the `smtpServer` handle are not part of `Store`. `StartSMTP`, `ListenAndServe`, `Close` and `Shutdown` only start and stop the listener, and are left out.
- server/http.go, main.go, static/script.js and cmd/gomailsim/main.go are not part of this model: they are the HTTP API and its sorting, an older flat copy of the server, the browser UI, and process start-up.
- MailStore.AddKeepsWellNumbered: covers only emails without an id, the only kind a session hands over. An email that arrives with its own id can break the numbering, and the model does not constrain that case.
