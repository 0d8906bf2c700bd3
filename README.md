# sendmail in Dafny

A model of `mail.go` of the Go package `sendmail`, with the properties its
code promises proved. The package sends an HTML mail in one of two ways:

- `Sendmail` composes the message, then hands everything to one
  `smtp.SendMail` call.
- `SendmailSkipVerifyTLS` drives the SMTP session itself. The session is
  Dial, StartTLS without certificate verification, Auth only when a
  password is given, Mail, one Rcpt per recipient, Data, the write of the
  message, the close of the data writer and Quit. Every step returns on
  its first error, and a deferred Close runs after a successful Dial.

Both operations first check their arguments in the same order: the address
must split into host and port, `from` must not be empty, and `to` must not
be empty. Both build the same DATA payload in a `bytes.Buffer`:

1. a Subject header holding the subject as an RFC 2047 "B" encoded word;
2. the From header, and the To header joined with `,`;
3. the Cc and Bcc headers, each only when its joined value is not empty;
4. Content-Type and Content-Transfer-Encoding;
5. a blank line, the body in padded base64 (section 4 of RFC 4648) and a
   final CRLF.

The envelope recipients are `to`, followed by `cc` and `bcc` when their
header was written.

Modules:

- `Wrappers`: `Option` and `Result`.
- `Base64`: the RFC 4648 encoder the package uses, a decoder, and the
  round trip between them.
- `Strings`: `Join` as a loop method proved against the left-to-right
  function `Joined`, and a view of a text as its CRLF-separated lines.
- `Message`: the buffer (a class whose `data` field the writes extend),
  the header formats, the payload function `Rendered`, the recipient list
  `Recipients`, and the methods that write the payload step by step.
- `Sendmail`: the two operations against a `Transport`. The transport is a
  class whose `Issue` method records every call in a trace together with
  the reply of an arbitrary server. That server is a function of the whole
  history, so it may accept or reject any call.

`SendmailSkipVerifyTLS` is specified by the plan of calls it makes when
nothing fails (`Plan`), by `Run`, which makes the planned calls until the
first failure, and by `Session`, which adds the deferred Close after a
successful Dial. Its method body is one method for the prechecks
(`SendmailSkipVerifyTLS`) and three for the session: `Connect` (Dial, the
rest, then Close), `Converse` (StartTLS to the address headers) and
`Deliver` (the Rcpt loop to Quit). Each of them is proved to make exactly
the calls of the plan, and the session lemmas then state what the source
promises about any such session.

The model follows `mail.go` as written, in particular:

- A Cc or Bcc header with an empty value is omitted, not written empty.
- Addresses are not parsed or validated. Only `from == ""` and an empty
  `to` are refused.
- Recipients are concatenated: duplicates stay, and `cc` or `bcc` is
  dropped only when its joined value is empty.

## Model

| member | source | states |
|---|---|---|
| Strings.Join | mail.go:22-33 | the loop returns `Joined(a, sep)`: the elements in order with sep only between neighbours |
| Strings.JoinedEmpty | mail.go:23-24 | joining no element gives the empty string |
| Strings.JoinedSingle | mail.go:26-28 | joining one element gives that element unchanged |
| Strings.JoinedSnoc | mail.go:29-30 | appending an element to a non-empty slice appends sep and the element |
| Strings.JoinedCons | mail.go:24-31 | putting an element in front of a non-empty slice puts the element and sep in front |
| Strings.JoinedIsFirstThenPrefixed | mail.go:24-31 | the join equals the first element followed by every other element prefixed with sep (a right-to-left reference definition) |
| Strings.JoinedEmptyIff | mail.go:62-63 | with a non-empty separator the join is empty exactly when there is no element or one empty element, which is when the Cc/Bcc header is left out |
| Strings.JoinedAvoids | mail.go:22-33 | a character in no element and not in sep is not in the join |
| Strings.LinesOfLine | mail.go:53 | text without a carriage return is one line |
| Strings.LinesAppend | mail.go:53 | a CRLF between two texts separates their lines |
| Base64.Encode | mail.go:81 | `base64.StdEncoding.EncodeToString`, the padded encoding of section 4 of RFC 4648 (also applied to the subject at line 53): a non-empty input gives at least one four-character quantum |
| Base64.SymVal | mail.go:81 | the alphabet of table 1 of RFC 4648: the character of each sextet is decoded back to that sextet |
| Base64.EncodeLength | mail.go:81 | the encoding has four characters per started group of three bytes |
| Base64.EncodeAlphabet | mail.go:81 | every encoded character is in the alphabet or is the pad `=` |
| Base64.GroupRoundTrip | mail.go:81 | a full quantum decodes to its three bytes |
| Base64.OneRoundTrip | mail.go:81 | one final byte, encoded with two pads, decodes back |
| Base64.TwoRoundTrip | mail.go:81 | two final bytes, encoded with one pad, decode back |
| Base64.ThreeRoundTrip | mail.go:81 | three bytes decode back |
| Base64.RoundTrip | mail.go:81 | decoding the encoding of any byte sequence gives it back |
| Base64.DecodeAppend | mail.go:81 | the decoder reads a full quantum, then the rest |
| Message.Buffer.WriteString | mail.go:53 | a write appends its text to the buffer |
| Message.Header | mail.go:53-78 | the header format `"<name>: %s\r\n"`: the name, a colon and a space, the value unchanged, then CRLF |
| Message.EncodedWord | mail.go:53 | the subject as an RFC 2047 "B" encoded word in UTF-8: `=?UTF-8?B?`, the base64 text, `?=` |
| Message.EncodedWordDecodes | mail.go:53 | the text between the markers of the encoded word decodes to the subject bytes |
| Message.Recipients | mail.go:62-73 | `to` is a prefix of the envelope recipient list |
| Message.WriteAddressHeaders | mail.go:55-73 | writes From, To, Cc only when its join is non-empty and Bcc likewise, and returns `to` followed by the cc and bcc whose header was written |
| Message.Compose | mail.go:51-83 | the buffer holds exactly `Rendered(...)`, the payload function (header block, blank line, base64 body, CRLF), and the recipients are `Recipients(to, cc, bcc)` |
| Message.RenderedStartsWithHeaders | mail.go:53-59 | the payload starts with the Subject encoded word, then From, then To joined with `,` |
| Message.RenderedLineByLine | mail.go:51-83 | with addresses free of CR, the payload's lines are Subject, From, To, the optional Cc and Bcc, Content-Type, Content-Transfer-Encoding, a blank line, the body and an empty rest |
| Message.CcLineIff | mail.go:62-66 | a Cc line is in the payload exactly when the joined cc is non-empty, and it is then the line right after To |
| Message.BccLineIff | mail.go:69-73 | a Bcc line is in the payload exactly when the joined bcc is non-empty, and it then comes after To and any Cc, right before Content-Type |
| Message.CcInRenderedLines | mail.go:62-66 | among the intended lines a Cc line exists exactly when the joined cc is non-empty |
| Message.BccInRenderedLines | mail.go:69-73 | among the intended lines a Bcc line exists exactly when the joined bcc is non-empty |
| Message.BodyRoundTrip | mail.go:79-83 | whatever the addresses hold, the payload ends with a blank line, a body line that decodes to `msg`, and the final CRLF |
| Message.EncodedNotHeader | mail.go:81 | the body line cannot be read as a header line |
| Message.EncodedHasNoCR | mail.go:81 | the encoded body holds no carriage return |
| Message.OtherHeaderLine | mail.go:53-78 | a header line of one name is not a line of a header with another name |
| Message.HeaderBlockIsUnlines | mail.go:53-78 | `HeaderBlock`, the headers written before the blank line, is its header lines in the order of the source, each ended by CRLF |
| Message.RecipientsMembership | mail.go:62-73 | an address is a recipient exactly when it is in `to`, or in `cc`/`bcc` whose header is written |
| Message.RecipientsDropOnlyBlank | mail.go:62-73 | the recipients are `to`, `cc` and `bcc` in order, except that a cc or bcc of just `""` is dropped |
| Sendmail.Transport.Issue | mail.go:114-192 | a call gets the server's reply to it and is appended to the trace |
| Sendmail.Error.Text | mail.go:14-19 | the text of an error; only an error of a library call can have an empty one |
| Sendmail.ErrorTexts | mail.go:14-19 | ErrNoMailFrom reads "from field is empty" and ErrNoMailTo reads "to field is empty", so the two differ |
| Sendmail.Precheck | mail.go:38-49 | a bad address fails first, then an empty `from` (ErrNoMailFrom), then an empty `to` (ErrNoMailTo); success exactly when all three pass, with the host |
| Sendmail.AuthFor | mail.go:84-94 | no credentials exactly when the password is empty |
| Sendmail.SendmailSession | mail.go:36-96 | a failed check makes no call and returns its error; otherwise exactly one SendMail call, and nil exactly when it succeeds |
| Sendmail.Sendmail | mail.go:36-96 | the trace grows by the events of `SendmailSession` and the error is its error |
| Sendmail.AuthStep | mail.go:127-132 | one Auth call exactly when the password is non-empty |
| Sendmail.RcptCalls | mail.go:163-167 | one Rcpt call per recipient, call i naming recipient i |
| Sendmail.Plan | mail.go:114-192 | the calls of SendmailSkipVerifyTLS when none fails: Dial first, then StartTLS, Quit last, and seven calls besides the Auth step and one Rcpt per recipient (PlanAt gives every position) |
| Sendmail.Run | mail.go:114-192 | a run makes at most the planned calls, and at least one when there is one |
| Sendmail.RunFollowsPlan | mail.go:114-192 | event i is planned call i, all events but the last succeeded, and a run that stops early ends with a failure |
| Sendmail.RunAnswer | mail.go:114-192 | each call is answered by the server as it stands after the events before it |
| Sendmail.PlanAt | mail.go:114-192 | position by position: Dial, StartTLS with verification skipped, Auth with PLAIN credentials for the host when there is a password, Mail, the Rcpts in order, Data, the write of the payload, the close of the writer, Quit |
| Sendmail.PlanShape | mail.go:114-192 | each kind of call appears only at its place, Auth only with a password, and Close and SendMail are never planned |
| Sendmail.Outcome | mail.go:114-192 | a run returns an error exactly when its last call failed |
| Sendmail.Session | mail.go:118 | the session starts with the first planned call |
| Sendmail.SkipVerifySession | mail.go:101-118 | a failed check makes no call and returns its error; otherwise the session starts with Dial |
| Sendmail.SessionAt | mail.go:118 | the session is the run, followed by Close exactly when Dial succeeded |
| Sendmail.RcptsOfRun | mail.go:163-167 | the Rcpt calls of a run name the first recipients, as many as the run reached |
| Sendmail.Advance | mail.go:114-192 | making the next planned call either ends the run or leaves the rest of the plan pending |
| Sendmail.SendmailSkipVerifyTLS | mail.go:99-193 | the trace grows by the events of `SkipVerifySession` and the error is its error |
| Sendmail.Connect | mail.go:114-192 | after the checks the trace grows by `Session` of the plan (Dial, then `Conversation`), and the error is that of the run's last failed call |
| Sendmail.Converse | mail.go:120-192 | after Dial the trace grows by the run of `Conversation`, the plan without its Dial, with its error |
| Sendmail.Deliver | mail.go:163-192 | from the Rcpt loop on, the run of the plan is completed and its error returned |
| Sendmail.RcptFailureAborts | mail.go:163-167 | a rejected Rcpt is the last call before Close, its error is returned, and Data is never called |
| Sendmail.RecipientsInOrder | mail.go:163-167 | the Rcpt calls name a prefix of the recipient list in order, and all of it when Data was reached |
| Sendmail.AuthOnlyWithPassword | mail.go:120-132 | Auth is called exactly when a password is given and StartTLS succeeded, with PLAIN credentials for the host; StartTLS always skips verification |
| Sendmail.ClosedOnceAfterDial | mail.go:114-118 | the connection is closed exactly when Dial succeeded, by the last call, and only once |
| Sendmail.SessionOutcome | mail.go:180-192 | for any plan ending with its only Quit: nil exactly when Quit succeeded, otherwise the error of the one failed call, which is the last before Close and follows only successes |
| Sendmail.NilOnlyAfterQuit | mail.go:180-192 | the same for the plan of SendmailSkipVerifyTLS |
| Sendmail.SessionCarriesMessage | mail.go:138-188 | Mail names the sender, the write carries the payload, and a session that reached Data named every recipient |
| Sendmail.SameMessageBothWays | mail.go:51-96 | the SendMail call of Sendmail carries the sender, payload and recipients that SendmailSkipVerifyTLS gives to Mail, the write and its Rcpt calls |

## Left out

- The network and the SMTP client are not modelled. `smtp.SendMail`,
  `smtp.Dial` and the client's methods are calls on the abstract
  `Transport`, answered by an arbitrary server function. Their internals
  (EHLO, the TLS handshake, the wire protocol, timeouts) are outside the
  source.
- `net.SplitHostPort` is not modelled. It is a parameter of the operations
  that gives the host or an error. The port, which the source drops, is
  not modelled.
- `smtp.PlainAuth` is modelled only as the credentials it is given. The
  `tls.Config` is reduced to its `InsecureSkipVerify` flag.
- Error values of library calls are modelled by their text (`Foreign`).
  The two package errors are values of their own; `Error.Text` gives
  their texts.
- The error of the deferred `c.Close()` is recorded in the trace and
  dropped, as Go drops it.
- The error of `smtp.Client.Data` is treated as a failed call; the data
  writer it returns is not modelled as an object. `b.WriteTo(wc)` is one
  `Write` call carrying the whole payload; partial writes are not modelled.
- Go strings are sequences of characters, one per byte. `[]byte` values
  are sequences of `byte` (0..255). No UTF-8 validation happens in the
  source, so none is modelled.
- `append(to, cc...)` may write into the caller's backing array. The model
  builds a fresh sequence instead, so that aliasing is not modelled.
- Message.RenderedLineByLine: requires that no address contains a carriage
  return. The source does not check this, and an address holding CRLF adds
  header lines of its own.
- Message.CcLineIff: requires addresses without carriage returns, for the
  same reason.
- Message.BccLineIff: requires addresses without carriage returns, for the
  same reason. `Message.RenderedStartsWithHeaders` and
  `Message.BodyRoundTrip` hold without that assumption.
- The Bcc header stays in the payload, as the source writes it.
- `Strings.Lines` is the model's own reader of CRLF-separated lines, used
  only to state the line structure of the payload; the source never
  splits text into lines.
- `Base64.Decode` is the model's own decoder, used only to state the round
  trip; the source never decodes.
- The package's test files are not modelled. They only send to live
  servers.
