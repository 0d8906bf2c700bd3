/**
 * The two send operations of mail.go. Sendmail (mail.go:36-96) hands the
 * whole exchange to one smtp.SendMail call; SendmailSkipVerifyTLS
 * (mail.go:99-193) drives the session itself: Dial, StartTLS without
 * certificate verification, optional Auth, Mail, one Rcpt per recipient,
 * Data, the write of the payload, the close of the data writer and Quit,
 * with the connection closed by a deferred Close after a successful Dial.
 *
 * The SMTP client is an abstract Transport: every call is recorded in a
 * trace together with the reply of an arbitrary server, which may accept
 * or reject any call depending on everything that came before it.
 */
module Sendmail {
  import opened Wrappers
  import opened Base64
  import opened Strings
  import opened Message

  /** The errors the operations return; Foreign carries an error of a library call. */
  datatype Error = ErrNoMailFrom | ErrNoMailTo | Foreign(reason: string)
  {
    /** The error text, as errors.New gives it (mail.go:14-19); only a foreign error can have none. */
    function Text(): (t: string)
      ensures t == "" ==> this.Foreign?
    {
      match this
      case ErrNoMailFrom => "from field is empty"
      case ErrNoMailTo => "to field is empty"
      case Foreign(reason) => reason
    }
  }

  /** The two errors of the package have the texts given to errors.New, and they differ. */
  lemma ErrorTexts()
    ensures ErrNoMailFrom.Text() == "from field is empty"
    ensures ErrNoMailTo.Text() == "to field is empty"
    ensures ErrNoMailFrom.Text() != ErrNoMailTo.Text()
  {
  }

  /** The credentials smtp.PlainAuth is given. */
  datatype Credentials = PlainAuth(identity: string, username: string, password: string, host: string)

  /** One call on the SMTP client, on the data writer, or the one-shot smtp.SendMail. */
  datatype Call =
    | Dial(addr: string)
    | StartTLS(insecureSkipVerify: bool)
    | Auth(cred: Credentials)
    | Mail(from: string)
    | Rcpt(to: string)
    | Data
    | Write(payload: string)
    | CloseData
    | Quit
    | Close
    | SendMail(addr: string, auth: Option<Credentials>, from: string, rcpts: seq<string>, payload: string)

  /** What a call returns: a nil error, or an error with its text. */
  datatype Reply = Ok | Fail(reason: string)

  datatype Event = Event(call: Call, reply: Reply)

  /** How the far end answers a call, given every event before it. */
  type Server = (seq<Event>, Call) -> Reply

  /** The network side: a server and the trace of every call made to it. */
  class Transport {
    const server: Server
    var trace: seq<Event>

    constructor (server: Server)
      ensures this.server == server && trace == []
    {
      this.server := server;
      trace := [];
    }

    /** Makes one call: the server answers it and the call is recorded. */
    method Issue(call: Call) returns (reply: Reply)
      modifies this
      ensures reply == server(old(trace), call)
      ensures trace == old(trace) + [Event(call, reply)]
    {
      reply := server(trace, call);
      trace := trace + [Event(call, reply)];
    }
  }

  /** The arguments both send operations take. */
  datatype Request = Request(addr: string, from: string, password: string,
                             to: seq<string>, cc: seq<string>, bcc: seq<string>,
                             sub: seq<byte>, msg: seq<byte>)
  {
    function Payload(): string
    {
      Rendered(from, to, cc, bcc, sub, msg)
    }

    function Rcpts(): seq<string>
    {
      Recipients(to, cc, bcc)
    }
  }

  /**
   * The checks both operations make before any network call, in this
   * order: the address must split into host and port, from must not be
   * empty, to must not be empty. On success the host is returned.
   */
  function Precheck(split: Result<string, string>, from: string, to: seq<string>): (r: Result<string, Error>)
    ensures split.Failure? ==> r == Failure(Foreign(split.error))
    ensures split.Success? && from == "" ==> r == Failure(ErrNoMailFrom)
    ensures split.Success? && from != "" && |to| == 0 ==> r == Failure(ErrNoMailTo)
    ensures r.Success? <==> split.Success? && from != "" && |to| >= 1
    ensures r.Success? ==> r.value == split.value
  {
    if split.Failure? then Failure(Foreign(split.error))
    else if from == "" then Failure(ErrNoMailFrom)
    else if |to| < 1 then Failure(ErrNoMailTo)
    else Success(split.value)
  }

  // ---------------------------------------------------------------------
  // Sendmail: one smtp.SendMail call

  /** The credentials Sendmail passes: none without a password, PLAIN auth for the host otherwise. */
  function AuthFor(from: string, password: string, host: string): (a: Option<Credentials>)
    ensures a.None? <==> password == ""
  {
    if password == "" then None else Some(PlainAuth("", from, password, host))
  }

  /** The events of one Sendmail call and the error it returns. */
  function SendmailSession(server: Server, history: seq<Event>,
                           splitHostPort: string -> Result<string, string>, r: Request): (s: (seq<Event>, Option<Error>))
    ensures Precheck(splitHostPort(r.addr), r.from, r.to).Failure? ==>
      s.0 == [] && s.1 == Some(Precheck(splitHostPort(r.addr), r.from, r.to).error)
    ensures Precheck(splitHostPort(r.addr), r.from, r.to).Success? ==>
      |s.0| == 1 && s.0[0].call.SendMail? && (s.1.None? <==> s.0[0].reply.Ok?)
  {
    match Precheck(splitHostPort(r.addr), r.from, r.to)
    case Failure(e) => ([], Some(e))
    case Success(host) =>
      var call := SendMail(r.addr, AuthFor(r.from, r.password, host), r.from, r.Rcpts(), r.Payload());
      var reply := server(history, call);
      ([Event(call, reply)], if reply.Fail? then Some(Foreign(reply.reason)) else None)
  }

  /** Sendmail of mail.go:36-96. */
  method Sendmail(t: Transport, splitHostPort: string -> Result<string, string>,
                  addr: string, from: string, password: string,
                  to: seq<string>, cc: seq<string>, bcc: seq<string>,
                  sub: seq<byte>, msg: seq<byte>)
    returns (err: Option<Error>)
    modifies t
    ensures var s := SendmailSession(t.server, old(t.trace), splitHostPort,
                                     Request(addr, from, password, to, cc, bcc, sub, msg));
      t.trace == old(t.trace) + s.0 && err == s.1
  {
    var split := splitHostPort(addr);
    if split.Failure? {
      return Some(Foreign(split.error));
    }
    var host := split.value;
    if from == "" {
      return Some(ErrNoMailFrom);
    }
    if |to| < 1 {
      return Some(ErrNoMailTo);
    }
    var payload, rcpts := Compose(from, to, cc, bcc, sub, msg);
    var reply;
    if password == "" {
      reply := t.Issue(SendMail(addr, None, from, rcpts, payload));
    } else {
      var a := PlainAuth("", from, password, host);
      reply := t.Issue(SendMail(addr, Some(a), from, rcpts, payload));
    }
    if reply.Fail? {
      return Some(Foreign(reply.reason));
    }
    return None;
  }

  // ---------------------------------------------------------------------
  // SendmailSkipVerifyTLS: the session driven call by call

  /** The Auth call, made only when a password is given. */
  function AuthStep(from: string, password: string, host: string): (calls: seq<Call>)
    ensures |calls| == (if password != "" then 1 else 0)
  {
    if password != "" then [Auth(PlainAuth("", from, password, host))] else []
  }

  /** One Rcpt call per recipient, in order. */
  function RcptCalls(rcpts: seq<string>): (calls: seq<Call>)
    ensures |calls| == |rcpts|
    ensures forall i :: 0 <= i < |rcpts| ==> calls[i] == Rcpt(rcpts[i])
  {
    if |rcpts| == 0 then [] else [Rcpt(rcpts[0])] + RcptCalls(rcpts[1..])
  }

  /** The calls that hand over the message and end the session. */
  function Closing(payload: string): seq<Call>
  {
    [Data, Write(payload), CloseData, Quit]
  }

  /** The calls after a successful Dial, in the order mail.go:120-192 makes them. */
  function Conversation(host: string, from: string, password: string,
                        rcpts: seq<string>, payload: string): seq<Call>
  {
    [StartTLS(true)] + (AuthStep(from, password, host) + ([Mail(from)] + (RcptCalls(rcpts) + Closing(payload))))
  }

  /** Every call of a session, from Dial to Quit, when no call fails. */
  function Plan(addr: string, host: string, from: string, password: string,
                rcpts: seq<string>, payload: string): (calls: seq<Call>)
    ensures |calls| == |AuthStep(from, password, host)| + |rcpts| + 7
    ensures calls[0] == Dial(addr) && calls[|calls| - 1] == Quit
  {
    [Dial(addr)] + Conversation(host, from, password, rcpts, payload)
  }

  /** Makes the planned calls in order and stops after the first that fails. */
  function Run(server: Server, history: seq<Event>, plan: seq<Call>): (ev: seq<Event>)
    ensures |ev| <= |plan|
    ensures |plan| > 0 ==> |ev| > 0
    decreases |plan|
  {
    if |plan| == 0 then []
    else
      var e := Event(plan[0], server(history, plan[0]));
      if e.reply.Fail? then [e] else [e] + Run(server, history + [e], plan[1..])
  }

  /** A run of a non-empty plan makes its first call, and goes on only if that call succeeded. */
  lemma RunStep(server: Server, history: seq<Event>, plan: seq<Call>, e: Event)
    requires |plan| > 0 && e == Event(plan[0], server(history, plan[0]))
    ensures Run(server, history, plan) ==
      [e] + (if e.reply.Fail? then [] else Run(server, history + [e], plan[1..]))
  {
  }

  /**
   * A run follows its plan: event i is planned call i, every event but the
   * last succeeded, and a run that stops before the end of the plan ends
   * with a failure.
   */
  lemma {:induction false} RunFollowsPlan(server: Server, history: seq<Event>, plan: seq<Call>)
    ensures var ev := Run(server, history, plan);
      && (forall i :: 0 <= i < |ev| ==> ev[i].call == plan[i])
      && (forall i :: 0 <= i < |ev| - 1 ==> ev[i].reply.Ok?)
      && (0 < |ev| < |plan| ==> ev[|ev| - 1].reply.Fail?)
    decreases |plan|
  {
    if |plan| > 0 {
      var e := Event(plan[0], server(history, plan[0]));
      RunStep(server, history, plan, e);
      if e.reply.Ok? {
        RunFollowsPlan(server, history + [e], plan[1..]);
      }
    }
  }

  /** Call i of a run is answered by the server as it stands after the i events before it. */
  lemma {:induction false} RunAnswer(server: Server, history: seq<Event>, plan: seq<Call>, i: nat)
    requires i < |Run(server, history, plan)|
    ensures var ev := Run(server, history, plan);
      ev[i].reply == server(history + ev[..i], plan[i])
    decreases i
  {
    var ev := Run(server, history, plan);
    var e := Event(plan[0], server(history, plan[0]));
    RunStep(server, history, plan, e);
    if i == 0 {
      assert history + ev[..0] == history;
    } else {
      assert e.reply.Ok?;
      var rest := Run(server, history + [e], plan[1..]);
      assert ev == [e] + rest;
      RunAnswer(server, history + [e], plan[1..], i - 1);
      assert ev[..i] == [e] + rest[..i - 1];
      assert history + ev[..i] == (history + [e]) + rest[..i - 1];
    }
  }

  /**
   * Where each call sits in the plan: Dial, StartTLS without certificate
   * verification, Auth only with a password, Mail, one Rcpt per recipient
   * in order, then Data, the write of the payload, the close of the data
   * writer and Quit.
   */
  lemma PlanAt(addr: string, host: string, from: string, password: string,
               rcpts: seq<string>, payload: string, i: nat)
    ensures var plan := Plan(addr, host, from, password, rcpts, payload);
      var o := |AuthStep(from, password, host)| + 3;
      var n := |rcpts|;
      && |plan| == o + n + 4
      && (i < |plan| ==>
            plan[i] == (if i == 0 then Dial(addr)
                        else if i == 1 then StartTLS(true)
                        else if i < o - 1 then Auth(PlainAuth("", from, password, host))
                        else if i == o - 1 then Mail(from)
                        else if i < o + n then Rcpt(rcpts[i - o])
                        else if i == o + n then Data
                        else if i == o + n + 1 then Write(payload)
                        else if i == o + n + 2 then CloseData
                        else Quit))
  {
    var a := AuthStep(from, password, host);
    var r := RcptCalls(rcpts);
    var o := |a| + 3;
    assert Plan(addr, host, from, password, rcpts, payload)
        == [Dial(addr), StartTLS(true)] + a + [Mail(from)] + r + Closing(payload);
    if o <= i < o + |rcpts| {
      assert r[i - o] == Rcpt(rcpts[i - o]);
    }
  }

  /**
   * The plan as a whole: each kind of call sits only where PlanAt puts it,
   * Auth only with a password, and Close and SendMail are never planned.
   */
  lemma PlanShape(addr: string, host: string, from: string, password: string,
                  rcpts: seq<string>, payload: string)
    ensures var plan := Plan(addr, host, from, password, rcpts, payload);
      var o := |AuthStep(from, password, host)| + 3;
      var n := |rcpts|;
      && (forall i :: 0 <= i < |plan| ==> (plan[i].Dial? <==> i == 0))
      && (forall i :: 0 <= i < |plan| ==> (plan[i].StartTLS? <==> i == 1))
      && (forall i :: 0 <= i < |plan| ==> (plan[i].Auth? <==> password != "" && i == 2))
      && (forall i :: 0 <= i < |plan| ==> (plan[i].Mail? <==> i == o - 1))
      && (forall i :: 0 <= i < |plan| ==> (plan[i].Rcpt? <==> o <= i < o + n))
      && (forall i :: 0 <= i < |plan| ==> (plan[i].Data? <==> i == o + n))
      && (forall i :: 0 <= i < |plan| ==> (plan[i].Write? <==> i == o + n + 1))
      && (forall i :: 0 <= i < |plan| ==> (plan[i].Quit? <==> i == o + n + 3))
      && (forall i :: 0 <= i < |plan| ==> !plan[i].Close? && !plan[i].SendMail?)
  {
    forall i: nat { PlanAt(addr, host, from, password, rcpts, payload, i); }
  }

  /** The error a run ends with: the failure of its last call, if that call failed. */
  function Outcome(ev: seq<Event>): (err: Option<Error>)
    ensures err.Some? <==> |ev| > 0 && ev[|ev| - 1].reply.Fail?
  {
    if |ev| > 0 && ev[|ev| - 1].reply.Fail? then Some(Foreign(ev[|ev| - 1].reply.reason)) else None
  }

  /**
   * The events of a session that runs a plan beginning with Dial: after a
   * successful Dial the deferred Close is made last, whatever happened
   * before it.
   */
  function Session(server: Server, history: seq<Event>, plan: seq<Call>): (tr: seq<Event>)
    requires |plan| > 0
    ensures |tr| > 0 && tr[0].call == plan[0]
  {
    var ev := Run(server, history, plan);
    RunFollowsPlan(server, history, plan);
    if ev[0].reply.Fail? then ev else ev + [Event(Close, server(history + ev, Close))]
  }

  /**
   * The events of one SendmailSkipVerifyTLS call and the error it returns:
   * the error of the checks, or of the call that ended the run; the error
   * of the deferred Close is dropped.
   */
  function SkipVerifySession(server: Server, history: seq<Event>,
                             splitHostPort: string -> Result<string, string>, r: Request): (s: (seq<Event>, Option<Error>))
    ensures Precheck(splitHostPort(r.addr), r.from, r.to).Failure? ==>
      s.0 == [] && s.1 == Some(Precheck(splitHostPort(r.addr), r.from, r.to).error)
    ensures Precheck(splitHostPort(r.addr), r.from, r.to).Success? ==>
      |s.0| >= 1 && s.0[0].call == Dial(r.addr)
  {
    match Precheck(splitHostPort(r.addr), r.from, r.to)
    case Failure(e) => ([], Some(e))
    case Success(host) =>
      var plan := Plan(r.addr, host, r.from, r.password, r.Rcpts(), r.Payload());
      (Session(server, history, plan), Outcome(Run(server, history, plan)))
  }

  /** The recipients a trace names in its Rcpt calls, in order. */
  function RcptsOf(tr: seq<Event>): (rs: seq<string>)
    ensures |rs| <= |tr|
  {
    if |tr| == 0 then []
    else RcptsOf(tr[..|tr| - 1]) + (if tr[|tr| - 1].call.Rcpt? then [tr[|tr| - 1].call.to] else [])
  }

  function Clamp(x: int, n: nat): (c: nat)
    ensures c <= n
  {
    if x < 0 then 0 else if x > n then n else x
  }

  /** The events make the first calls of the plan. */
  ghost predicate Follows(ev: seq<Event>, plan: seq<Call>)
  {
    |ev| <= |plan| && forall i :: 0 <= i < |ev| ==> ev[i].call == plan[i]
  }

  /** The Rcpt calls of the plan are those from position o on, one per recipient, in order. */
  ghost predicate RcptStretch(plan: seq<Call>, o: nat, rcpts: seq<string>)
  {
    && o + |rcpts| <= |plan|
    && (forall i :: 0 <= i < |plan| ==> (plan[i].Rcpt? <==> o <= i < o + |rcpts|))
    && (forall i :: 0 <= i < |rcpts| ==> plan[o + i] == Rcpt(rcpts[i]))
  }

  lemma PlanRcptStretch(addr: string, host: string, from: string, password: string,
                        rcpts: seq<string>, payload: string)
    ensures RcptStretch(Plan(addr, host, from, password, rcpts, payload), |AuthStep(from, password, host)| + 3, rcpts)
  {
    PlanAt(addr, host, from, password, rcpts, payload, 0);
    forall i: nat { PlanAt(addr, host, from, password, rcpts, payload, i); }
  }

  /** The Rcpt calls of a run of a plan name the first recipients of the plan, as many as the run reached. */
  lemma {:induction false} RcptsOfRun(ev: seq<Event>, plan: seq<Call>, o: nat, rcpts: seq<string>)
    requires Follows(ev, plan) && RcptStretch(plan, o, rcpts)
    ensures RcptsOf(ev) == rcpts[..Clamp(|ev| - o, |rcpts|)]
    decreases |ev|
  {
    if |ev| > 0 {
      var last := |ev| - 1;
      RcptsOfRun(ev[..last], plan, o, rcpts);
      if o <= last < o + |rcpts| {
        assert ev[last].call == Rcpt(rcpts[last - o]);
        assert rcpts[..last - o + 1] == rcpts[..last - o] + [rcpts[last - o]];
      }
    }
  }

  /**
   * A trace that has made the calls of a plan up to some point: what is
   * left of the plan, run from the current trace, completes the run of
   * the whole plan from where it began.
   */
  ghost predicate Pending(server: Server, start: seq<Event>, plan: seq<Call>, trace: seq<Event>, rest: seq<Call>)
  {
    |start| <= |trace| && trace[..|start|] == start &&
    Run(server, start, plan) == trace[|start|..] + Run(server, trace, rest)
  }

  /** Concatenation is associative (stated on its own, away from any large context). */
  lemma ConcatAssoc<T>(a: seq<T>, b: seq<T>, c: seq<T>)
    ensures a + (b + c) == (a + b) + c
  {
  }

  /** Making the next planned call either ends the run (on failure or after the last call) or keeps it pending. */
  lemma Advance(server: Server, start: seq<Event>, plan: seq<Call>, trace: seq<Event>, rest: seq<Call>, e: Event)
    requires Pending(server, start, plan, trace, rest)
    requires |rest| > 0 && e == Event(rest[0], server(trace, rest[0]))
    ensures e.reply.Fail? || |rest| == 1 ==>
      trace + [e] == start + Run(server, start, plan) && Outcome(Run(server, start, plan)) == Outcome([e])
    ensures e.reply.Ok? ==> Pending(server, start, plan, trace + [e], rest[1..])
  {
    RunStep(server, trace, rest, e);
    var done := trace[|start|..];
    assert (trace + [e])[..|start|] == trace[..|start|];
    assert (trace + [e])[|start|..] == done + [e];
    var after := if e.reply.Fail? then [] else Run(server, trace + [e], rest[1..]);
    var r := Run(server, trace, rest);
    assert r == [e] + after;
    assert Run(server, start, plan) == done + r;
    ConcatAssoc(done, [e], after);
    if e.reply.Fail? || |rest| == 1 {
      assert after == [];
      assert Run(server, start, plan) == done + [e];
      assert trace == start + done;
    }
  }

  /**
   * The part of SendmailSkipVerifyTLS after a successful Dial
   * (mail.go:120-161, then Deliver): the session calls interleaved with
   * the writes that compose the message. The caller then makes the
   * deferred Close.
   */
  method Converse(t: Transport, host: string, from: string, password: string,
                  to: seq<string>, cc: seq<string>, bcc: seq<string>,
                  sub: seq<byte>, msg: seq<byte>)
    returns (err: Option<Error>)
    modifies t
    ensures var ev := Run(t.server, old(t.trace), Conversation(host, from, password, Recipients(to, cc, bcc), Rendered(from, to, cc, bcc, sub, msg)));
      t.trace == old(t.trace) + ev && err == Outcome(ev)
  {
    ghost var start := t.trace;
    ghost var payload := Rendered(from, to, cc, bcc, sub, msg);
    ghost var all := Recipients(to, cc, bcc);
    ghost var plan := Conversation(host, from, password, all, payload);
    ghost var delivery := RcptCalls(all) + Closing(payload);
    ghost var before := t.trace;
    assert Pending(t.server, start, plan, t.trace, plan) by {
      assert t.trace[|start|..] == [];
    }

    var reply := t.Issue(StartTLS(true));
    Advance(t.server, start, plan, before, plan, Event(StartTLS(true), reply));
    if reply.Fail? {
      return Some(Foreign(reply.reason));
    }
    ghost var rest := plan[1..];
    assert rest == AuthStep(from, password, host) + ([Mail(from)] + delivery);

    if password != "" {
      var a := PlainAuth("", from, password, host);
      before := t.trace;
      reply := t.Issue(Auth(a));
      Advance(t.server, start, plan, before, rest, Event(Auth(a), reply));
      if reply.Fail? {
        return Some(Foreign(reply.reason));
      }
      rest := rest[1..];
    }
    assert rest == [Mail(from)] + delivery;

    var b := new Buffer();
    b.WriteString(Header("Subject", EncodedWord(sub)));
    ghost var head := Header("Subject", EncodedWord(sub));
    assert b.data == head;

    before := t.trace;
    reply := t.Issue(Mail(from));
    Advance(t.server, start, plan, before, rest, Event(Mail(from), reply));
    if reply.Fail? {
      return Some(Foreign(reply.reason));
    }
    rest := rest[1..];
    assert rest == delivery;

    var rcpts := WriteAddressHeaders(b, from, to, cc, bcc);
    assert b.data == head + Header("From", from) + Header("To", Joined(to, ","))
      + OptionalHeader("Cc", Joined(cc, ",")) + OptionalHeader("Bcc", Joined(bcc, ","));
    assert HeaderBlock(from, to, cc, bcc, sub) == b.data + Header("Content-Type", "text/html; charset=UTF-8")
      + Header("Content-Transfer-Encoding", "base64");
    assert payload == b.data + Header("Content-Type", "text/html; charset=UTF-8")
      + Header("Content-Transfer-Encoding", "base64") + CRLF + Encode(msg) + CRLF;

    err := Deliver(t, b, rcpts, msg, start, plan, payload);
  }

  /** The rest of a plan from the Rcpt calls on, as one list. */
  lemma RcptCallsFrom(rcpts: seq<string>, i: nat, payload: string)
    requires i < |rcpts|
    ensures var rest := RcptCalls(rcpts[i..]) + Closing(payload);
      rest[0] == Rcpt(rcpts[i]) && rest[1..] == RcptCalls(rcpts[i + 1..]) + Closing(payload)
  {
    assert rcpts[i..][1..] == rcpts[i + 1..];
  }

  /**
   * The end of SendmailSkipVerifyTLS (mail.go:163-192): one Rcpt call per
   * recipient, the last lines of the message, then Data, the write of the
   * message, the close of the data writer and Quit.
   */
  method Deliver(t: Transport, b: Buffer, rcpts: seq<string>, msg: seq<byte>,
                 ghost start: seq<Event>, ghost plan: seq<Call>, ghost payload: string)
    returns (err: Option<Error>)
    requires Pending(t.server, start, plan, t.trace, RcptCalls(rcpts) + Closing(payload))
    requires payload == b.data + Header("Content-Type", "text/html; charset=UTF-8")
      + Header("Content-Transfer-Encoding", "base64") + CRLF + Encode(msg) + CRLF
    modifies t, b
    ensures t.trace == start + Run(t.server, start, plan) && err == Outcome(Run(t.server, start, plan))
  {
    ghost var head := b.data;
    ghost var before;
    ghost var rest;
    var reply;
    assert rcpts[0..] == rcpts;
    for i := 0 to |rcpts|
      invariant Pending(t.server, start, plan, t.trace, RcptCalls(rcpts[i..]) + Closing(payload))
      invariant b.data == head
    {
      RcptCallsFrom(rcpts, i, payload);
      rest := RcptCalls(rcpts[i..]) + Closing(payload);
      before := t.trace;
      reply := t.Issue(Rcpt(rcpts[i]));
      Advance(t.server, start, plan, before, rest, Event(Rcpt(rcpts[i]), reply));
      if reply.Fail? {
        return Some(Foreign(reply.reason));
      }
    }
    assert RcptCalls(rcpts[|rcpts|..]) + Closing(payload) == Closing(payload);

    b.WriteString(Header("Content-Type", "text/html; charset=UTF-8"));
    b.WriteString(Header("Content-Transfer-Encoding", "base64"));
    b.WriteString(CRLF);
    b.WriteString(Encode(msg));
    b.WriteString(CRLF);
    assert b.data == payload;

    rest := Closing(payload);
    before := t.trace;
    reply := t.Issue(Data);
    Advance(t.server, start, plan, before, rest, Event(Data, reply));
    if reply.Fail? {
      return Some(Foreign(reply.reason));
    }
    rest := rest[1..];

    before := t.trace;
    reply := t.Issue(Write(b.data));
    Advance(t.server, start, plan, before, rest, Event(Write(b.data), reply));
    if reply.Fail? {
      return Some(Foreign(reply.reason));
    }
    rest := rest[1..];

    before := t.trace;
    reply := t.Issue(CloseData);
    Advance(t.server, start, plan, before, rest, Event(CloseData, reply));
    if reply.Fail? {
      return Some(Foreign(reply.reason));
    }
    rest := rest[1..];

    before := t.trace;
    reply := t.Issue(Quit);
    Advance(t.server, start, plan, before, rest, Event(Quit, reply));
    err := if reply.Fail? then Some(Foreign(reply.reason)) else None;
  }

  /**
   * SendmailSkipVerifyTLS of mail.go:99-193: the same checks as Sendmail, then
   * the session Connect makes.
   */
  method SendmailSkipVerifyTLS(t: Transport, splitHostPort: string -> Result<string, string>,
                               addr: string, from: string, password: string,
                               to: seq<string>, cc: seq<string>, bcc: seq<string>,
                               sub: seq<byte>, msg: seq<byte>)
    returns (err: Option<Error>)
    modifies t
    ensures var s := SkipVerifySession(t.server, old(t.trace), splitHostPort,
                                       Request(addr, from, password, to, cc, bcc, sub, msg));
      t.trace == old(t.trace) + s.0 && err == s.1
  {
    var split := splitHostPort(addr);
    if split.Failure? {
      return Some(Foreign(split.error));
    }
    var host := split.value;
    if from == "" {
      return Some(ErrNoMailFrom);
    }
    if |to| < 1 {
      return Some(ErrNoMailTo);
    }
    err := Connect(t, addr, host, from, password, to, cc, bcc, sub, msg);
  }

  /**
   * The session of SendmailSkipVerifyTLS once the checks passed
   * (mail.go:114-192): Dial, then Converse if Dial succeeded, then the
   * deferred Close, whose error is dropped.
   */
  method Connect(t: Transport, addr: string, host: string, from: string, password: string,
                 to: seq<string>, cc: seq<string>, bcc: seq<string>,
                 sub: seq<byte>, msg: seq<byte>)
    returns (err: Option<Error>)
    modifies t
    ensures var plan := [Dial(addr)] + Conversation(host, from, password, Recipients(to, cc, bcc), Rendered(from, to, cc, bcc, sub, msg));
      t.trace == old(t.trace) + Session(t.server, old(t.trace), plan) && err == Outcome(Run(t.server, old(t.trace), plan))
  {
    ghost var history := t.trace;
    ghost var conversation := Conversation(host, from, password, Recipients(to, cc, bcc), Rendered(from, to, cc, bcc, sub, msg));
    ghost var plan := [Dial(addr)] + conversation;
    var reply := t.Issue(Dial(addr));
    ghost var dial := Event(Dial(addr), reply);
    RunStep(t.server, history, plan, dial);
    assert plan[1..] == conversation;
    if reply.Fail? {
      assert Run(t.server, history, plan) == [dial];
      return Some(Foreign(reply.reason));
    }
    err := Converse(t, host, from, password, to, cc, bcc, sub, msg);
    ghost var ev := Run(t.server, history, plan);
    assert ev == [dial] + Run(t.server, history + [dial], conversation);
    ConcatAssoc(history, [dial], Run(t.server, history + [dial], conversation));
    assert t.trace == history + ev;
    // the deferred Close: its error is not returned
    var closed := t.Issue(Close);
  }

  // ---------------------------------------------------------------------
  // What the session promises. Each lemma is about the session of a plan
  // for any host, sender, password, recipient list and payload; the
  // session of SendmailSkipVerifyTLS is one of these (SkipVerifySession).

  /** Event i of a session is event i of the run, or the deferred Close made after it. */
  lemma SessionAt(server: Server, history: seq<Event>, plan: seq<Call>, i: nat)
    requires |plan| > 0
    ensures var ev := Run(server, history, plan);
      var tr := Session(server, history, plan);
      && |tr| == |ev| + (if ev[0].reply.Ok? then 1 else 0)
      && (i < |ev| ==> tr[i] == ev[i] && ev[i].call == plan[i])
      && (|ev| <= i < |tr| ==> tr[i].call == Close)
  {
    RunFollowsPlan(server, history, plan);
  }

  /**
   * A rejected recipient ends the session: the error of that Rcpt call is
   * returned, Data is never called, and the only call after it is the
   * deferred Close.
   */
  lemma RcptFailureAborts(server: Server, history: seq<Event>, addr: string, host: string, from: string,
                          password: string, rcpts: seq<string>, payload: string, k: nat)
    requires var tr := Session(server, history, Plan(addr, host, from, password, rcpts, payload));
      k < |tr| && tr[k].call.Rcpt? && tr[k].reply.Fail?
    ensures var plan := Plan(addr, host, from, password, rcpts, payload);
      var tr := Session(server, history, plan);
      && k == |tr| - 2 && tr[|tr| - 1].call == Close
      && Outcome(Run(server, history, plan)) == Some(Foreign(tr[k].reply.reason))
      && forall j :: 0 <= j < |tr| ==> !tr[j].call.Data?
  {
    var plan := Plan(addr, host, from, password, rcpts, payload);
    var ev := Run(server, history, plan);
    var tr := Session(server, history, plan);
    RunFollowsPlan(server, history, plan);
    SessionAt(server, history, plan, k);
    PlanAt(addr, host, from, password, rcpts, payload, k);
    PlanAt(addr, host, from, password, rcpts, payload, 0);
    assert k == |ev| - 1 && k != 0;
    SessionAt(server, history, plan, |tr| - 1);
    forall j | 0 <= j < |tr|
      ensures !tr[j].call.Data?
    {
      SessionAt(server, history, plan, j);
      PlanAt(addr, host, from, password, rcpts, payload, j);
    }
  }

  /**
   * The Rcpt calls name the recipient list in order: a prefix of it in
   * every session, and all of it in a session that reached Data.
   */
  lemma RecipientsInOrder(server: Server, history: seq<Event>, addr: string, host: string, from: string,
                          password: string, rcpts: seq<string>, payload: string)
    ensures var tr := Session(server, history, Plan(addr, host, from, password, rcpts, payload));
      && RcptsOf(tr) <= rcpts
      && ((exists j :: 0 <= j < |tr| && tr[j].call.Data?) ==> RcptsOf(tr) == rcpts)
  {
    var plan := Plan(addr, host, from, password, rcpts, payload);
    var ev := Run(server, history, plan);
    var tr := Session(server, history, plan);
    RunFollowsPlan(server, history, plan);
    var o := |AuthStep(from, password, host)| + 3;
    PlanRcptStretch(addr, host, from, password, rcpts, payload);
    RcptsOfRun(ev, plan, o, rcpts);
    SessionAt(server, history, plan, |ev|);
    if ev[0].reply.Ok? {
      assert tr[..|tr| - 1] == ev;
    }
    assert RcptsOf(tr) == RcptsOf(ev);
    if exists j :: 0 <= j < |tr| && tr[j].call.Data? {
      var j :| 0 <= j < |tr| && tr[j].call.Data?;
      SessionAt(server, history, plan, j);
      PlanAt(addr, host, from, password, rcpts, payload, j);
      assert Clamp(|ev| - o, |rcpts|) == |rcpts|;
    }
  }

  /**
   * Auth is called exactly when a password is given and StartTLS
   * succeeded, with PLAIN credentials for the host; StartTLS never
   * verifies the certificate.
   */
  lemma AuthOnlyWithPassword(server: Server, history: seq<Event>, addr: string, host: string, from: string,
                             password: string, rcpts: seq<string>, payload: string)
    ensures var tr := Session(server, history, Plan(addr, host, from, password, rcpts, payload));
      && ((exists i :: 0 <= i < |tr| && tr[i].call.Auth?) <==>
          password != "" && exists i :: 0 <= i < |tr| && tr[i].call.StartTLS? && tr[i].reply.Ok?)
      && (forall i :: 0 <= i < |tr| && tr[i].call.Auth? ==> tr[i].call.cred == PlainAuth("", from, password, host))
      && (forall i :: 0 <= i < |tr| && tr[i].call.StartTLS? ==> tr[i].call.insecureSkipVerify)
  {
    var plan := Plan(addr, host, from, password, rcpts, payload);
    var ev := Run(server, history, plan);
    var tr := Session(server, history, plan);
    RunFollowsPlan(server, history, plan);
    forall i | 0 <= i < |tr|
      ensures tr[i].call.Auth? ==> password != "" && i == 2 && tr[i].call.cred == PlainAuth("", from, password, host)
      ensures tr[i].call.StartTLS? ==> i == 1 && tr[i].call.insecureSkipVerify
    {
      SessionAt(server, history, plan, i);
      PlanAt(addr, host, from, password, rcpts, payload, i);
    }
    if exists i :: 0 <= i < |tr| && tr[i].call.Auth? {
      var i :| 0 <= i < |tr| && tr[i].call.Auth?;
      SessionAt(server, history, plan, 1);
      PlanAt(addr, host, from, password, rcpts, payload, 1);
      assert tr[1].call.StartTLS? && tr[1].reply.Ok?;
    }
    if password != "" && exists i :: 0 <= i < |tr| && tr[i].call.StartTLS? && tr[i].reply.Ok? {
      var i :| 0 <= i < |tr| && tr[i].call.StartTLS? && tr[i].reply.Ok?;
      SessionAt(server, history, plan, 1);
      PlanAt(addr, host, from, password, rcpts, payload, 1);
      PlanAt(addr, host, from, password, rcpts, payload, 2);
      assert |ev| > 2;
      SessionAt(server, history, plan, 2);
      assert tr[2].call.Auth?;
    }
  }

  /**
   * The deferred Close: the connection is closed exactly when Dial
   * succeeded, by the last call of the session, and only once.
   */
  lemma ClosedOnceAfterDial(server: Server, history: seq<Event>, addr: string, host: string, from: string,
                            password: string, rcpts: seq<string>, payload: string)
    ensures var tr := Session(server, history, Plan(addr, host, from, password, rcpts, payload));
      && tr[0].call == Dial(addr)
      && ((exists i :: 0 <= i < |tr| && tr[i].call.Close?) <==> tr[0].reply.Ok?)
      && (tr[0].reply.Ok? ==> tr[|tr| - 1].call.Close? && forall i :: 0 <= i < |tr| - 1 ==> !tr[i].call.Close?)
  {
    var plan := Plan(addr, host, from, password, rcpts, payload);
    var ev := Run(server, history, plan);
    var tr := Session(server, history, plan);
    PlanAt(addr, host, from, password, rcpts, payload, 0);
    SessionAt(server, history, plan, 0);
    SessionAt(server, history, plan, |ev|);
    forall i | 0 <= i < |tr|
      ensures tr[i].call.Close? <==> i == |ev|
    {
      SessionAt(server, history, plan, i);
      PlanAt(addr, host, from, password, rcpts, payload, i);
    }
  }

  /** The plan ends with its only Quit and plans no Close. */
  ghost predicate QuitsLast(plan: seq<Call>)
  {
    && |plan| > 0 && plan[|plan| - 1] == Quit
    && forall i :: 0 <= i < |plan| ==> !plan[i].Close? && (plan[i].Quit? ==> i == |plan| - 1)
  }

  lemma PlanQuitsLast(addr: string, host: string, from: string, password: string,
                      rcpts: seq<string>, payload: string)
    ensures QuitsLast(Plan(addr, host, from, password, rcpts, payload))
  {
    forall i: nat { PlanAt(addr, host, from, password, rcpts, payload, i); }
  }

  /** NilOnlyAfterQuit for any plan that ends with its only Quit. */
  lemma SessionOutcome(server: Server, history: seq<Event>, plan: seq<Call>)
    requires QuitsLast(plan)
    ensures var tr := Session(server, history, plan);
      var err := Outcome(Run(server, history, plan));
      var k := if tr[|tr| - 1].call.Close? then |tr| - 2 else |tr| - 1;
      && (err.None? <==> exists i :: 0 <= i < |tr| && tr[i].call.Quit? && tr[i].reply.Ok?)
      && (err.Some? ==> 0 <= k && tr[k].reply.Fail? && err == Some(Foreign(tr[k].reply.reason)))
      && (forall j :: 0 <= j < k ==> tr[j].reply.Ok?)
  {
    var ev := Run(server, history, plan);
    var tr := Session(server, history, plan);
    RunFollowsPlan(server, history, plan);
    var k := |ev| - 1;
    SessionAt(server, history, plan, k);
    SessionAt(server, history, plan, |tr| - 1);
    assert k == if tr[|tr| - 1].call.Close? then |tr| - 2 else |tr| - 1;
    forall i | 0 <= i < |tr|
      ensures tr[i].call.Quit? ==> i == k && |ev| == |plan|
      ensures i < k ==> tr[i].reply.Ok?
    {
      SessionAt(server, history, plan, i);
    }
    if ev[k].reply.Ok? {
      assert tr[k].call.Quit? && tr[k].reply.Ok?;
    }
  }

  /**
   * The session's error is nil exactly when Quit succeeded; otherwise it
   * is the error of the one call that failed, which is the last call
   * before Close and follows only successes.
   */
  lemma NilOnlyAfterQuit(server: Server, history: seq<Event>, addr: string, host: string, from: string,
                         password: string, rcpts: seq<string>, payload: string)
    ensures var plan := Plan(addr, host, from, password, rcpts, payload);
      var tr := Session(server, history, plan);
      var err := Outcome(Run(server, history, plan));
      var k := if tr[|tr| - 1].call.Close? then |tr| - 2 else |tr| - 1;
      && (err.None? <==> exists i :: 0 <= i < |tr| && tr[i].call.Quit? && tr[i].reply.Ok?)
      && (err.Some? ==> 0 <= k && tr[k].reply.Fail? && err == Some(Foreign(tr[k].reply.reason)))
      && (forall j :: 0 <= j < k ==> tr[j].reply.Ok?)
  {
    PlanQuitsLast(addr, host, from, password, rcpts, payload);
    SessionOutcome(server, history, Plan(addr, host, from, password, rcpts, payload));
  }

  /**
   * What the session hands over: Mail names the sender, the write after
   * Data carries the payload, and a session that reached Data named every
   * recipient.
   */
  lemma SessionCarriesMessage(server: Server, history: seq<Event>, addr: string, host: string, from: string,
                              password: string, rcpts: seq<string>, payload: string)
    ensures var tr := Session(server, history, Plan(addr, host, from, password, rcpts, payload));
      && (forall j :: 0 <= j < |tr| && tr[j].call.Mail? ==> tr[j].call.from == from)
      && (forall j :: 0 <= j < |tr| && tr[j].call.Write? ==> tr[j].call.payload == payload)
      && (forall j :: 0 <= j < |tr| && tr[j].call.Data? ==> RcptsOf(tr) == rcpts)
  {
    var plan := Plan(addr, host, from, password, rcpts, payload);
    var tr := Session(server, history, plan);
    RecipientsInOrder(server, history, addr, host, from, password, rcpts, payload);
    forall j | 0 <= j < |tr|
      ensures tr[j].call.Mail? ==> tr[j].call.from == from
      ensures tr[j].call.Write? ==> tr[j].call.payload == payload
    {
      SessionAt(server, history, plan, j);
      PlanAt(addr, host, from, password, rcpts, payload, j);
    }
  }

  /**
   * Both operations hand over the same message: the SendMail call of
   * Sendmail carries the sender, payload and recipients that
   * SendmailSkipVerifyTLS gives to Mail, to the write after Data and to
   * its Rcpt calls.
   */
  lemma SameMessageBothWays(server1: Server, history1: seq<Event>, server2: Server, history2: seq<Event>,
                            splitHostPort: string -> Result<string, string>, r: Request)
    ensures var tr1 := SendmailSession(server1, history1, splitHostPort, r).0;
      var tr2 := SkipVerifySession(server2, history2, splitHostPort, r).0;
      && (forall i, j :: 0 <= i < |tr1| && 0 <= j < |tr2| && tr2[j].call.Mail? ==>
            tr1[i].call.SendMail? && tr1[i].call.from == tr2[j].call.from)
      && (forall i, j :: 0 <= i < |tr1| && 0 <= j < |tr2| && tr2[j].call.Write? ==>
            tr1[i].call.SendMail? && tr1[i].call.payload == tr2[j].call.payload)
      && (forall i, j :: 0 <= i < |tr1| && 0 <= j < |tr2| && tr2[j].call.Data? ==>
            tr1[i].call.SendMail? && tr1[i].call.rcpts == RcptsOf(tr2))
  {
    var split := Precheck(splitHostPort(r.addr), r.from, r.to);
    if split.Success? {
      var payload := r.Payload();
      var rcpts := r.Rcpts();
      SessionCarriesMessage(server2, history2, r.addr, split.value, r.from, r.password, rcpts, payload);
    }
  }
}
