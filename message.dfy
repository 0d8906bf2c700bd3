/**
 * Rendering of the DATA payload and of the envelope recipient list, as
 * Sendmail builds them in a bytes.Buffer (mail.go:51-83) and
 * SendmailSkipVerifyTLS builds them again between its protocol steps
 * (mail.go:134-177).
 */
module Message {
  import opened Wrappers
  import opened Base64
  import opened Strings

  const CRLF: string := "\r\n"

  /** A growable text buffer, the model of bytes.Buffer. */
  class Buffer {
    var data: string

    constructor ()
      ensures data == ""
    {
      data := "";
    }

    method WriteString(s: string)
      modifies this
      ensures data == old(data) + s
    {
      data := data + s;
    }
  }

  /** The text of a header line, without its line end. */
  function HeaderLine(name: string, value: string): string
  {
    name + ": " + value
  }

  /** A header line as fmt.Sprintf("<name>: %s\r\n", value) formats it. */
  function Header(name: string, value: string): (h: string)
    ensures |h| == |name| + 2 + |value| + 2
    ensures h[..|name| + 2] == name + ": " && h[|name| + 2..|h| - 2] == value
    ensures h[|h| - 2..] == CRLF
  {
    HeaderLine(name, value) + CRLF
  }

  /** A header line that is written only when its value is not empty. */
  function OptionalHeader(name: string, value: string): string
  {
    if value != "" then Header(name, value) else ""
  }

  /** The subject as an RFC 2047 "B" encoded word in the UTF-8 charset. */
  function EncodedWord(sub: seq<byte>): (w: string)
    ensures |w| >= 12 && w[..10] == "=?UTF-8?B?" && w[|w| - 2..] == "?="
  {
    "=?UTF-8?B?" + Encode(sub) + "?="
  }

  /** The text between the markers of the encoded word decodes to the subject. */
  lemma EncodedWordDecodes(sub: seq<byte>)
    ensures var w := EncodedWord(sub);
      Decode(w[10..|w| - 2]) == Some(sub)
  {
    var w := EncodedWord(sub);
    assert w[10..|w| - 2] == Encode(sub);
    RoundTrip(sub);
  }

  /** The header lines of the payload, piece by piece, in the order the buffer is written. */
  function HeaderBlock(from: string, to: seq<string>, cc: seq<string>, bcc: seq<string>,
                       sub: seq<byte>): string
  {
    Header("Subject", EncodedWord(sub))
    + Header("From", from)
    + Header("To", Joined(to, ","))
    + OptionalHeader("Cc", Joined(cc, ","))
    + OptionalHeader("Bcc", Joined(bcc, ","))
    + Header("Content-Type", "text/html; charset=UTF-8")
    + Header("Content-Transfer-Encoding", "base64")
  }

  /** The payload: the headers, a blank line, the encoded body and a line end. */
  function Rendered(from: string, to: seq<string>, cc: seq<string>, bcc: seq<string>,
                    sub: seq<byte>, msg: seq<byte>): string
  {
    HeaderBlock(from, to, cc, bcc, sub) + CRLF + Encode(msg) + CRLF
  }

  /**
   * The envelope recipients: to, then cc when the Cc header is written,
   * then bcc when the Bcc header is written.
   */
  function Recipients(to: seq<string>, cc: seq<string>, bcc: seq<string>): (r: seq<string>)
    ensures to <= r
  {
    to
    + (if Joined(cc, ",") != "" then cc else [])
    + (if Joined(bcc, ",") != "" then bcc else [])
  }

  /**
   * Writes the From and To headers, then the Cc and Bcc headers when their
   * joined value is not empty, and returns the recipient list: to, followed
   * by cc and bcc when their header was written.
   */
  method WriteAddressHeaders(b: Buffer, from: string, to: seq<string>, cc: seq<string>, bcc: seq<string>)
    returns (rcpts: seq<string>)
    modifies b
    ensures b.data == old(b.data) + Header("From", from) + Header("To", Joined(to, ","))
      + OptionalHeader("Cc", Joined(cc, ",")) + OptionalHeader("Bcc", Joined(bcc, ","))
    ensures rcpts == Recipients(to, cc, bcc)
  {
    b.WriteString(Header("From", from));
    rcpts := to;
    var toHeader := Join(to, ",");
    b.WriteString(Header("To", toHeader));
    ghost var head := old(b.data) + Header("From", from) + Header("To", Joined(to, ","));
    assert b.data == head;
    var ccHeader := Join(cc, ",");
    if ccHeader != "" {
      b.WriteString(Header("Cc", ccHeader));
      rcpts := rcpts + cc;
    }
    head := head + OptionalHeader("Cc", Joined(cc, ","));
    assert b.data == head;
    assert rcpts == to + (if Joined(cc, ",") != "" then cc else []);
    var bccHeader := Join(bcc, ",");
    if bccHeader != "" {
      b.WriteString(Header("Bcc", bccHeader));
      rcpts := rcpts + bcc;
    }
  }

  /**
   * Sendmail's composition (mail.go:51-83): the payload written to a
   * buffer, and the recipient list grown by the cc and bcc addresses whose
   * header was written.
   */
  method Compose(from: string, to: seq<string>, cc: seq<string>, bcc: seq<string>,
                 sub: seq<byte>, msg: seq<byte>)
    returns (payload: string, rcpts: seq<string>)
    ensures payload == Rendered(from, to, cc, bcc, sub, msg)
    ensures rcpts == Recipients(to, cc, bcc)
  {
    var b := new Buffer();
    b.WriteString(Header("Subject", EncodedWord(sub)));
    ghost var head := Header("Subject", EncodedWord(sub));
    assert b.data == head;
    rcpts := WriteAddressHeaders(b, from, to, cc, bcc);
    assert b.data == head + Header("From", from) + Header("To", Joined(to, ","))
      + OptionalHeader("Cc", Joined(cc, ",")) + OptionalHeader("Bcc", Joined(bcc, ","));
    b.WriteString(Header("Content-Type", "text/html; charset=UTF-8"));
    b.WriteString(Header("Content-Transfer-Encoding", "base64"));
    assert b.data == HeaderBlock(from, to, cc, bcc, sub);
    b.WriteString(CRLF);
    b.WriteString(Encode(msg));
    b.WriteString(CRLF);
    payload := b.data;
  }

  // ---------------------------------------------------------------------
  // The payload read back as lines

  /** The lines of a header that is written only when its value is not empty. */
  function OptionalLine(name: string, value: string): seq<string>
  {
    if value != "" then [HeaderLine(name, value)] else []
  }

  /** The header lines the payload is meant to start with, in order. */
  function HeaderLines(from: string, to: seq<string>, cc: seq<string>, bcc: seq<string>,
                       sub: seq<byte>): seq<string>
  {
    [HeaderLine("Subject", EncodedWord(sub)),
     HeaderLine("From", from),
     HeaderLine("To", Joined(to, ","))]
    + OptionalLine("Cc", Joined(cc, ","))
    + OptionalLine("Bcc", Joined(bcc, ","))
    + [HeaderLine("Content-Type", "text/html; charset=UTF-8"),
       HeaderLine("Content-Transfer-Encoding", "base64")]
  }

  /** The lines the payload is meant to consist of: headers, blank line, body, empty rest. */
  function RenderedLines(from: string, to: seq<string>, cc: seq<string>, bcc: seq<string>,
                         sub: seq<byte>, msg: seq<byte>): seq<string>
  {
    HeaderLines(from, to, cc, bcc, sub) + ["", Encode(msg), ""]
  }

  /** No text of the list contains a carriage return. */
  predicate NoCR(texts: seq<string>)
  {
    forall i :: 0 <= i < |texts| ==> '\r' !in texts[i]
  }

  /** Each line followed by CRLF, one after another. */
  function Unlines(ls: seq<string>): string
    decreases |ls|
  {
    if |ls| == 0 then "" else ls[0] + CRLF + Unlines(ls[1..])
  }

  lemma {:induction false} UnlinesAppend(a: seq<string>, b: seq<string>)
    ensures Unlines(a + b) == Unlines(a) + Unlines(b)
    decreases |a|
  {
    if |a| > 0 {
      assert (a + b)[0] == a[0] && (a + b)[1..] == a[1..] + b;
      UnlinesAppend(a[1..], b);
      calc {
        Unlines(a + b);
        a[0] + CRLF + Unlines(a[1..] + b);
        a[0] + CRLF + (Unlines(a[1..]) + Unlines(b));
        (a[0] + CRLF + Unlines(a[1..])) + Unlines(b);
      }
    } else {
      assert a + b == b;
      assert Unlines(a) + Unlines(b) == Unlines(b);
    }
  }

  lemma UnlinesSnoc(ls: seq<string>, l: string)
    ensures Unlines(ls + [l]) == Unlines(ls) + (l + CRLF)
  {
    UnlinesAppend(ls, [l]);
    assert Unlines([l]) == l + CRLF + Unlines([]);
  }

  /** Lines without a carriage return, each ended by CRLF, read back as those lines. */
  lemma {:induction false} LinesOfUnlines(ls: seq<string>)
    requires NoCR(ls)
    ensures Lines(Unlines(ls)) == ls + [""]
    decreases |ls|
  {
    if |ls| > 0 {
      assert '\r' !in ls[0];
      LinesOfUnlines(ls[1..]);
      LinesOfLine(ls[0]);
      LinesAppend(ls[0], Unlines(ls[1..]));
      assert Unlines(ls) == ls[0] + "\r\n" + Unlines(ls[1..]);
      assert Lines(Unlines(ls)) == [ls[0]] + (ls[1..] + [""]);
      assert ls == [ls[0]] + ls[1..];
    }
  }

  lemma OptionalHeaderIsUnlines(name: string, value: string)
    ensures OptionalHeader(name, value) == Unlines(OptionalLine(name, value))
  {
    if value != "" {
      UnlinesSnoc([], HeaderLine(name, value));
    }
  }

  lemma UnlinesThree(a: string, b: string, c: string)
    ensures Unlines([a, b, c]) == (a + CRLF) + (b + CRLF) + (c + CRLF)
  {
    UnlinesSnoc([a, b], c);
    UnlinesSnoc([a], b);
    UnlinesSnoc([], a);
    assert [a, b, c] == [a, b] + [c] && [a, b] == [a] + [b] && [a] == [] + [a];
  }

  /** The header block is exactly its header lines, each ended by CRLF. */
  lemma HeaderBlockIsUnlines(from: string, to: seq<string>, cc: seq<string>, bcc: seq<string>,
                             sub: seq<byte>)
    ensures HeaderBlock(from, to, cc, bcc, sub) == Unlines(HeaderLines(from, to, cc, bcc, sub))
  {
    var first := [HeaderLine("Subject", EncodedWord(sub)), HeaderLine("From", from), HeaderLine("To", Joined(to, ","))];
    var occ := OptionalLine("Cc", Joined(cc, ","));
    var obcc := OptionalLine("Bcc", Joined(bcc, ","));
    var ct := HeaderLine("Content-Type", "text/html; charset=UTF-8");
    var cte := HeaderLine("Content-Transfer-Encoding", "base64");
    UnlinesThree(first[0], first[1], first[2]);
    UnlinesAppend(first, occ);
    OptionalHeaderIsUnlines("Cc", Joined(cc, ","));
    UnlinesAppend(first + occ, obcc);
    OptionalHeaderIsUnlines("Bcc", Joined(bcc, ","));
    UnlinesSnoc(first + occ + obcc, ct);
    UnlinesSnoc(first + occ + obcc + [ct], cte);
    assert HeaderLines(from, to, cc, bcc, sub) == first + occ + obcc + [ct] + [cte];
  }

  /** The lines of x, CRLF, the body and a final CRLF. */
  lemma LinesOfBodyAfter(x: string, body: string)
    requires '\r' !in body
    ensures Lines(x + CRLF + body + CRLF) == Lines(x) + [body, ""]
  {
    LinesOfUnlines([body]);
    UnlinesSnoc([], body);
    assert x + CRLF + body + CRLF == x + "\r\n" + Unlines([body]);
    LinesAppend(x, Unlines([body]));
  }

  /** The encoded body has no carriage return, so it is one line. */
  lemma EncodedHasNoCR(b: seq<byte>)
    ensures '\r' !in Encode(b)
  {
    var e := Encode(b);
    EncodeAlphabet(b);
    assert forall i :: 0 <= i < |e| ==> e[i] != '\r';
  }

  /** A header line of a name and a value without carriage return has none. */
  lemma HeaderLineNoCR(name: string, value: string)
    requires '\r' !in name && '\r' !in value
    ensures '\r' !in HeaderLine(name, value)
  {
  }

  /** With addresses free of carriage returns, so are all the header lines. */
  lemma HeaderLinesNoCR(from: string, to: seq<string>, cc: seq<string>, bcc: seq<string>,
                        sub: seq<byte>)
    requires '\r' !in from && NoCR(to) && NoCR(cc) && NoCR(bcc)
    ensures NoCR(HeaderLines(from, to, cc, bcc, sub))
  {
    var w := EncodedWord(sub);
    EncodedHasNoCR(sub);
    assert w == "=?UTF-8?B?" + Encode(sub) + "?=";
    JoinedAvoids(to, ",", '\r');
    JoinedAvoids(cc, ",", '\r');
    JoinedAvoids(bcc, ",", '\r');
    HeaderTextsNoCR(w, from, Joined(to, ","), Joined(cc, ","), Joined(bcc, ","));
  }

  /** The same for any header values without a carriage return. */
  lemma HeaderTextsNoCR(subject: string, from: string, to: string, cc: string, bcc: string)
    requires '\r' !in subject && '\r' !in from && '\r' !in to && '\r' !in cc && '\r' !in bcc
    ensures NoCR([HeaderLine("Subject", subject), HeaderLine("From", from), HeaderLine("To", to)]
                 + OptionalLine("Cc", cc) + OptionalLine("Bcc", bcc)
                 + [HeaderLine("Content-Type", "text/html; charset=UTF-8"),
                    HeaderLine("Content-Transfer-Encoding", "base64")])
  {
    var top := [HeaderLine("Subject", subject), HeaderLine("From", from), HeaderLine("To", to)];
    var c := OptionalLine("Cc", cc);
    var bc := OptionalLine("Bcc", bcc);
    var bottom := [HeaderLine("Content-Type", "text/html; charset=UTF-8"),
                   HeaderLine("Content-Transfer-Encoding", "base64")];
    HeaderLineNoCR("Subject", subject);
    HeaderLineNoCR("From", from);
    HeaderLineNoCR("To", to);
    HeaderLineNoCR("Cc", cc);
    HeaderLineNoCR("Bcc", bcc);
    HeaderLineNoCR("Content-Type", "text/html; charset=UTF-8");
    HeaderLineNoCR("Content-Transfer-Encoding", "base64");
    assert NoCR(top) && NoCR(c) && NoCR(bc) && NoCR(bottom);
    NoCRConcat(top, c);
    NoCRConcat(top + c, bc);
    NoCRConcat(top + c + bc, bottom);
  }

  /** Texts without a carriage return, put together, still have none. */
  lemma NoCRConcat(a: seq<string>, b: seq<string>)
    requires NoCR(a) && NoCR(b)
    ensures NoCR(a + b)
  {
    forall i | 0 <= i < |a + b|
      ensures '\r' !in (a + b)[i]
    {
      if i < |a| {
        assert (a + b)[i] == a[i];
      } else {
        assert (a + b)[i] == b[i - |a|];
      }
    }
  }

  /**
   * When no address contains a carriage return, the payload reads as
   * exactly these lines, in this order: Subject, From, To, Cc only when
   * its value is not empty, Bcc only when its value is not empty,
   * Content-Type, Content-Transfer-Encoding, a blank line, the encoded
   * body, and an empty remainder after the final CRLF.
   */
  lemma RenderedLineByLine(from: string, to: seq<string>, cc: seq<string>, bcc: seq<string>,
                           sub: seq<byte>, msg: seq<byte>)
    requires '\r' !in from && NoCR(to) && NoCR(cc) && NoCR(bcc)
    ensures Lines(Rendered(from, to, cc, bcc, sub, msg)) == RenderedLines(from, to, cc, bcc, sub, msg)
  {
    var hl := HeaderLines(from, to, cc, bcc, sub);
    HeaderBlockIsUnlines(from, to, cc, bcc, sub);
    EncodedHasNoCR(msg);
    HeaderLinesNoCR(from, to, cc, bcc, sub);
    LinesOfUnlines(hl);
    LinesOfBodyAfter(HeaderBlock(from, to, cc, bcc, sub), Encode(msg));
  }

  /** s begins with p. */
  predicate StartsWith(s: string, p: string)
  {
    |p| <= |s| && s[..|p|] == p
  }

  /** Some line is a header line with the given name. */
  predicate HasHeaderLine(lines: seq<string>, name: string)
  {
    exists i :: 0 <= i < |lines| && StartsWith(lines[i], name + ": ")
  }

  /** A header line is not a line of a header with another name. */
  lemma OtherHeaderLine(n: string, v: string, name: string)
    requires n != name && ':' !in n && ':' !in name
    ensures !StartsWith(HeaderLine(n, v), name + ": ")
  {
    var line := HeaderLine(n, v);
    assert line[..|n|] == n && line[|n|] == ':';
    if |name| < |n| {
      assert line[|name|] == n[|name|] != ':';
    } else if |n| < |name| {
      assert name[|n|] != ':';
    }
  }

  /** The encoded body is not a header line of any name. */
  lemma EncodedNotHeader(b: seq<byte>, name: string)
    ensures !StartsWith(Encode(b), name + ": ")
  {
    var e := Encode(b);
    var p := name + ": ";
    if |p| <= |e| {
      EncodeAlphabet(b);
      assert IsEncodedChar(e[|name|]) && !IsEncodedChar(':');
      assert e[..|p|][|name|] == e[|name|] != p[|name|];
    }
  }

  /** Among the intended lines, a Cc line is there exactly when the joined cc value is not empty. */
  lemma CcInRenderedLines(from: string, to: seq<string>, cc: seq<string>, bcc: seq<string>,
                          sub: seq<byte>, msg: seq<byte>)
    ensures HasHeaderLine(RenderedLines(from, to, cc, bcc, sub, msg), "Cc") <==> Joined(cc, ",") != ""
  {
    var lines := RenderedLines(from, to, cc, bcc, sub, msg);
    var k := |OptionalLine("Bcc", Joined(bcc, ","))|;
    if Joined(cc, ",") != "" {
      assert lines[3] == HeaderLine("Cc", Joined(cc, ","));
      assert StartsWith(lines[3], "Cc: ");
    } else {
      forall i | 0 <= i < |lines| ensures !StartsWith(lines[i], "Cc: ") {
        if i == 0 {
          OtherHeaderLine("Subject", EncodedWord(sub), "Cc");
        } else if i == 1 {
          OtherHeaderLine("From", from, "Cc");
        } else if i == 2 {
          OtherHeaderLine("To", Joined(to, ","), "Cc");
        } else if i < 3 + k {
          OtherHeaderLine("Bcc", Joined(bcc, ","), "Cc");
        } else if i == 3 + k {
          OtherHeaderLine("Content-Type", "text/html; charset=UTF-8", "Cc");
        } else if i == 4 + k {
          OtherHeaderLine("Content-Transfer-Encoding", "base64", "Cc");
        } else if i == 6 + k {
          EncodedNotHeader(msg, "Cc");
        }
      }
    }
  }

  /**
   * A Cc line is in the payload exactly when the joined cc value is not
   * empty, and then it is the fourth line, right after To.
   */
  lemma CcLineIff(from: string, to: seq<string>, cc: seq<string>, bcc: seq<string>,
                  sub: seq<byte>, msg: seq<byte>)
    requires '\r' !in from && NoCR(to) && NoCR(cc) && NoCR(bcc)
    ensures HasHeaderLine(Lines(Rendered(from, to, cc, bcc, sub, msg)), "Cc") <==> Joined(cc, ",") != ""
    ensures Joined(cc, ",") != "" ==>
      var lines := Lines(Rendered(from, to, cc, bcc, sub, msg));
      |lines| > 3 && lines[3] == HeaderLine("Cc", Joined(cc, ","))
  {
    RenderedLineByLine(from, to, cc, bcc, sub, msg);
    CcInRenderedLines(from, to, cc, bcc, sub, msg);
  }

  /** Among the intended lines, a Bcc line is there exactly when the joined bcc value is not empty. */
  lemma BccInRenderedLines(from: string, to: seq<string>, cc: seq<string>, bcc: seq<string>,
                           sub: seq<byte>, msg: seq<byte>)
    ensures HasHeaderLine(RenderedLines(from, to, cc, bcc, sub, msg), "Bcc") <==> Joined(bcc, ",") != ""
  {
    var lines := RenderedLines(from, to, cc, bcc, sub, msg);
    var k := |OptionalLine("Cc", Joined(cc, ","))|;
    if Joined(bcc, ",") != "" {
      assert lines[3 + k] == HeaderLine("Bcc", Joined(bcc, ","));
      assert StartsWith(lines[3 + k], "Bcc: ");
    } else {
      forall i | 0 <= i < |lines| ensures !StartsWith(lines[i], "Bcc: ") {
        if i == 0 {
          OtherHeaderLine("Subject", EncodedWord(sub), "Bcc");
        } else if i == 1 {
          OtherHeaderLine("From", from, "Bcc");
        } else if i == 2 {
          OtherHeaderLine("To", Joined(to, ","), "Bcc");
        } else if i < 3 + k {
          OtherHeaderLine("Cc", Joined(cc, ","), "Bcc");
        } else if i == 3 + k {
          OtherHeaderLine("Content-Type", "text/html; charset=UTF-8", "Bcc");
        } else if i == 4 + k {
          OtherHeaderLine("Content-Transfer-Encoding", "base64", "Bcc");
        } else if i == 6 + k {
          EncodedNotHeader(msg, "Bcc");
        }
      }
    }
  }

  /**
   * A Bcc line is in the payload exactly when the joined bcc value is not
   * empty, and then it comes after To and any Cc line, right before
   * Content-Type.
   */
  lemma BccLineIff(from: string, to: seq<string>, cc: seq<string>, bcc: seq<string>,
                   sub: seq<byte>, msg: seq<byte>)
    requires '\r' !in from && NoCR(to) && NoCR(cc) && NoCR(bcc)
    ensures HasHeaderLine(Lines(Rendered(from, to, cc, bcc, sub, msg)), "Bcc") <==> Joined(bcc, ",") != ""
    ensures Joined(bcc, ",") != "" ==>
      var lines := Lines(Rendered(from, to, cc, bcc, sub, msg));
      var k := if Joined(cc, ",") != "" then 4 else 3;
      |lines| > k + 1 && lines[k] == HeaderLine("Bcc", Joined(bcc, ","))
        && lines[k + 1] == HeaderLine("Content-Type", "text/html; charset=UTF-8")
  {
    RenderedLineByLine(from, to, cc, bcc, sub, msg);
    BccInRenderedLines(from, to, cc, bcc, sub, msg);
  }

  /** The header block ends with the CRLF of its last line. */
  lemma HeaderBlockEndsWithCRLF(from: string, to: seq<string>, cc: seq<string>, bcc: seq<string>,
                                sub: seq<byte>)
    ensures var hb := HeaderBlock(from, to, cc, bcc, sub);
      |hb| >= 2 && hb[|hb| - 2..] == CRLF
  {
    var cte := Header("Content-Transfer-Encoding", "base64");
    var hb := HeaderBlock(from, to, cc, bcc, sub);
    assert hb[|hb| - |cte|..] == cte;
    assert cte[|cte| - 2..] == CRLF;
    assert hb[|hb| - 2..] == cte[|cte| - 2..];
  }

  /**
   * Whatever the addresses hold, the payload ends with a blank line, the
   * encoded body and the final CRLF, and the body line decodes to msg.
   */
  lemma BodyRoundTrip(from: string, to: seq<string>, cc: seq<string>, bcc: seq<string>,
                      sub: seq<byte>, msg: seq<byte>)
    ensures var lines := Lines(Rendered(from, to, cc, bcc, sub, msg));
      && |lines| >= 3
      && lines[|lines| - 3] == ""
      && Decode(lines[|lines| - 2]) == Some(msg)
      && lines[|lines| - 1] == ""
  {
    var hb := HeaderBlock(from, to, cc, bcc, sub);
    assert Rendered(from, to, cc, bcc, sub, msg) == hb + CRLF + Encode(msg) + CRLF;
    HeaderBlockEndsWithCRLF(from, to, cc, bcc, sub);
    BodyAfterHeaders(hb, msg);
  }

  /** The same for any header block that ends with CRLF. */
  lemma BodyAfterHeaders(hb: string, msg: seq<byte>)
    requires |hb| >= 2 && hb[|hb| - 2..] == CRLF
    ensures var lines := Lines(hb + CRLF + Encode(msg) + CRLF);
      && |lines| >= 3
      && lines[|lines| - 3] == ""
      && Decode(lines[|lines| - 2]) == Some(msg)
      && lines[|lines| - 1] == ""
  {
    var x := hb[..|hb| - 2];
    assert hb == x + "\r\n" + "";
    LinesAppend(x, "");
    EncodedHasNoCR(msg);
    LinesOfBodyAfter(hb, Encode(msg));
    RoundTrip(msg);
  }

  /** The payload starts with the Subject, From and To headers, in that order. */
  lemma RenderedStartsWithHeaders(from: string, to: seq<string>, cc: seq<string>, bcc: seq<string>,
                                  sub: seq<byte>, msg: seq<byte>)
    ensures StartsWith(Rendered(from, to, cc, bcc, sub, msg),
      Header("Subject", EncodedWord(sub)) + Header("From", from) + Header("To", Joined(to, ",")))
  {
    var p := Header("Subject", EncodedWord(sub)) + Header("From", from) + Header("To", Joined(to, ","));
    var c := OptionalHeader("Cc", Joined(cc, ","));
    var bc := OptionalHeader("Bcc", Joined(bcc, ","));
    var ct := Header("Content-Type", "text/html; charset=UTF-8");
    var cte := Header("Content-Transfer-Encoding", "base64");
    var e := Encode(msg);
    assert p[..|p|] == p;
    StartsWithAppend(p, p, c);
    StartsWithAppend(p + c, p, bc);
    StartsWithAppend(p + c + bc, p, ct);
    StartsWithAppend(p + c + bc + ct, p, cte);
    StartsWithAppend(p + c + bc + ct + cte, p, CRLF);
    StartsWithAppend(p + c + bc + ct + cte + CRLF, p, e);
    StartsWithAppend(p + c + bc + ct + cte + CRLF + e, p, CRLF);
  }

  /** A prefix of s is a prefix of s followed by anything. */
  lemma StartsWithAppend(s: string, p: string, q: string)
    requires StartsWith(s, p)
    ensures StartsWith(s + q, p)
  {
    assert (s + q)[..|p|] == s[..|p|];
  }

  /** An address is an envelope recipient exactly when it is in to or in a list whose header is written. */
  lemma RecipientsMembership(to: seq<string>, cc: seq<string>, bcc: seq<string>, x: string)
    ensures x in Recipients(to, cc, bcc) <==>
      x in to || (x in cc && Joined(cc, ",") != "") || (x in bcc && Joined(bcc, ",") != "")
  {
  }

  /**
   * The envelope holds every address of to, cc and bcc in that order,
   * except that a cc or bcc list holding only the empty string is dropped.
   */
  lemma RecipientsDropOnlyBlank(to: seq<string>, cc: seq<string>, bcc: seq<string>)
    ensures Recipients(to, cc, bcc) ==
      to + (if cc == [""] then [] else cc) + (if bcc == [""] then [] else bcc)
  {
    JoinedEmptyIff(cc, ",");
    JoinedEmptyIff(bcc, ",");
  }
}
