/**
 * String helpers of mail.go: the hand-written Join (mail.go:22-33), and a
 * view of a CRLF-terminated text as its list of lines, used to state what
 * the rendered message looks like line by line.
 */
module Strings {

  /**
   * The join that Join computes: the elements in order, with sep between
   * two adjacent elements and none at either end. Defined the way the loop
   * accumulates, from the left.
   */
  function Joined(a: seq<string>, sep: string): string
    decreases |a|
  {
    if |a| == 0 then ""
    else if |a| == 1 then a[0]
    else Joined(a[..|a| - 1], sep) + sep + a[|a| - 1]
  }

  /** Join of mail.go: the first element starts the result, every later one is added after sep. */
  method Join(a: seq<string>, sep: string) returns (s: string)
    ensures s == Joined(a, sep)
  {
    s := "";
    for i := 0 to |a|
      invariant s == Joined(a[..i], sep)
    {
      if i == 0 {
        s := a[i];
        continue;
      }
      assert a[..i + 1][..i] == a[..i];
      s := s + sep + a[i];
    }
    assert a[..|a|] == a;
  }

  /** The strings of ss one after another. */
  function Concat(ss: seq<string>): string
    decreases |ss|
  {
    if |ss| == 0 then "" else ss[0] + Concat(ss[1..])
  }

  /** Every element of a with sep in front of it. */
  function Prefixed(sep: string, a: seq<string>): (r: seq<string>)
    ensures |r| == |a| && forall i :: 0 <= i < |a| ==> r[i] == sep + a[i]
  {
    seq(|a|, i requires 0 <= i < |a| => sep + a[i])
  }

  lemma {:induction false} ConcatSnoc(ss: seq<string>, x: string)
    ensures Concat(ss + [x]) == Concat(ss) + x
    decreases |ss|
  {
    if |ss| > 0 {
      assert (ss + [x])[1..] == ss[1..] + [x];
      ConcatSnoc(ss[1..], x);
    }
  }

  /**
   * The join read from the right: the first element, then every other
   * element preceded by sep.
   */
  lemma {:induction false} JoinedIsFirstThenPrefixed(a: seq<string>, sep: string)
    requires |a| >= 1
    ensures Joined(a, sep) == a[0] + Concat(Prefixed(sep, a[1..]))
    decreases |a|
  {
    if |a| > 1 {
      var init := a[..|a| - 1];
      JoinedIsFirstThenPrefixed(init, sep);
      assert init[1..] == a[1..|a| - 1];
      assert Prefixed(sep, a[1..]) == Prefixed(sep, a[1..|a| - 1]) + [sep + a[|a| - 1]];
      ConcatSnoc(Prefixed(sep, a[1..|a| - 1]), sep + a[|a| - 1]);
    }
  }

  /** Joining an empty slice gives the empty string. */
  lemma JoinedEmpty(sep: string)
    ensures Joined([], sep) == ""
  {
  }

  /** Joining a one-element slice gives that element unchanged. */
  lemma JoinedSingle(x: string, sep: string)
    ensures Joined([x], sep) == x
  {
  }

  /** Adding an element at the end of a non-empty slice adds sep and that element. */
  lemma JoinedSnoc(a: seq<string>, x: string, sep: string)
    requires |a| >= 1
    ensures Joined(a + [x], sep) == Joined(a, sep) + sep + x
  {
    assert (a + [x])[..|a|] == a;
  }

  /** Adding an element at the front of a non-empty slice adds that element and sep. */
  lemma {:induction false} JoinedCons(x: string, a: seq<string>, sep: string)
    requires |a| >= 1
    ensures Joined([x] + a, sep) == x + sep + Joined(a, sep)
    decreases |a|
  {
    var xa := [x] + a;
    if |a| == 1 {
      assert xa[..1] == [x];
    } else {
      var init := a[..|a| - 1];
      var last := a[|a| - 1];
      assert xa[..|xa| - 1] == [x] + init;
      JoinedCons(x, init, sep);
      calc {
        Joined(xa, sep);
        Joined([x] + init, sep) + sep + last;
        x + sep + Joined(init, sep) + sep + last;
        x + sep + (Joined(init, sep) + sep + last);
      }
    }
  }

  /**
   * With a non-empty separator the join is empty exactly when there is no
   * element, or a single empty one.
   */
  lemma {:induction false} JoinedEmptyIff(a: seq<string>, sep: string)
    requires sep != ""
    ensures Joined(a, sep) == "" <==> |a| == 0 || (|a| == 1 && a[0] == "")
  {
    if |a| > 1 {
      assert |Joined(a, sep)| >= |sep|;
    }
  }

  /** A character that is in no element and not in sep is not in the join. */
  lemma {:induction false} JoinedAvoids(a: seq<string>, sep: string, c: char)
    requires c !in sep
    requires forall i :: 0 <= i < |a| ==> c !in a[i]
    ensures c !in Joined(a, sep)
    decreases |a|
  {
    if |a| > 1 {
      JoinedAvoids(a[..|a| - 1], sep, c);
    }
  }

  /**
   * The lines of s: the pieces between the CRLF ("\r\n") sequences of s.
   * Text that ends with CRLF has an empty last line.
   */
  function Lines(s: string): (r: seq<string>)
    ensures |r| >= 1
    decreases |s|
  {
    if |s| == 0 then [""]
    else if |s| >= 2 && s[0] == '\r' && s[1] == '\n' then [""] + Lines(s[2..])
    else
      var rest := Lines(s[1..]);
      [[s[0]] + rest[0]] + rest[1..]
  }

  /** A text without a carriage return is a single line. */
  lemma {:induction false} LinesOfLine(s: string)
    requires '\r' !in s
    ensures Lines(s) == [s]
    decreases |s|
  {
    if |s| > 0 {
      LinesOfLine(s[1..]);
      assert [s[0]] + s[1..] == s;
    }
  }

  /** A CRLF between two texts separates the lines of the first from those of the second. */
  lemma {:induction false} LinesAppend(x: string, y: string)
    ensures Lines(x + "\r\n" + y) == Lines(x) + Lines(y)
    decreases |x|
  {
    var s := x + "\r\n" + y;
    if |x| == 0 {
      assert s == "\r\n" + y;
      assert s[2..] == y;
    } else if |x| == 1 {
      assert s[1..] == "\r\n" + y;
      assert s[1..][2..] == y;
      LinesAppend([], y);
      assert Lines(x[1..]) == [""];
    } else if x[0] == '\r' && x[1] == '\n' {
      assert s[2..] == x[2..] + "\r\n" + y;
      LinesAppend(x[2..], y);
    } else {
      assert s[0] == x[0] && s[1] == x[1];
      assert s[1..] == x[1..] + "\r\n" + y;
      LinesAppend(x[1..], y);
      var r := Lines(x[1..]);
      assert Lines(s[1..]) == r + Lines(y);
      HeadTail(r, Lines(y));
    }
  }

  /** The head and the tail of a concatenation whose first part is not empty. */
  lemma HeadTail<T>(r: seq<T>, t: seq<T>)
    requires |r| >= 1
    ensures (r + t)[0] == r[0] && (r + t)[1..] == r[1..] + t
  {
    assert (r + t)[1..] == r[1..] + t;
  }
}
