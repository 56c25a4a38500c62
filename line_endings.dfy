/**
 * Line-ending normalisation done by `data_eval` before parsing:
 * `source.replace("\r\n", "\n").replace("\r", "\n")`.
 */
module LineEndings {

  /**
   * Python's `str.replace(pattern, replacement)`: scan left to right and replace each
   * non-overlapping occurrence of `pattern`. The source only calls it with
   * non-empty patterns.
   */
  function Replace(s: string, pattern: string, replacement: string): string
    requires pattern != []
    decreases |s|
  {
    if s == [] then []
    else if pattern <= s then replacement + Replace(s[|pattern|..], pattern, replacement)
    else [s[0]] + Replace(s[1..], pattern, replacement)
  }

  function Normalize(s: string): string {
    Replace(Replace(s, "\r\n", "\n"), "\r", "\n")
  }

  /** The reference meaning, in one pass: `"\r\n"` and a lone `'\r'` each become one `'\n'`. */
  function OnePass(s: string): string
    decreases |s|
  {
    if s == [] then []
    else if |s| >= 2 && s[0] == '\r' && s[1] == '\n' then "\n" + OnePass(s[2..])
    else if s[0] == '\r' then "\n" + OnePass(s[1..])
    else [s[0]] + OnePass(s[1..])
  }

  lemma {:induction false} NormalizeIsOnePass(s: string)
    ensures Normalize(s) == OnePass(s)
    decreases |s|
  {
    if s == [] {
    } else if |s| >= 2 && s[0] == '\r' && s[1] == '\n' {
      var rest := Replace(s[2..], "\r\n", "\n");
      assert "\r\n" <= s;
      assert Replace(s, "\r\n", "\n") == "\n" + rest;
      assert Replace("\n" + rest, "\r", "\n") == "\n" + Replace(rest, "\r", "\n") by {
        assert ("\n" + rest)[1..] == rest;
      }
      NormalizeIsOnePass(s[2..]);
    } else {
      var rest := Replace(s[1..], "\r\n", "\n");
      assert Replace(s, "\r\n", "\n") == [s[0]] + rest;
      assert ([s[0]] + rest)[1..] == rest;
      NormalizeIsOnePass(s[1..]);
    }
  }

  /** The three cases that determine the normalisation completely. */
  lemma LineEndingCases(c: char, t: string)
    ensures Normalize("\r\n" + t) == "\n" + Normalize(t)
    ensures (t == [] || t[0] != '\n') ==> Normalize("\r" + t) == "\n" + Normalize(t)
    ensures c != '\r' ==> Normalize([c] + t) == [c] + Normalize(t)
  {
    NormalizeIsOnePass("\r\n" + t);
    NormalizeIsOnePass("\r" + t);
    NormalizeIsOnePass([c] + t);
    NormalizeIsOnePass(t);
    assert ("\r\n" + t)[2..] == t;
    assert ("\r" + t)[1..] == t;
    assert ([c] + t)[1..] == t;
  }

  lemma {:induction false} OnePassHasNoCr(s: string)
    ensures '\r' !in OnePass(s)
    decreases |s|
  {
    if s != [] {
      if |s| >= 2 && s[0] == '\r' && s[1] == '\n' {
        OnePassHasNoCr(s[2..]);
      } else {
        OnePassHasNoCr(s[1..]);
      }
    }
  }

  lemma {:induction false} OnePassKeepsCrFree(s: string)
    requires '\r' !in s
    ensures OnePass(s) == s
    decreases |s|
  {
    if s != [] {
      assert s[0] != '\r';
      OnePassKeepsCrFree(s[1..]);
    }
  }

  /** Normalised text holds no carriage return. */
  lemma NoCarriageReturn(s: string)
    ensures '\r' !in Normalize(s)
  {
    NormalizeIsOnePass(s);
    OnePassHasNoCr(s);
  }

  /** Text without a carriage return is left as it is. */
  lemma CrFreeUnchanged(s: string)
    requires '\r' !in s
    ensures Normalize(s) == s
  {
    NormalizeIsOnePass(s);
    OnePassKeepsCrFree(s);
  }

  lemma Idempotent(s: string)
    ensures Normalize(Normalize(s)) == Normalize(s)
  {
    NoCarriageReturn(s);
    CrFreeUnchanged(Normalize(s));
  }

  /** `lines` joined with `sep` between them. */
  function Joined(lines: seq<string>, sep: string): string
    decreases |lines|
  {
    if |lines| == 0 then ""
    else if |lines| == 1 then lines[0]
    else lines[0] + sep + Joined(lines[1..], sep)
  }

  predicate IsLine(w: string) {
    '\r' !in w && '\n' !in w
  }

  lemma OnePassCrLf(t: string)
    ensures OnePass("\r\n" + t) == "\n" + OnePass(t)
  {
    assert ("\r\n" + t)[2..] == t;
  }

  lemma OnePassCr(t: string)
    requires t == [] || t[0] != '\n'
    ensures OnePass("\r" + t) == "\n" + OnePass(t)
  {
    assert ("\r" + t)[1..] == t;
  }

  lemma OnePassOther(c: char, t: string)
    requires c != '\r'
    ensures OnePass([c] + t) == [c] + OnePass(t)
  {
    assert ([c] + t)[1..] == t;
  }

  lemma {:induction false} OnePassAppend(a: string, b: string)
    requires a == [] || a[|a| - 1] != '\r'
    ensures OnePass(a + b) == OnePass(a) + OnePass(b)
    decreases |a|
  {
    if a == [] {
      assert a + b == b;
    } else {
      var head := if |a| >= 2 && a[0] == '\r' && a[1] == '\n' then 2 else 1;
      var t := a[head..];
      assert a + b == a[..head] + (t + b);
      assert a == a[..head] + t;
      OnePassAppend(t, b);
      OnePassStep(a[..head], t, b);
    }
  }

  /** One step of the pass over `a`, which starts with the token `p`, carried over to `a + b`. */
  lemma OnePassStep(p: string, t: string, b: string)
    requires p == "\r\n" || (p == "\r" && t != [] && t[0] != '\n') || (|p| == 1 && p[0] != '\r')
    requires OnePass(t + b) == OnePass(t) + OnePass(b)
    ensures OnePass(p + (t + b)) == OnePass(p + t) + OnePass(b)
  {
    if p == "\r\n" {
      StepCrLf(t, b);
    } else if p == "\r" {
      StepCr(t, b);
    } else {
      assert p == [p[0]];
      StepOther(p[0], t, b);
    }
  }

  lemma StepCrLf(t: string, b: string)
    requires OnePass(t + b) == OnePass(t) + OnePass(b)
    ensures OnePass("\r\n" + (t + b)) == OnePass("\r\n" + t) + OnePass(b)
  {
    OnePassCrLf(t + b);
    OnePassCrLf(t);
  }

  lemma StepCr(t: string, b: string)
    requires t != [] && t[0] != '\n'
    requires OnePass(t + b) == OnePass(t) + OnePass(b)
    ensures OnePass("\r" + (t + b)) == OnePass("\r" + t) + OnePass(b)
  {
    assert (t + b)[0] == t[0];
    OnePassCr(t + b);
    OnePassCr(t);
  }

  lemma StepOther(c: char, t: string, b: string)
    requires c != '\r'
    requires OnePass(t + b) == OnePass(t) + OnePass(b)
    ensures OnePass([c] + (t + b)) == OnePass([c] + t) + OnePass(b)
  {
    calc {
      OnePass([c] + (t + b));
      { OnePassOther(c, t + b); }
      [c] + (OnePass(t) + OnePass(b));
      [c] + OnePass(t) + OnePass(b);
      { OnePassOther(c, t); }
      OnePass([c] + t) + OnePass(b);
    }
  }

  lemma JoinedCons(w: string, rest: seq<string>, sep: string)
    requires rest != []
    ensures Joined([w] + rest, sep) == w + sep + Joined(rest, sep)
  {
    assert ([w] + rest)[1..] == rest;
  }

  lemma JoinedSplit(lines: seq<string>, sep: string)
    requires |lines| >= 2
    ensures Joined(lines, sep) == lines[0] + (sep + Joined(lines[1..], sep))
  {
  }

  lemma {:induction false} JoinedStart(lines: seq<string>, sep: string)
    requires forall i :: 0 <= i < |lines| ==> IsLine(lines[i])
    requires sep == "\r\n" || sep == "\r"
    ensures Joined(lines, sep) == [] || Joined(lines, sep)[0] != '\n'
    decreases |lines|
  {
    if |lines| >= 2 {
      var w := lines[0];
      if w == [] {
        assert Joined(lines, sep)[0] == sep[0];
      } else {
        assert w[0] in w;
        assert Joined(lines, sep)[0] == w[0];
      }
    } else if |lines| == 1 {
      if lines[0] != [] {
        assert lines[0][0] in lines[0];
      }
    }
  }

  /** Lines joined by a separator without a carriage return hold none. */
  lemma {:induction false} JoinedCrFree(lines: seq<string>, sep: string)
    requires forall i :: 0 <= i < |lines| ==> IsLine(lines[i])
    requires '\r' !in sep
    ensures '\r' !in Joined(lines, sep)
    decreases |lines|
  {
    if |lines| == 1 {
      assert IsLine(lines[0]);
    } else if |lines| >= 2 {
      var tail := lines[1..];
      assert IsLine(lines[0]);
      assert forall i :: 0 <= i < |tail| ==> IsLine(tail[i]) by {
        forall i | 0 <= i < |tail| ensures tail[i] == lines[i + 1] { }
      }
      JoinedCrFree(tail, sep);
      JoinedSplit(lines, sep);
    }
  }

  /** A separator followed by a line becomes one `'\n'`. */
  lemma OnePassSeparator(sep: string, rest: string)
    requires sep == "\r\n" || sep == "\r"
    requires rest == [] || rest[0] != '\n'
    ensures OnePass(sep + rest) == "\n" + OnePass(rest)
  {
    if sep == "\r\n" {
      assert (sep + rest)[2..] == rest;
    } else {
      assert (sep + rest)[1..] == rest;
    }
  }

  lemma {:induction false} OnePassJoined(lines: seq<string>, sep: string)
    requires forall i :: 0 <= i < |lines| ==> IsLine(lines[i])
    requires sep == "\r\n" || sep == "\r"
    ensures OnePass(Joined(lines, sep)) == Joined(lines, "\n")
    decreases |lines|
  {
    if |lines| == 1 {
      OnePassKeepsCrFree(lines[0]);
    } else if |lines| >= 2 {
      var w, tail := lines[0], lines[1..];
      var rest := Joined(tail, sep);
      assert IsLine(w);
      assert forall i :: 0 <= i < |tail| ==> IsLine(tail[i]) by {
        forall i | 0 <= i < |tail| ensures tail[i] == lines[i + 1] { }
      }
      OnePassJoined(tail, sep);
      JoinedStart(tail, sep);
      OnePassSeparator(sep, rest);
      assert w == [] || w[|w| - 1] in w;
      OnePassAppend(w, sep + rest);
      OnePassKeepsCrFree(w);
      JoinedSplit(lines, sep);
      JoinedSplit(lines, "\n");
    }
  }

  /**
   * Line-ending insensitivity: lines separated by `"\r\n"` or by a lone
   * `'\r'` normalise to the same lines separated by `'\n'`.
   */
  lemma LineEndingInsensitive(lines: seq<string>, sep: string)
    requires forall i :: 0 <= i < |lines| ==> IsLine(lines[i])
    requires sep == "\r\n" || sep == "\r"
    ensures Normalize(Joined(lines, sep)) == Joined(lines, "\n")
  {
    NormalizeIsOnePass(Joined(lines, sep));
    OnePassJoined(lines, sep);
  }

  /** `"\r\n{\r\n'foo'\r\n:\r\n1\r\n}\r\n"` and `"\r{\r'foo'\r:\r1\r}\r"` are these lines joined. */
  lemma TestLinesJoined(sep: string)
    ensures Joined(["", "{", "'foo'", ":", "1", "}", ""], sep) == "" + sep + "{" + sep + "'foo'" + sep + ":" + sep + "1" + sep + "}" + sep + ""
  {
    JoinedCons("}", [""], sep);
    JoinedCons("1", ["}", ""], sep);
    JoinedCons(":", ["1", "}", ""], sep);
    JoinedCons("'foo'", [":", "1", "}", ""], sep);
    JoinedCons("{", ["'foo'", ":", "1", "}", ""], sep);
    JoinedCons("", ["{", "'foo'", ":", "1", "}", ""], sep);
  }

  lemma TestTexts()
    ensures "" + "\r\n" + "{" + "\r\n" + "'foo'" + "\r\n" + ":" + "\r\n" + "1" + "\r\n" + "}" + "\r\n" + "" == "\r\n{\r\n'foo'\r\n:\r\n1\r\n}\r\n"
    ensures "" + "\r" + "{" + "\r" + "'foo'" + "\r" + ":" + "\r" + "1" + "\r" + "}" + "\r" + "" == "\r{\r'foo'\r:\r1\r}\r"
    ensures "" + "\n" + "{" + "\n" + "'foo'" + "\n" + ":" + "\n" + "1" + "\n" + "}" + "\n" + "" == "\n{\n'foo'\n:\n1\n}\n"
  {
  }

  /** The two inputs of the line-ending unit test normalise to the same text. */
  lemma TestLineEndings()
    ensures Normalize("\r\n{\r\n'foo'\r\n:\r\n1\r\n}\r\n") == "\n{\n'foo'\n:\n1\n}\n"
    ensures Normalize("\r{\r'foo'\r:\r1\r}\r") == "\n{\n'foo'\n:\n1\n}\n"
  {
    var lines := ["", "{", "'foo'", ":", "1", "}", ""];
    assert forall i :: 0 <= i < |lines| ==> IsLine(lines[i]);
    LineEndingInsensitive(lines, "\r\n");
    LineEndingInsensitive(lines, "\r");
    TestLinesJoined("\r\n");
    TestLinesJoined("\r");
    TestLinesJoined("\n");
    TestTexts();
  }
}
