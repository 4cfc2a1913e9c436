/** The Python string operations the scripts rely on: `strip`, `startswith`,
    `split` (on whitespace and on a separator), `replace` and `str(int)`.
    Whitespace is exactly the set of characters `str.isspace` accepts, which
    is also the set `split()` and `strip()` cut at. Digits are the ASCII
    digits only. */
module Text {

  /** `c.isspace()`: tab, line feed, vertical tab, form feed and carriage
      return; the information separators 0x1C-0x1F; space; next line (0x85);
      no-break space (0xA0); and the Unicode spaces and separators 0x1680,
      0x2000-0x200A, 0x2028, 0x2029, 0x202F, 0x205F and 0x3000. */
  predicate IsSpace(c: char)
  {
    || '\t' <= c <= '\r' || '\U{1c}' <= c <= ' '
    || c == '\U{85}' || c == '\U{a0}' || c == '\U{1680}'
    || '\U{2000}' <= c <= '\U{200a}' || c == '\U{2028}' || c == '\U{2029}'
    || c == '\U{202f}' || c == '\U{205f}' || c == '\U{3000}'
  }

  /** An ASCII digit. `str.isdigit` also accepts other Unicode digits, which
      this model does not. */
  predicate IsDigit(c: char)
  {
    '0' <= c <= '9'
  }

  /** `str.isdigit()`: non-empty and made of digits only. */
  predicate IsDigits(s: string)
  {
    |s| > 0 && forall i :: 0 <= i < |s| ==> IsDigit(s[i])
  }

  /** `s.startswith(p)`. */
  predicate StartsWith(s: string, p: string)
  {
    |p| <= |s| && s[..|p|] == p
  }

  /** `line.strip().startswith(p)`. */
  predicate LineStartsWith(line: string, p: string)
  {
    StartsWith(Strip(line), p)
  }

  /** A token of `str.split()`: non-empty and free of whitespace. */
  predicate IsWord(w: string)
  {
    |w| > 0 && forall i :: 0 <= i < |w| ==> !IsSpace(w[i])
  }

  /** `s.lstrip()`: drops the leading whitespace and nothing else. */
  function LStrip(s: string): (r: string)
    ensures |r| <= |s| && r == s[|s| - |r|..]
    ensures r == [] || !IsSpace(r[0])
    ensures forall i :: 0 <= i < |s| - |r| ==> IsSpace(s[i])
  {
    if |s| > 0 && IsSpace(s[0]) then LStrip(s[1..]) else s
  }

  /** `s.rstrip()`: drops the trailing whitespace and nothing else. */
  function RStrip(s: string): (r: string)
    ensures |r| <= |s| && r == s[..|r|]
    ensures r == [] || !IsSpace(r[|r| - 1])
    ensures forall i :: |r| <= i < |s| ==> IsSpace(s[i])
  {
    if |s| > 0 && IsSpace(s[|s| - 1]) then RStrip(s[..|s| - 1]) else s
  }

  /** `s.strip()`. */
  function Strip(s: string): (r: string)
    ensures r == [] || (!IsSpace(r[0]) && !IsSpace(r[|r| - 1]))
  {
    LStrip(RStrip(s))
  }

  /** The longest prefix of `s` without whitespace. */
  function WordPrefix(s: string): (r: string)
    ensures |r| <= |s| && r == s[..|r|]
    ensures forall i :: 0 <= i < |r| ==> !IsSpace(r[i])
    ensures |r| == |s| || IsSpace(s[|r|])
    ensures |s| > 0 && !IsSpace(s[0]) ==> |r| > 0
  {
    if s == [] || IsSpace(s[0]) then [] else [s[0]] + WordPrefix(s[1..])
  }

  /** `s.split()`: the maximal runs of non-whitespace characters, in order. */
  function SplitWs(s: string): (r: seq<string>)
    decreases |s|
  {
    var t := LStrip(s);
    if t == [] then []
    else
      var w := WordPrefix(t);
      [w] + SplitWs(t[|w|..])
  }

  /** `s.split(d)` for a non-empty separator: every occurrence, scanning from
      the left, cuts the string; empty fields are kept. */
  function SplitOn(s: string, d: string): (r: seq<string>)
    requires |d| > 0
    ensures |r| >= 1
    decreases |s|
  {
    if |s| < |d| then [s]
    else if s[..|d|] == d then [""] + SplitOn(s[|d|..], d)
    else
      var rest := SplitOn(s[1..], d);
      [[s[0]] + rest[0]] + rest[1..]
  }

  /** `sep.join(ws)`. */
  function Join(ws: seq<string>, sep: string): string
  {
    if ws == [] then ""
    else if |ws| == 1 then ws[0]
    else ws[0] + sep + Join(ws[1..], sep)
  }

  /** `line.strip().split()`. */
  function Fields(line: string): seq<string>
  {
    SplitWs(Strip(line))
  }

  /** The line `' '.join(ws) + '\n'` a program writes for a row of words. */
  function SpacedLine(ws: seq<string>): string
  {
    Join(ws, " ") + "\n"
  }

  /** `s.replace(p, '')`: every occurrence of `p`, scanning from the left, is removed. */
  function RemoveAll(s: string, p: string): (r: string)
    ensures |r| <= |s|
    decreases |s|
  {
    if |p| == 0 || |s| < |p| then s
    else if s[..|p|] == p then RemoveAll(s[|p|..], p)
    else [s[0]] + RemoveAll(s[1..], p)
  }

  /** `s.replace('.', '', 1)`: the first dot, if any, is removed. */
  function RemoveFirstDot(s: string): (r: string)
  {
    if s == [] then []
    else if s[0] == '.' then s[1..]
    else [s[0]] + RemoveFirstDot(s[1..])
  }

  /** `str(n)` for a natural number. */
  function NatToString(n: nat): (r: string)
    ensures IsDigits(r)
  {
    var d := ['0' + (n % 10) as char];
    if n < 10 then d else NatToString(n / 10) + d
  }

  /** `str(i)` for an integer: digits, after a minus sign when negative. */
  function IntToString(i: int): (r: string)
    ensures IsWord(r)
    ensures i >= 0 ==> IsDigits(r)
    ensures i < 0 ==> r[0] == '-' && IsDigits(r[1..])
  {
    if i < 0 then "-" + NatToString(-i) else NatToString(i)
  }

  /** Words joined by single spaces neither start nor end with whitespace. */
  lemma {:induction false} JoinWordsEnds(ws: seq<string>)
    requires |ws| > 0 && forall i :: 0 <= i < |ws| ==> IsWord(ws[i])
    ensures var s := Join(ws, " "); |s| > 0 && !IsSpace(s[0]) && !IsSpace(s[|s| - 1])
  {
    if |ws| > 1 {
      JoinWordsEnds(ws[1..]);
    }
  }

  lemma {:induction false} RStripPadded(x: string, post: string)
    requires forall i :: 0 <= i < |post| ==> IsSpace(post[i])
    requires |x| > 0 && !IsSpace(x[|x| - 1])
    ensures RStrip(x + post) == x
  {
    if post == [] {
      assert x + post == x;
    } else {
      var s := x + post;
      assert s[..|s| - 1] == x + post[..|post| - 1];
      RStripPadded(x, post[..|post| - 1]);
    }
  }

  lemma {:induction false} LStripPadded(pre: string, x: string)
    requires forall i :: 0 <= i < |pre| ==> IsSpace(pre[i])
    requires |x| > 0 && !IsSpace(x[0])
    ensures LStrip(pre + x) == x
  {
    if pre == [] {
      assert pre + x == x;
    } else {
      assert (pre + x)[1..] == pre[1..] + x;
      LStripPadded(pre[1..], x);
    }
  }

  /** Surrounding whitespace does not survive `strip`. */
  lemma {:induction false} StripPadded(pre: string, x: string, post: string)
    requires forall i :: 0 <= i < |pre| ==> IsSpace(pre[i])
    requires forall i :: 0 <= i < |post| ==> IsSpace(post[i])
    requires |x| > 0 && !IsSpace(x[0]) && !IsSpace(x[|x| - 1])
    ensures Strip(pre + x + post) == x
  {
    assert pre + x + post == (pre + x) + post;
    RStripPadded(pre + x, post);
    LStripPadded(pre, x);
  }

  lemma {:induction false} WordPrefixAt(s: string, n: nat)
    requires 0 < n <= |s|
    requires forall i :: 0 <= i < n ==> !IsSpace(s[i])
    requires n == |s| || IsSpace(s[n])
    ensures WordPrefix(s) == s[..n]
  {
    if n > 1 {
      WordPrefixAt(s[1..], n - 1);
      assert [s[0]] + s[1..][..n - 1] == s[..n];
    }
  }

  /** A leading run of non-whitespace is the first token of `split()`. */
  lemma {:induction false} SplitFirst(s: string, n: nat)
    requires 0 < n <= |s|
    requires forall i :: 0 <= i < n ==> !IsSpace(s[i])
    requires n == |s| || IsSpace(s[n])
    ensures SplitWs(s) == [s[..n]] + SplitWs(s[n..])
  {
    assert LStrip(s) == s;
    WordPrefixAt(s, n);
  }

  /** Leading whitespace does not change `split()`. */
  lemma {:induction false} SplitSpace(x: string)
    ensures SplitWs(" " + x) == SplitWs(x)
  {
    assert (" " + x)[1..] == x;
    assert LStrip(" " + x) == LStrip(x);
  }

  lemma {:induction false} SplitOneWord(w: string)
    requires IsWord(w)
    ensures SplitWs(w) == [w]
  {
    var empty: string := [];
    assert SplitWs(empty) == [];
    assert w[..|w|] == w && w[|w|..] == empty;
    SplitFirst(w, |w|);
  }

  /** A word followed by a space is the first token of `split()`. */
  lemma {:induction false} SplitWordSpace(w: string, x: string)
    requires IsWord(w)
    ensures SplitWs(w + " " + x) == [w] + SplitWs(x)
  {
    var s := w + (" " + x);
    assert w + " " + x == s;
    assert s[..|w|] == w && s[|w|..] == " " + x;
    forall i | 0 <= i < |w|
      ensures !IsSpace(s[i])
    {
      assert s[i] == w[i];
    }
    assert s[|w|] == ' ';
    SplitFirst(s, |w|);
    SplitSpace(x);
  }

  lemma {:induction false} SplitWordAndTail(ws: seq<string>, sep: string)
    requires sep == " " && |ws| > 1 && IsWord(ws[0])
    requires SplitWs(Join(ws[1..], sep)) == ws[1..]
    ensures SplitWs(Join(ws, sep)) == ws
  {
    var tail := Join(ws[1..], sep);
    assert SplitWs(Join(ws, sep)) == [ws[0]] + SplitWs(tail) by {
      assert Join(ws, sep) == ws[0] + sep + tail;
      SplitWordSpace(ws[0], tail);
    }
    assert [ws[0]] + ws[1..] == ws;
  }

  /** Splitting words joined by single spaces gives the words back. */
  lemma {:induction false} SplitJoin(ws: seq<string>)
    requires forall i :: 0 <= i < |ws| ==> IsWord(ws[i])
    ensures SplitWs(Join(ws, " ")) == ws
  {
    if |ws| == 1 {
      SplitOneWord(ws[0]);
    } else if |ws| > 1 {
      SplitJoin(ws[1..]);
      SplitWordAndTail(ws, " ");
    }
  }

  /** Removing a string that never occurs leaves the text unchanged. */
  lemma {:induction false} RemoveAllAbsent(s: string, c: char)
    requires forall i :: 0 <= i < |s| ==> s[i] != c
    ensures RemoveAll(s, [c]) == s
  {
    if |s| > 0 {
      RemoveAllAbsent(s[1..], c);
    }
  }

  /** One step of `split()`: the first token is a word, and the rest is
      split after it. */
  lemma SplitWsStep(s: string)
    ensures var t := LStrip(s); t != [] ==>
      var w := WordPrefix(t);
      && IsWord(w) && |t[|w|..]| < |s|
      && SplitWs(s) == [w] + SplitWs(t[|w|..])
    ensures LStrip(s) == [] ==> SplitWs(s) == []
  {
  }
  lemma WordsCons(w: string, rest: seq<string>, ws: seq<string>)
    requires ws == [w] + rest && IsWord(w)
    requires forall i :: 0 <= i < |rest| ==> IsWord(rest[i])
    ensures forall i :: 0 <= i < |ws| ==> IsWord(ws[i])
  {
    forall i | 0 <= i < |ws|
      ensures IsWord(ws[i])
    {
      if i > 0 {
        assert ws[i] == rest[i - 1];
      }
    }
  }
  /** Every token of `split()` is a word. */
  lemma {:induction false} SplitWsWords(s: string)
    ensures forall i :: 0 <= i < |SplitWs(s)| ==> IsWord(SplitWs(s)[i])
    decreases |s|
  {
    SplitWsStep(s);
    var t := LStrip(s);
    if t != [] {
      var w := WordPrefix(t);
      var u := t[|w|..];
      SplitWsWords(u);
      WordsCons(w, SplitWs(u), SplitWs(s));
    }
  }

  /** A line of words joined by single spaces and ended by a newline strips
      to the joined words, which split back into the words. */
  lemma WordsLine(ws: seq<string>)
    requires |ws| > 0 && forall i :: 0 <= i < |ws| ==> IsWord(ws[i])
    ensures Strip(Join(ws, " ") + "\n") == Join(ws, " ")
    ensures SplitWs(Strip(Join(ws, " ") + "\n")) == ws
  {
    JoinWordsEnds(ws);
    StripNewline(Join(ws, " "));
    SplitJoin(ws);
  }

  /** A trailing newline does not survive `strip`. */
  lemma StripNewline(x: string)
    requires |x| > 0 && !IsSpace(x[0]) && !IsSpace(x[|x| - 1])
    ensures Strip(x + "\n") == x
  {
    var empty: string := [];
    var post: string := "\n";
    assert IsSpace(post[0]);
    assert empty + x + post == x + "\n";
    StripPadded(empty, x, post);
  }

  /** Joined words start with the first character of the first word. */
  lemma JoinHead(ws: seq<string>, sep: string)
    requires |ws| > 0 && |ws[0]| > 0
    ensures |Join(ws, sep)| > 0 && Join(ws, sep)[0] == ws[0][0]
  {
  }

  /** A character that is in no word and is not the separator is not in the
      joined text. */
  lemma {:induction false} JoinAvoids(ws: seq<string>, c: char)
    requires c != ' ' && forall i :: 0 <= i < |ws| ==> c !in ws[i]
    ensures c !in Join(ws, " ")
  {
    if |ws| > 1 {
      JoinAvoids(ws[1..], c);
    }
  }

  lemma NotStartsWith(x: string, p: string)
    requires |p| > 0 && |x| > 0 && x[0] != p[0]
    ensures !StartsWith(x, p)
  {
  }

  /** A line whose stripped text starts with another character than `p`
      does not start with `p`. */
  lemma LineNotStartsWith(line: string, x: string, p: string)
    requires Strip(line) == x && |x| > 0 && |p| > 0 && x[0] != p[0]
    ensures !LineStartsWith(line, p)
  {
    NotStartsWith(x, p);
  }

  /** A written row of words strips to the joined words and splits back
      into the words. */
  lemma SpacedLineRead(ws: seq<string>)
    requires |ws| > 0 && forall i :: 0 <= i < |ws| ==> IsWord(ws[i])
    ensures Strip(SpacedLine(ws)) == Join(ws, " ")
    ensures Fields(SpacedLine(ws)) == ws
  {
    WordsLine(ws);
  }
  /** Different numbers print differently. */
  lemma {:induction false} NatToStringInjective(a: nat, b: nat)
    requires NatToString(a) == NatToString(b)
    ensures a == b
  {
    var sa, sb := NatToString(a), NatToString(b);
    assert a % 10 == b % 10 by {
      assert sa[|sa| - 1] == '0' + (a % 10) as char;
      assert sb[|sb| - 1] == '0' + (b % 10) as char;
    }
    if a >= 10 && b >= 10 {
      assert NatToString(a / 10) == sa[..|sa| - 1] == sb[..|sb| - 1] == NatToString(b / 10);
      NatToStringInjective(a / 10, b / 10);
    }
  }

  /** Joining two non-empty lists is joining each and putting the separator between. */
  lemma {:induction false} JoinAppend(a: seq<string>, b: seq<string>, sep: string)
    requires |a| > 0 && |b| > 0
    ensures Join(a + b, sep) == Join(a, sep) + sep + Join(b, sep)
  {
    assert (a + b)[0] == a[0];
    assert (a + b)[1..] == a[1..] + b;
    if |a| > 1 {
      JoinAppend(a[1..], b, sep);
    }
  }

  /** Words followed by words are words. */
  lemma WordsAppend(a: seq<string>, b: seq<string>)
    requires forall i :: 0 <= i < |a| ==> IsWord(a[i])
    requires forall i :: 0 <= i < |b| ==> IsWord(b[i])
    ensures forall i :: 0 <= i < |a + b| ==> IsWord((a + b)[i])
  {
    forall i | 0 <= i < |a + b|
      ensures IsWord((a + b)[i])
    {
      if i >= |a| {
        assert (a + b)[i] == b[i - |a|];
      }
    }
  }
}
