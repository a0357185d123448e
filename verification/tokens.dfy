/** Splitting one line of the setpoint file into its whitespace-separated
    tokens, as `line.strip("\n").split()` does. Converting each token with
    `float()` is not modelled.

    `str.split()` with no separator drops leading and trailing whitespace and
    treats every run of whitespace as one separator, so it never yields an
    empty token. */
module Tokens {

  /** The characters Python 3's `str.split()` treats as whitespace (those for
      which `str.isspace` holds). The model assumes the file is read as Python 3
      text; under Python 2 `open()` yields byte strings, which split on the
      ASCII characters space, tab, newline, vertical tab, form feed and
      carriage return only. */
  predicate IsSpace(c: char)
  {
    || c == ' ' || c == '\t' || c == '\n' || c == '\r'
    || c == '\U{0B}' || c == '\U{0C}'
    || ('\U{1C}' <= c <= '\U{1F}')
    || c == '\U{85}' || c == '\U{A0}' || c == '\U{1680}'
    || ('\U{2000}' <= c <= '\U{200A}')
    || c == '\U{2028}' || c == '\U{2029}' || c == '\U{202F}' || c == '\U{205F}'
    || c == '\U{3000}'
  }

  /** A token: non-empty and free of whitespace. */
  predicate IsWord(w: string)
  {
    |w| > 0 && forall i :: 0 <= i < |w| ==> !IsSpace(w[i])
  }

  /** Length of the longest all-whitespace prefix of `s`. */
  function LeadingSpaces(s: string): (n: nat)
    ensures n <= |s|
    ensures forall i :: 0 <= i < n ==> IsSpace(s[i])
    ensures n < |s| ==> !IsSpace(s[n])
  {
    if |s| == 0 || !IsSpace(s[0]) then 0 else 1 + LeadingSpaces(s[1..])
  }

  /** Length of the longest whitespace-free prefix of `s`. */
  function WordLength(s: string): (n: nat)
    ensures n <= |s|
    ensures forall i :: 0 <= i < n ==> !IsSpace(s[i])
    ensures n < |s| ==> IsSpace(s[n])
  {
    if |s| == 0 || IsSpace(s[0]) then 0 else 1 + WordLength(s[1..])
  }

  /** `s.split()`: the maximal whitespace-free runs of `s`, in order. */
  function Split(s: string): (ts: seq<string>)
    ensures forall k :: 0 <= k < |ts| ==> IsWord(ts[k])
    decreases |s|
  {
    var i := LeadingSpaces(s);
    if i == |s| then []
    else
      var t := s[i..];
      var n := WordLength(t);
      [t[..n]] + Split(t[n..])
  }

  /** `s.strip("\n")`: `s` without its leading and trailing newlines. */
  function StripNewlines(s: string): string
  {
    StripTrailing(StripLeading(s))
  }

  function StripLeading(s: string): string
  {
    if |s| > 0 && s[0] == '\n' then StripLeading(s[1..]) else s
  }

  function StripTrailing(s: string): string
  {
    if |s| > 0 && s[|s| - 1] == '\n' then StripTrailing(s[..|s| - 1]) else s
  }

  /** The tokens of one line of the setpoint file. */
  function LineTokens(line: string): (ts: seq<string>)
    ensures forall k :: 0 <= k < |ts| ==> IsWord(ts[k])
    ensures Concat(ts) == NonSpace(line)
    ensures ts == Split(line)
  {
    StripIsRedundant(line);
    KeepsNonSpace(line);
    Split(StripNewlines(line))
  }

  /** The tokens of every line of the file, one row per line as `readlines()`
      returns them; a blank line gives an empty row. */
  function FileTokens(lines: seq<string>): (rows: seq<seq<string>>)
    ensures |rows| == |lines|
    ensures forall k :: 0 <= k < |lines| ==> rows[k] == Split(lines[k])
  {
    seq(|lines|, k requires 0 <= k < |lines| => LineTokens(lines[k]))
  }

  // Independent descriptions of the split, used to characterise it.

  /** The non-whitespace characters of `s`, in order. */
  function NonSpace(s: string): string
  {
    if |s| == 0 then []
    else if IsSpace(s[0]) then NonSpace(s[1..])
    else [s[0]] + NonSpace(s[1..])
  }

  function Concat(ts: seq<string>): string
  {
    if |ts| == 0 then [] else ts[0] + Concat(ts[1..])
  }

  /** The tokens separated by single spaces. */
  function Join(ts: seq<string>): string
  {
    if |ts| == 0 then []
    else if |ts| == 1 then ts[0]
    else ts[0] + " " + Join(ts[1..])
  }

  lemma {:induction false} SkipSpaces(s: string, i: nat)
    requires i <= |s|
    requires forall j :: 0 <= j < i ==> IsSpace(s[j])
    ensures NonSpace(s) == NonSpace(s[i..])
  {
    if i > 0 {
      SkipSpaces(s[1..], i - 1);
      assert s[1..][i - 1..] == s[i..];
    }
  }

  lemma {:induction false} KeepWord(t: string, n: nat)
    requires n <= |t|
    requires forall j :: 0 <= j < n ==> !IsSpace(t[j])
    ensures NonSpace(t) == t[..n] + NonSpace(t[n..])
  {
    if n > 0 {
      KeepWord(t[1..], n - 1);
      assert t[1..][n - 1..] == t[n..];
      assert t[..n] == [t[0]] + t[1..][..n - 1];
    }
  }

  /** Splitting drops exactly the whitespace: the tokens, concatenated, are
      the line's non-whitespace characters in their original order. */
  lemma {:induction false} KeepsNonSpace(s: string)
    ensures Concat(Split(s)) == NonSpace(s)
    decreases |s|
  {
    var i := LeadingSpaces(s);
    SkipSpaces(s, i);
    if i < |s| {
      var t := s[i..];
      var n := WordLength(t);
      KeepWord(t, n);
      KeepsNonSpace(t[n..]);
      var ts := [t[..n]] + Split(t[n..]);
      assert ts[0] == t[..n] && ts[1..] == Split(t[n..]);
    }
  }

  /** One whitespace character in front of a line does not change its tokens. */
  lemma SpaceBefore(c: char, x: string)
    requires IsSpace(c)
    ensures Split([c] + x) == Split(x)
  {
  }

  /** One whitespace character after a line does not change its tokens. */
  lemma {:induction false} SpaceAfter(x: string, c: char)
    requires IsSpace(c)
    ensures Split(x + [c]) == Split(x)
    decreases |x|
  {
    var s := x + [c];
    var i := LeadingSpaces(x);
    if i == |x| {
      assert forall j :: 0 <= j < |x| ==> IsSpace(s[j]);
      assert LeadingSpaces(s) == |s|;
    } else {
      assert s[i] == x[i];
      assert LeadingSpaces(s) == i;
      var t := x[i..];
      assert s[i..] == t + [c];
      var n := WordLength(t);
      var u := t + [c];
      assert forall j :: 0 <= j < |t| ==> u[j] == t[j];
      assert u[|t|] == c;
      assert WordLength(u) == n;
      assert (t + [c])[..n] == t[..n];
      assert (t + [c])[n..] == t[n..] + [c];
      SpaceAfter(t[n..], c);
    }
  }

  lemma {:induction false} StripLeadingIsRedundant(s: string)
    ensures Split(StripLeading(s)) == Split(s)
    decreases |s|
  {
    if |s| > 0 && s[0] == '\n' {
      var x := s[1..];
      assert StripLeading(s) == StripLeading(x);
      StripLeadingIsRedundant(x);
      assert s == ['\n'] + x;
      SpaceBefore('\n', x);
    }
  }

  lemma {:induction false} StripTrailingIsRedundant(s: string)
    ensures Split(StripTrailing(s)) == Split(s)
    decreases |s|
  {
    if |s| > 0 && s[|s| - 1] == '\n' {
      var x := s[..|s| - 1];
      StripTrailingIsRedundant(x);
      assert s == x + [s[|s| - 1]];
      SpaceAfter(x, s[|s| - 1]);
    }
  }

  /** `strip("\n")` before `split()` changes nothing: newlines are whitespace. */
  lemma StripIsRedundant(s: string)
    ensures Split(StripNewlines(s)) == Split(s)
  {
    StripLeadingIsRedundant(s);
    StripTrailingIsRedundant(StripLeading(s));
  }

  /** Splitting inverts joining with single spaces. */
  lemma {:induction false} SplitJoin(ts: seq<string>)
    requires forall k :: 0 <= k < |ts| ==> IsWord(ts[k])
    ensures Split(Join(ts)) == ts
  {
    if |ts| > 0 {
      var w := ts[0];
      assert IsWord(w);
      var rest := if |ts| == 1 then [] else " " + Join(ts[1..]);
      var s := Join(ts);
      assert s == w + rest;
      assert s[0] == w[0];
      assert LeadingSpaces(s) == 0;
      assert s[0..] == s;
      assert forall j :: 0 <= j < |w| ==> s[j] == w[j];
      assert |w| < |s| ==> s[|w|] == ' ';
      assert WordLength(s) == |w|;
      assert s[..|w|] == w;
      assert s[|w|..] == rest;
      if |ts| > 1 {
        SpaceBefore(' ', Join(ts[1..]));
        SplitJoin(ts[1..]);
      }
      assert ts == [w] + ts[1..];
    }
  }

  /** Every character of `w` is whitespace (`w` may be empty). */
  predicate AllSpace(w: string)
  {
    forall i :: 0 <= i < |w| ==> IsSpace(w[i])
  }

  /** A line laid out as `ws[0] + ts[0] + ws[1] + ts[1] + ... + ts[n-1] + ws[n]`:
      tokens `ts` placed between the whitespace runs `ws`. */
  function Layout(ws: seq<string>, ts: seq<string>): string
    requires |ws| == |ts| + 1
    decreases |ts|
  {
    if |ts| == 0 then ws[0] else ws[0] + ts[0] + Layout(ws[1..], ts[1..])
  }

  /** A run of whitespace in front of a line does not change its tokens. */
  lemma {:induction false} SpacesBefore(w: string, x: string)
    requires AllSpace(w)
    ensures Split(w + x) == Split(x)
    decreases |w|
  {
    if |w| > 0 {
      assert w + x == [w[0]] + (w[1..] + x);
      SpaceBefore(w[0], w[1..] + x);
      SpacesBefore(w[1..], x);
    } else {
      assert w + x == x;
    }
  }

  /** A token followed by nothing or by whitespace is split off whole. */
  lemma WordThen(w: string, rest: string)
    requires IsWord(w)
    requires |rest| == 0 || IsSpace(rest[0])
    ensures Split(w + rest) == [w] + Split(rest)
  {
    var s := w + rest;
    assert s[0] == w[0];
    assert LeadingSpaces(s) == 0;
    assert s[0..] == s;
    assert forall j :: 0 <= j < |w| ==> s[j] == w[j];
    assert |w| < |s| ==> s[|w|] == rest[0];
    assert WordLength(s) == |w|;
    assert s[..|w|] == w;
    assert s[|w|..] == rest;
  }

  /** Splitting recovers the tokens of any layout whose inner separators are
      non-empty whitespace runs and whose leading and trailing runs are
      whitespace, possibly empty: tabs, runs of blanks and surrounding
      whitespace all separate tokens the same way. */
  lemma {:induction false} SplitLayout(ws: seq<string>, ts: seq<string>)
    requires |ws| == |ts| + 1
    requires forall k :: 0 <= k < |ws| ==> AllSpace(ws[k])
    requires forall k :: 0 < k < |ts| ==> |ws[k]| > 0
    requires forall k :: 0 <= k < |ts| ==> IsWord(ts[k])
    ensures Split(Layout(ws, ts)) == ts
    decreases |ts|
  {
    if |ts| == 0 {
      SpacesBefore(ws[0], []);
      assert ws[0] + [] == ws[0];
    } else {
      var tail := Layout(ws[1..], ts[1..]);
      LayoutHead(ws, ts);
      SpacesBefore(ws[0], ts[0] + tail);
      TailStartsWithSpace(ws[1..], ts[1..]);
      WordThen(ts[0], tail);
      if |ts| == 1 {
        assert tail == ws[1];
        SpacesBefore(ws[1], []);
        assert ws[1] + [] == ws[1];
      } else {
        SplitLayout(ws[1..], ts[1..]);
      }
      assert ts == [ts[0]] + ts[1..];
    }
  }

  lemma LayoutHead(ws: seq<string>, ts: seq<string>)
    requires |ws| == |ts| + 1 && |ts| > 0
    ensures Layout(ws, ts) == ws[0] + (ts[0] + Layout(ws[1..], ts[1..]))
  {
  }

  /** A layout starting with whitespace, or empty, begins with whitespace. */
  lemma TailStartsWithSpace(ws: seq<string>, ts: seq<string>)
    requires |ws| == |ts| + 1
    requires AllSpace(ws[0])
    requires |ts| > 0 ==> |ws[0]| > 0
    ensures var l := Layout(ws, ts); |l| == 0 || IsSpace(l[0])
  {
    if |ts| > 0 {
      LayoutHead(ws, ts);
      assert Layout(ws, ts)[0] == ws[0][0];
    }
  }
}
