/** Whitespace-separated words: the `str.split()` with no argument and the
    `' '.join(...)` that the text pipeline uses, and the facts that make the
    pair a round trip. */
module Words {

  /** The characters the splitter treats as separators: the ASCII characters
      for which Python's `str.isspace` holds (space, tab, line feed, vertical
      tab, form feed, carriage return and the four separator controls
      0x1C-0x1F). */
  predicate IsSpace(c: char) {
    c == ' ' || (9 <= c as int <= 13) || (28 <= c as int <= 31)
  }

  /** A word: a non-empty run of non-separator characters. */
  predicate IsWord(w: string) {
    |w| > 0 && forall i :: 0 <= i < |w| ==> !IsSpace(w[i])
  }

  predicate AllWords(ws: seq<string>) {
    forall i :: 0 <= i < |ws| ==> IsWord(ws[i])
  }

  /** Text a join produces: every separator is a single ' ' with a
      non-separator on both sides, so there is none at either end and no
      two are adjacent. */
  predicate SingleSpaced(s: string) {
    forall i :: 0 <= i < |s| && IsSpace(s[i]) ==>
      s[i] == ' ' && 0 < i < |s| - 1 && !IsSpace(s[i + 1])
  }

  function Min(a: nat, b: nat): nat {
    if a <= b then a else b
  }

  /** The first `n` elements, or all of them when there are fewer
      (Python's `ws[:n]`). */
  function Take<T>(ws: seq<T>, n: nat): (r: seq<T>)
    ensures |r| == Min(n, |ws|)
    ensures r <= ws
  {
    ws[..Min(n, |ws|)]
  }

  /** Length of the leading run of non-separator characters. */
  function WordEnd(s: string): (n: nat)
    ensures n <= |s|
    ensures forall i :: 0 <= i < n ==> !IsSpace(s[i])
    ensures n < |s| ==> IsSpace(s[n])
  {
    if s == [] || IsSpace(s[0]) then 0 else 1 + WordEnd(s[1..])
  }

  /** `s.split()`: the maximal runs of non-separator characters, in order. */
  function Split(s: string): (ws: seq<string>)
    ensures AllWords(ws)
    decreases |s|
  {
    if s == [] then []
    else if IsSpace(s[0]) then Split(s[1..])
    else
      var n := WordEnd(s);
      [s[..n]] + Split(s[n..])
  }

  /** Total length of the strings of `ws`. */
  function Letters(ws: seq<string>): nat {
    if ws == [] then 0 else |ws[0]| + Letters(ws[1..])
  }

  /** `' '.join(ws)`: the strings in order, with exactly one added character
      between each pair of neighbours. */
  function Join(ws: seq<string>): (r: string)
    ensures ws == [] ==> r == ""
    ensures ws != [] ==> |r| == Letters(ws) + |ws| - 1 && ws[0] <= r
  {
    if |ws| == 0 then ""
    else if |ws| == 1 then ws[0]
    else ws[0] + " " + Join(ws[1..])
  }

  /** The leading run of a word followed by a separator is the word. */
  lemma {:induction false} WordEndOfWord(w: string, t: string)
    requires IsWord(w)
    requires t == [] || IsSpace(t[0])
    ensures WordEnd(w + t) == |w|
    decreases |w|
  {
    if |w| > 1 {
      assert (w + t)[1..] == w[1..] + t;
      WordEndOfWord(w[1..], t);
    } else {
      assert (w + t)[1..] == t;
    }
  }

  /** A word followed by a separator (or by nothing) splits off as one token. */
  lemma SplitWordThen(w: string, t: string)
    requires IsWord(w)
    requires t == [] || IsSpace(t[0])
    ensures Split(w + t) == [w] + Split(t)
  {
    WordEndOfWord(w, t);
    assert (w + t)[..|w|] == w;
    assert (w + t)[|w|..] == t;
  }

  /** Splitting what a join produced gives back the joined words. */
  lemma {:induction false} SplitJoin(ws: seq<string>)
    requires AllWords(ws)
    ensures Split(Join(ws)) == ws
  {
    if |ws| == 1 {
      SplitWordThen(ws[0], "");
      assert ws[0] + "" == ws[0];
    } else if |ws| > 1 {
      var rest := Join(ws[1..]);
      var t := " " + rest;
      assert ws[0] + " " + rest == ws[0] + t;
      SplitWordThen(ws[0], t);
      assert t[1..] == rest;
      SplitJoin(ws[1..]);
      assert ws == [ws[0]] + ws[1..];
    }
  }

  /** A join of words is single-spaced. */
  lemma {:induction false} JoinSingleSpaced(ws: seq<string>)
    requires AllWords(ws)
    ensures SingleSpaced(Join(ws))
    ensures |ws| > 0 ==> |Join(ws)| > 0 && !IsSpace(Join(ws)[0])
  {
    if |ws| > 1 {
      var w, rest := ws[0], Join(ws[1..]);
      JoinSingleSpaced(ws[1..]);
      var s := w + " " + rest;
      assert Join(ws) == s;
      forall i | 0 <= i < |s| && IsSpace(s[i])
        ensures s[i] == ' ' && 0 < i < |s| - 1 && !IsSpace(s[i + 1])
      {
        if i > |w| {
          assert s[i] == rest[i - |w| - 1];
          if i + 1 < |s| {
            assert s[i + 1] == rest[i - |w|];
          }
        } else {
          assert i == |w|;
          assert s[i + 1] == rest[0];
        }
      }
    }
  }

  /** A suffix that starts at a non-separator stays single-spaced. */
  lemma SingleSpacedSuffix(s: string, k: nat)
    requires SingleSpaced(s)
    requires k < |s| && !IsSpace(s[k])
    ensures SingleSpaced(s[k..])
  {
    var t := s[k..];
    forall i | 0 <= i < |t| && IsSpace(t[i])
      ensures t[i] == ' ' && 0 < i < |t| - 1 && !IsSpace(t[i + 1])
    {
      assert t[i] == s[k + i];
      assert i != 0;
      assert k + i < |s| - 1;
      assert t[i + 1] == s[k + i + 1];
    }
  }

  /** In single-spaced text with more than one word, the first word is
      followed by exactly one space and then by the remaining words. */
  lemma SplitFirstWord(s: string)
    requires SingleSpaced(s) && s != [] && WordEnd(s) < |s|
    ensures var n := WordEnd(s);
      && s[n] == ' ' && n + 1 < |s| && SingleSpaced(s[n + 1..])
      && Split(s) == [s[..n]] + Split(s[n + 1..])
      && Split(s[n + 1..]) != []
  {
    assert !IsSpace(s[0]);
    var n := WordEnd(s);
    assert s[n] == ' ' && n + 1 < |s| && !IsSpace(s[n + 1]);
    assert s[n..][1..] == s[n + 1..];
    SingleSpacedSuffix(s, n + 1);
  }

  /** Joining the words of a single-spaced text gives back the text. */
  lemma {:induction false} JoinSplit(s: string)
    requires SingleSpaced(s)
    ensures Join(Split(s)) == s
    decreases |s|
  {
    if s != [] {
      assert !IsSpace(s[0]);
      var n := WordEnd(s);
      if n == |s| {
        assert s[n..] == [];
        assert s[..n] == s;
      } else {
        SplitFirstWord(s);
        var tail := s[n + 1..];
        JoinSplit(tail);
        var ws := Split(s);
        assert ws[1..] == Split(tail);
        assert s == s[..n] + " " + tail;
      }
    }
  }

  /** The first `n` words of `s`, rejoined with single spaces. */
  function FirstWords(s: string, n: nat): (r: string)
    ensures Split(r) == Take(Split(s), n)
    ensures SingleSpaced(r)
  {
    var ws := Take(Split(s), n);
    SplitJoin(ws);
    JoinSingleSpaced(ws);
    Join(ws)
  }

  /** Truncating to `n` words and then to `m <= n` is truncating to `m`. */
  lemma FirstWordsTwice(s: string, m: nat, n: nat)
    requires m <= n
    ensures FirstWords(FirstWords(s, n), m) == FirstWords(s, m)
  {
    var ws := Split(s);
    assert Take(Take(ws, n), m) == Take(ws, m);
  }

  /** Single-spaced text of at most `n` words survives truncation intact. */
  lemma FirstWordsKeepsShort(s: string, n: nat)
    requires SingleSpaced(s) && |Split(s)| <= n
    ensures FirstWords(s, n) == s
  {
    assert Take(Split(s), n) == Split(s);
    JoinSplit(s);
  }

  /** A word's leading run ends where it ends inside any longer text. */
  lemma {:induction false} WordEndPrefix(x: string, y: string)
    requires WordEnd(x) < |x|
    ensures WordEnd(x + y) == WordEnd(x)
    decreases |x|
  {
    if !IsSpace(x[0]) {
      assert (x + y)[1..] == x[1..] + y;
      WordEndPrefix(x[1..], y);
    }
  }

  /** A whole word before a separator splits off on its own. */
  lemma WordBeforeSeparator(a: string, c: char, b: string)
    requires IsWord(a) && IsSpace(c)
    ensures Split(a + [c] + b) == Split(a) + Split(b)
  {
    assert a + [c] + b == a + ([c] + b);
    SplitWordThen(a, [c] + b);
    assert ([c] + b)[1..] == b;
    SplitWordThen(a, []);
    assert a + [] == a;
  }

  /** Splitting off the leading run of `a` commutes with appending. */
  lemma LeadingRunBeforeSeparator(a: string, c: char, b: string)
    requires a != [] && !IsSpace(a[0]) && WordEnd(a) < |a|
    ensures var m := WordEnd(a);
      Split(a + [c] + b) == [a[..m]] + Split(a[m..] + [c] + b)
  {
    var s, m := a + [c] + b, WordEnd(a);
    WordEndPrefix(a, [c] + b);
    assert s == a + ([c] + b);
    assert s[..m] == a[..m];
    assert s[m..] == a[m..] + [c] + b;
  }

  /** Any one separator character splits the text in two: the words of
      `a + [c] + b` are the words of `a` followed by the words of `b`,
      whatever kind of separator `c` is and however many surround it. */
  lemma {:induction false} SplitAtSeparator(a: string, c: char, b: string)
    requires IsSpace(c)
    ensures Split(a + [c] + b) == Split(a) + Split(b)
    decreases |a|
  {
    if a == [] {
      assert a + [c] + b == [c] + b;
      assert ([c] + b)[1..] == b;
    } else if IsSpace(a[0]) {
      assert (a + [c] + b)[1..] == a[1..] + [c] + b;
      SplitAtSeparator(a[1..], c, b);
      assert Split(a) == Split(a[1..]);
    } else if WordEnd(a) < |a| {
      var m := WordEnd(a);
      LeadingRunBeforeSeparator(a, c, b);
      SplitAtSeparator(a[m..], c, b);
      assert Split(a) == [a[..m]] + Split(a[m..]);
      assert [a[..m]] + (Split(a[m..]) + Split(b)) == ([a[..m]] + Split(a[m..])) + Split(b);
    } else {
      WordBeforeSeparator(a, c, b);
    }
  }
}
