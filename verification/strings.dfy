/** The handful of java.lang.String operations the compiler relies on:
    decimal rendering of counters, `indexOf`, `split` (with Java's rule that
    trailing empty pieces are dropped), `trim`, and joining with a separator. */
module Strings {
  import opened Options

  predicate IsDigit(c: char) { '0' <= c <= '9' }

  function DigitChar(d: nat): (c: char)
    requires d < 10
    ensures IsDigit(c)
  {
    ('0' as int + d) as char
  }

  /** Decimal rendering of a counter, as `"" + n` does in Java. */
  function NatToString(n: nat): (s: string)
    ensures |s| >= 1
    ensures |s| == 1 <==> n < 10
    ensures forall i :: 0 <= i < |s| ==> IsDigit(s[i])
    decreases n
  {
    if n < 10 then [DigitChar(n)] else NatToString(n / 10) + [DigitChar(n % 10)]
  }

  /** Distinct counters render to distinct strings. */
  lemma {:induction false} NatToStringInjective(a: nat, b: nat)
    requires NatToString(a) == NatToString(b)
    ensures a == b
    decreases a
  {
    if a < 10 {
      assert NatToString(a)[0] == DigitChar(a);
      assert NatToString(b)[0] == DigitChar(b);
    } else {
      var sa, sb := NatToString(a), NatToString(b);
      assert sa == NatToString(a / 10) + [DigitChar(a % 10)];
      assert sb == NatToString(b / 10) + [DigitChar(b % 10)];
      assert sa[..|sa| - 1] == NatToString(a / 10);
      assert sb[..|sb| - 1] == NatToString(b / 10);
      assert sa[|sa| - 1] == DigitChar(a % 10);
      assert sb[|sb| - 1] == DigitChar(b % 10);
      NatToStringInjective(a / 10, b / 10);
    }
  }

  /** `s.indexOf(c)`: the first position of `c`, or None where Java answers -1. */
  function IndexOf(s: string, c: char): (r: Option<nat>)
    ensures r.None? <==> c !in s
    ensures r.Some? ==> r.value < |s| && s[r.value] == c && c !in s[..r.value]
  {
    if |s| == 0 then None
    else if s[0] == c then Some(0)
    else match IndexOf(s[1..], c)
      case None => None
      case Some(i) => assert s[1..][..i] == s[1..i + 1]; Some(i + 1)
  }

  /** `xs` joined with `sep` between consecutive elements and nowhere else. */
  function Join(sep: string, xs: seq<string>): string
  {
    if |xs| == 0 then ""
    else if |xs| == 1 then xs[0]
    else xs[0] + sep + Join(sep, xs[1..])
  }

  /** Every piece of `s` between occurrences of `c`, empty pieces included. */
  function SplitAll(s: string, c: char): (pieces: seq<string>)
    ensures |pieces| >= 1
    ensures forall i :: 0 <= i < |pieces| ==> c !in pieces[i]
    decreases |s|
  {
    match IndexOf(s, c)
    case None => [s]
    case Some(i) => [s[..i]] + SplitAll(s[i + 1..], c)
  }

  lemma {:induction false} JoinSplitAll(s: string, c: char)
    ensures Join([c], SplitAll(s, c)) == s
    decreases |s|
  {
    match IndexOf(s, c)
    case None =>
    case Some(i) =>
      var rest := SplitAll(s[i + 1..], c);
      JoinSplitAll(s[i + 1..], c);
      assert SplitAll(s, c)[1..] == rest;
      assert s == s[..i] + [c] + s[i + 1..];
  }

  /** Splitting a `c`-joined list whose elements avoid `c` gives the list back. */
  lemma {:induction false} SplitAllJoin(xs: seq<string>, c: char)
    requires |xs| >= 1
    requires forall i :: 0 <= i < |xs| ==> c !in xs[i]
    ensures SplitAll(Join([c], xs), c) == xs
    decreases |xs|
  {
    if |xs| == 1 {
      assert Join([c], xs) == xs[0];
    } else {
      var s := Join([c], xs);
      var tail := Join([c], xs[1..]);
      var k := |xs[0]|;
      assert s == xs[0] + [c] + tail;
      assert s[..k] == xs[0];
      assert s[k + 1..] == tail;
      SplitAllAt(s, k, c);
      SplitAllJoin(xs[1..], c);
      assert xs == [xs[0]] + xs[1..];
    }
  }

  /** Splitting at the first `c`: the piece before it, then the rest split. */
  lemma SplitAllAt(s: string, k: nat, c: char)
    requires k < |s| && s[k] == c && c !in s[..k]
    ensures SplitAll(s, c) == [s[..k]] + SplitAll(s[k + 1..], c)
  {
    IndexOfAt(s, k, c);
  }

  /** A `c` with none before it is the one `indexOf` finds. */
  lemma IndexOfAt(s: string, k: nat, c: char)
    requires k < |s| && s[k] == c && c !in s[..k]
    ensures IndexOf(s, c) == Some(k)
  {
    assert s[k] in s;
    var i := IndexOf(s, c).value;
    assert forall j :: 0 <= j < k ==> s[..k][j] == s[j];
    assert forall j :: 0 <= j < i ==> s[..i][j] == s[j];
  }

  function DropTrailingEmpty(xs: seq<string>): (r: seq<string>)
    ensures |r| <= |xs| && r == xs[..|r|]
    ensures |r| > 0 ==> r[|r| - 1] != ""
    ensures forall i :: |r| <= i < |xs| ==> xs[i] == ""
  {
    if |xs| == 0 then xs
    else if xs[|xs| - 1] == "" then DropTrailingEmpty(xs[..|xs| - 1])
    else xs
  }

  /** `s.split(c)` for a one-character literal pattern: when `c` does not occur the
      answer is `[s]`; otherwise the pieces with trailing empty pieces removed. */
  function JavaSplit(s: string, c: char): seq<string>
  {
    if c !in s then [s] else DropTrailingEmpty(SplitAll(s, c))
  }

  /** Splitting a joined list of at least one element, none containing `c` and
      the last non-empty unless it is the only one, returns exactly that list. */
  lemma JavaSplitJoin(xs: seq<string>, c: char)
    requires |xs| >= 1
    requires forall i :: 0 <= i < |xs| ==> c !in xs[i]
    requires xs[|xs| - 1] != "" || |xs| == 1
    ensures JavaSplit(Join([c], xs), c) == xs
  {
    SplitAllJoin(xs, c);
  }

  /** Java's `trim`: strip every leading and trailing character at or below U+0020. */
  function TrimLeft(s: string): (r: string)
    ensures |r| <= |s| && r == s[|s| - |r|..]
    ensures |r| > 0 ==> r[0] > ' '
    ensures forall i :: 0 <= i < |s| - |r| ==> s[i] <= ' '
  {
    if |s| > 0 && s[0] <= ' ' then TrimLeft(s[1..]) else s
  }

  function TrimRight(s: string): (r: string)
    ensures |r| <= |s| && r == s[..|r|]
    ensures |r| > 0 ==> r[|r| - 1] > ' '
    ensures forall i :: |r| <= i < |s| ==> s[i] <= ' '
  {
    if |s| > 0 && s[|s| - 1] <= ' ' then TrimRight(s[..|s| - 1]) else s
  }

  function Trim(s: string): (r: string)
    ensures |r| > 0 ==> r[0] > ' ' && r[|r| - 1] > ' '
  {
    TrimRight(TrimLeft(s))
  }

  /** The text before the first space (all of `s` when it has none). */
  function FirstToken(s: string): (r: string)
    ensures ' ' !in r
  {
    match IndexOf(s, ' ')
    case None => s
    case Some(i) => s[..i]
  }

  /** `s.trim().split(" ")[0]` never indexes an empty array, and its answer is the
      text of the trimmed string before its first space. */
  lemma TrimmedSplitHead(s: string)
    ensures |JavaSplit(Trim(s), ' ')| > 0
    ensures JavaSplit(Trim(s), ' ')[0] == FirstToken(Trim(s))
  {
    var t := Trim(s);
    if ' ' in t {
      var pieces := SplitAll(t, ' ');
      var i := IndexOf(t, ' ').value;
      assert pieces[0] == t[..i];
      assert i > 0;
      assert t[0] in pieces[0];
    }
  }

  /** `piece.trim().split(" ")[0]`; see `TrimmedSplitHead`. */
  function Token(piece: string): string
  {
    FirstToken(Trim(piece))
  }

  lemma TrimLeftBlanks(lead: string, s: string)
    requires forall i :: 0 <= i < |lead| ==> lead[i] <= ' '
    requires |s| > 0 && s[0] > ' '
    ensures TrimLeft(lead + s) == s
  {
    assert (lead + s)[|lead|] == s[0];
    assert (lead + s)[|lead|..] == s;
  }

  lemma FirstTokenOfWord(word: string, tail: string)
    requires ' ' !in word
    ensures FirstToken(word + " " + tail) == word
  {
    var body := word + " " + tail;
    assert body[|word|] == ' ';
    assert body[..|word|] == word;
    IndexOfAt(body, |word|, ' ');
  }

  /** The first word of a comma piece `lead + word + " " + tail`, blanks in front. */
  lemma TokenOfPiece(lead: string, word: string, tail: string)
    requires forall i :: 0 <= i < |lead| ==> lead[i] <= ' '
    requires |word| > 0 && forall i :: 0 <= i < |word| ==> word[i] > ' '
    requires |tail| > 0 && tail[|tail| - 1] > ' '
    ensures Token(lead + word + " " + tail) == word
  {
    var body := word + " " + tail;
    assert lead + word + " " + tail == lead + body;
    TrimPiece(lead, body);
    assert ' ' !in word by {
      forall i | 0 <= i < |word| ensures word[i] != ' ' { }
    }
    FirstTokenOfWord(word, tail);
  }

  /** Trimming removes the leading blanks and nothing else when the text ends in a non-blank. */
  lemma TrimPiece(lead: string, s: string)
    requires forall i :: 0 <= i < |lead| ==> lead[i] <= ' '
    requires |s| > 0 && s[0] > ' ' && s[|s| - 1] > ' '
    ensures Trim(lead + s) == s
  {
    TrimLeftBlanks(lead, s);
  }

  lemma ConcatAssoc(a: string, b: string, c: string)
    ensures a + (b + c) == (a + b) + c
  {
  }
}
