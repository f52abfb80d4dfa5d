/**
 * The few Python string operations the core relies on, stated over `seq<char>`:
 * `str.split()` (no separator), `' '.join(...)`, `str.strip()`, `str.split(sep)`,
 * `str.rfind(c)`, `str.startswith(p)` and the slice `s[:n]`.
 */
module PyText {

  /** The characters Python's `str.split()` and `str.strip()` treat as whitespace. */
  predicate IsSpace(c: char) {
    c == ' ' || ('\t' <= c <= '\r') || ('\U{001C}' <= c <= '\U{001F}')
    || c == '\U{0085}' || c == '\U{00A0}' || c == '\U{1680}'
    || ('\U{2000}' <= c <= '\U{200A}') || c == '\U{2028}' || c == '\U{2029}'
    || c == '\U{202F}' || c == '\U{205F}' || c == '\U{3000}'
  }

  /** A word as `str.split()` yields it: non-empty, no whitespace. */
  predicate IsWord(w: string) {
    |w| > 0 && forall i :: 0 <= i < |w| ==> !IsSpace(w[i])
  }

  /**
   * A whitespace-normalised string: every whitespace character is a single
   * blank that sits strictly inside the string and is followed by a
   * non-whitespace character. Hence no leading or trailing whitespace and
   * no two whitespace characters in a row.
   */
  predicate Normal(t: string) {
    forall i :: 0 <= i < |t| && IsSpace(t[i]) ==>
      t[i] == ' ' && 0 < i < |t| - 1 && !IsSpace(t[i + 1])
  }

  /** Length of the leading run of non-whitespace characters of `s`. */
  function WordEnd(s: string): (n: nat)
    ensures n <= |s|
    ensures forall i :: 0 <= i < n ==> !IsSpace(s[i])
    ensures n < |s| ==> IsSpace(s[n])
  {
    if s == [] || IsSpace(s[0]) then 0 else 1 + WordEnd(s[1..])
  }

  /** Python `s.split()`: the maximal runs of non-whitespace, left to right. */
  function Words(s: string): (ws: seq<string>)
    ensures forall k :: 0 <= k < |ws| ==> IsWord(ws[k])
    ensures s != [] && !IsSpace(s[0]) ==> ws != []
    decreases |s|
  {
    if s == [] then []
    else if IsSpace(s[0]) then Words(s[1..])
    else
      var n := WordEnd(s);
      [s[..n]] + Words(s[n..])
  }

  /** Python `' '.join(ws)`. */
  function Join(ws: seq<string>): string {
    if |ws| == 0 then ""
    else if |ws| == 1 then ws[0]
    else ws[0] + " " + Join(ws[1..])
  }

  /** Python `' '.join(s.split())`: whitespace runs collapsed to one blank. */
  function Collapse(s: string): (t: string)
    ensures Normal(t)
  {
    JoinOfWordsIsNormal(Words(s));
    Join(Words(s))
  }

  /** Python `s.lstrip()`. */
  function StripLeft(s: string): (r: string)
    ensures |r| <= |s| && r == s[|s| - |r|..]
    ensures r != [] ==> !IsSpace(r[0])
    ensures forall i :: 0 <= i < |s| - |r| ==> IsSpace(s[i])
  {
    if s != [] && IsSpace(s[0]) then StripLeft(s[1..]) else s
  }

  /** Python `s.rstrip()`. */
  function StripRight(s: string): (r: string)
    ensures |r| <= |s| && r == s[..|r|]
    ensures r != [] ==> !IsSpace(r[|r| - 1])
    ensures forall i :: |r| <= i < |s| ==> IsSpace(s[i])
  {
    if s != [] && IsSpace(s[|s| - 1]) then StripRight(s[..|s| - 1]) else s
  }

  /** Python `s.strip()`. */
  function Strip(s: string): (r: string)
    ensures r != [] ==> !IsSpace(r[0]) && !IsSpace(r[|r| - 1])
  {
    StripRight(StripLeft(s))
  }

  /** Python `s.split(sep)`: always at least one piece, none containing `sep`. */
  function SplitOn(s: string, sep: char): (pieces: seq<string>)
    ensures |pieces| >= 1
    ensures forall k :: 0 <= k < |pieces| ==> sep !in pieces[k]
  {
    if s == [] then [""]
    else
      var rest := SplitOn(s[1..], sep);
      if s[0] == sep then [""] + rest
      else [[s[0]] + rest[0]] + rest[1..]
  }

  /** Python `sep.join(pieces)` for a one-character separator. */
  function JoinWith(pieces: seq<string>, sep: char): string {
    if |pieces| == 0 then ""
    else if |pieces| == 1 then pieces[0]
    else pieces[0] + [sep] + JoinWith(pieces[1..], sep)
  }

  /** Python `s.rfind(c)`: the last index of `c`, or -1 when `c` does not occur. */
  function RFind(s: string, c: char): (r: int)
    ensures -1 <= r < |s|
    ensures r >= 0 ==> s[r] == c
    ensures forall j :: r < j < |s| ==> s[j] != c
  {
    if s == [] then -1
    else if s[|s| - 1] == c then |s| - 1
    else RFind(s[..|s| - 1], c)
  }

  /** Python `s.startswith(p)`. */
  predicate StartsWith(s: string, p: string) {
    |p| <= |s| && s[..|p|] == p
  }

  /** Python `s[:n]` for a non-negative `n`. */
  function Take(s: string, n: nat): (r: string)
    ensures |r| == (if |s| <= n then |s| else n) && r <= s
    ensures |s| <= n ==> r == s
  {
    if |s| <= n then s else s[..n]
  }

  // ---------------------------------------------------------------------
  // Lemmas
  // ---------------------------------------------------------------------

  /** A non-empty normal string starts and ends with a non-whitespace character. */
  lemma NormalEnds(t: string)
    requires Normal(t) && t != []
    ensures !IsSpace(t[0]) && !IsSpace(t[|t| - 1])
  {
  }

  /** Joining words with single blanks gives a normal string. */
  lemma {:induction false} JoinOfWordsIsNormal(ws: seq<string>)
    requires forall k :: 0 <= k < |ws| ==> IsWord(ws[k])
    ensures Normal(Join(ws))
    ensures ws != [] ==> |ws[0]| > 0 && Join(ws) != [] && Join(ws)[0] == ws[0][0]
  {
    if |ws| <= 1 {
    } else {
      var w, tail := ws[0], ws[1..];
      JoinOfWordsIsNormal(tail);
      var j := Join(tail);
      var t := w + " " + j;
      assert Join(ws) == t;
      assert !IsSpace(j[0]) by { assert j[0] == tail[0][0]; }
      forall i | 0 <= i < |t|
        ensures IsSpace(t[i]) ==> t[i] == ' ' && 0 < i < |t| - 1 && !IsSpace(t[i + 1])
      {
        if i < |w| {
          assert t[i] == w[i];
        } else if i == |w| {
          assert t[i + 1] == j[0];
        } else {
          var k := i - |w| - 1;
          assert t[i] == j[k];
          if i + 1 < |t| { assert t[i + 1] == j[k + 1]; }
        }
      }
    }
  }

  /** A normal string is a fixed point of whitespace collapsing. */
  lemma {:induction false} CollapseOfNormal(t: string)
    requires Normal(t)
    ensures Collapse(t) == t
    decreases |t|
  {
    if t == [] {
    } else {
      NormalEnds(t);
      var n := WordEnd(t);
      var w := t[..n];
      assert IsWord(w);
      if n == |t| {
        assert w == t;
        WordsOfWord(t);
      } else {
        var u := t[n + 1..];
        assert t[n] == ' ' && !IsSpace(t[n + 1]);
        assert t == w + " " + u;
        WordsAfterWord(w, u);
        NormalSuffix(t, n + 1);
        CollapseOfNormal(u);
        var wu := Words(u);
        assert wu != [] by { assert u[0] == t[n + 1]; }
        assert ([w] + wu)[1..] == wu;
      }
    }
  }

  /** A single word splits into just itself. */
  lemma WordsOfWord(w: string)
    requires IsWord(w)
    ensures Words(w) == [w]
  {
    assert WordEnd(w) == |w|;
    assert w[..|w|] == w && w[|w|..] == [];
  }

  /** A word followed by a blank splits off as the first word. */
  lemma WordsAfterWord(w: string, rest: string)
    requires IsWord(w)
    ensures Words(w + " " + rest) == [w] + Words(rest)
  {
    var t := w + " " + rest;
    assert forall i :: 0 <= i < |w| ==> t[i] == w[i];
    assert t[|w|] == ' ';
    assert WordEnd(t) == |w|;
    assert t[..|w|] == w;
    assert t[|w|..][1..] == rest;
  }

  /** `WordEnd` is the only split point its contract allows. */
  lemma WordEndUnique(s: string, n: nat)
    requires n <= |s| && (n < |s| ==> IsSpace(s[n]))
    requires forall i :: 0 <= i < n ==> !IsSpace(s[i])
    ensures WordEnd(s) == n
  {
  }

  /**
   * A whitespace character separates words: `split()` of `x`, a whitespace
   * character and `y` is the words of `x` followed by the words of `y`.
   * With `WordsOfWord` this fixes `split()` on every string.
   */
  lemma {:induction false} WordsAcrossSpace(x: string, c: char, y: string)
    requires IsSpace(c)
    ensures Words(x + [c] + y) == Words(x) + Words(y)
    decreases |x|
  {
    var t := x + [c] + y;
    if x == [] {
      assert t == [c] + y && t[1..] == y;
    } else if IsSpace(x[0]) {
      assert t[0] == x[0] && t[1..] == x[1..] + [c] + y;
      WordsAcrossSpace(x[1..], c, y);
    } else {
      var m := WordEnd(x);
      WordAcrossSpace(x, c, y, m);
      WordsAcrossSpace(x[m..], c, y);
      assert Words(x) == [x[..m]] + Words(x[m..]);
    }
  }

  /** The first word of `x` is also the first word of `x`, a space and `y`. */
  lemma WordAcrossSpace(x: string, c: char, y: string, m: nat)
    requires IsSpace(c) && x != [] && !IsSpace(x[0]) && m == WordEnd(x)
    ensures Words(x + [c] + y) == [x[..m]] + Words(x[m..] + [c] + y)
  {
    var t := x + [c] + y;
    assert t[0] == x[0];
    assert forall i :: 0 <= i < m ==> t[i] == x[i];
    assert m < |t| && IsSpace(t[m]) by {
      if m < |x| { assert t[m] == x[m]; } else { assert t[m] == c; }
    }
    WordEndUnique(t, m);
    assert t[..m] == x[..m];
    assert t[m..] == x[m..] + [c] + y;
  }

  /** Splitting undoes joining, for any list of words. */
  lemma {:induction false} WordsOfJoin(ws: seq<string>)
    requires forall k :: 0 <= k < |ws| ==> IsWord(ws[k])
    ensures Words(Join(ws)) == ws
  {
    if |ws| == 1 {
      WordsOfWord(ws[0]);
    } else if |ws| > 1 {
      WordsOfJoin(ws[1..]);
      WordsAfterWord(ws[0], Join(ws[1..]));
    }
  }

  /** Putting the first character back in front of the first piece. */
  lemma JoinWithCons(c: char, pieces: seq<string>, sep: char)
    requires |pieces| >= 1
    ensures JoinWith([[c] + pieces[0]] + pieces[1..], sep) == [c] + JoinWith(pieces, sep)
  {
    var q := [[c] + pieces[0]] + pieces[1..];
    assert q[0] == [c] + pieces[0] && q[1..] == pieces[1..];
  }

  /** Joining the pieces of `s.split(sep)` with `sep` gives `s` back. */
  lemma {:induction false} SplitOnRoundTrip(s: string, sep: char)
    ensures JoinWith(SplitOn(s, sep), sep) == s
  {
    if s != [] {
      var rest := SplitOn(s[1..], sep);
      SplitOnRoundTrip(s[1..], sep);
      if s[0] == sep {
        var q := [""] + rest;
        assert q[0] == "" && q[1..] == rest;
        assert JoinWith(q, sep) == [sep] + s[1..];
      } else {
        JoinWithCons(s[0], rest, sep);
      }
      assert [s[0]] + s[1..] == s;
    }
  }

  /** Stripping a string without surrounding whitespace changes nothing. */
  lemma StripUnbordered(t: string)
    requires t == [] || (!IsSpace(t[0]) && !IsSpace(t[|t| - 1]))
    ensures Strip(t) == t
  {
  }

  /** Stripping a blank followed by an unbordered non-empty string gives that string. */
  lemma StripAfterBlank(t: string)
    requires t != [] && !IsSpace(t[0]) && !IsSpace(t[|t| - 1])
    ensures Strip(" " + t) == t
  {
    var u := " " + t;
    assert u[1..] == t;
    assert StripLeft(u) == StripLeft(t) == t;
    StripUnbordered(t);
  }

  /** Stripping a normal string changes nothing. */
  lemma StripOfNormal(t: string)
    requires Normal(t)
    ensures Strip(t) == t
  {
    if t != [] { NormalEnds(t); }
    StripUnbordered(t);
  }

  /** `strip` is idempotent. */
  lemma StripIdempotent(s: string)
    ensures Strip(Strip(s)) == Strip(s)
  {
    StripUnbordered(Strip(s));
  }

  /** A non-empty stripped string has at least one word. */
  lemma StrippedHasWord(s: string)
    requires Strip(s) != []
    ensures |Words(Strip(s))| >= 1
  {
  }

  /** A normal prefix that ends in a non-whitespace character is normal. */
  lemma NormalPrefix(t: string, m: nat)
    requires Normal(t) && 0 < m <= |t| && !IsSpace(t[m - 1])
    ensures Normal(t[..m])
  {
    var p := t[..m];
    forall i | 0 <= i < |p|
      ensures IsSpace(p[i]) ==> p[i] == ' ' && 0 < i < |p| - 1 && !IsSpace(p[i + 1])
    {
      assert p[i] == t[i];
      if i + 1 < |p| { assert p[i + 1] == t[i + 1]; }
    }
  }

  /** A suffix of a normal string that starts with a non-whitespace character is normal. */
  lemma NormalSuffix(t: string, m: nat)
    requires Normal(t) && m < |t| && !IsSpace(t[m])
    ensures Normal(t[m..])
  {
    var u := t[m..];
    forall j | 0 <= j < |u|
      ensures IsSpace(u[j]) ==> u[j] == ' ' && 0 < j < |u| - 1 && !IsSpace(u[j + 1])
    {
      assert u[j] == t[m + j];
      if j + 1 < |u| { assert u[j + 1] == t[m + j + 1]; }
    }
  }

  /** Whatever `StripLeft` removes and keeps, a character absent from `s` is absent from the result. */
  lemma StripKeepsAbsence(s: string, c: char)
    requires c !in s
    ensures c !in Strip(s)
  {
    var l := StripLeft(s);
    var r := StripRight(l);
    forall i | 0 <= i < |r|
      ensures r[i] != c
    {
      assert r[i] == l[i] == s[|s| - |l| + i];
    }
  }
}
