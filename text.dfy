/**
 * The Python 2 string operations the tool relies on, over strings of bytes
 * (modelled as `string`): `str.split()`, `str.split(None, n)`, `str.split(sep)`
 * with a one-character separator, and its inverse `sep.join(...)`.
 */
module Text {

  /** Python 2 `str.isspace` on one byte: space, tab, newline, vertical tab, form feed, carriage return. */
  predicate IsSpace(c: char) {
    c == ' ' || c == '\t' || c == '\n' || c == '\U{000B}' || c == '\U{000C}' || c == '\r'
  }

  /** A non-empty run of non-whitespace characters: what `split()` yields as one token. */
  predicate IsWord(w: string) {
    w != [] && NoSpace(w)
  }

  /** `w` contains no whitespace at all. */
  predicate NoSpace(w: string) {
    forall i :: 0 <= i < |w| ==> !IsSpace(w[i])
  }

  function Min(a: int, b: int): int { if a <= b then a else b }

  /** `s` with its leading whitespace removed. */
  function SkipSpace(s: string): (r: string)
    ensures |r| <= |s|
    ensures r == [] || !IsSpace(r[0])
  {
    if s != [] && IsSpace(s[0]) then SkipSpace(s[1..]) else s
  }

  /** The length of the run of non-whitespace characters at the start of `s`. */
  function WordLen(s: string): (n: nat)
    ensures n <= |s|
    ensures forall i :: 0 <= i < n ==> !IsSpace(s[i])
    ensures n < |s| ==> IsSpace(s[n])
  {
    if s != [] && !IsSpace(s[0]) then 1 + WordLen(s[1..]) else 0
  }

  /** `s.split()`: the whitespace-separated tokens of `s`, in order. */
  function Tokens(s: string): (r: seq<string>)
    decreases |s|
  {
    var t := SkipSpace(s);
    if t == [] then []
    else
      var k := WordLen(t);
      [t[..k]] + Tokens(t[k..])
  }

  /**
   * `s.split(None, n)`: leading whitespace is skipped and at most `n` splits are
   * made; the remainder after the last split is one part that keeps its inner
   * and trailing whitespace.
   */
  function SplitN(s: string, n: nat): seq<string>
    decreases |s|
  {
    var t := SkipSpace(s);
    if t == [] then []
    else if n == 0 then [t]
    else
      var k := WordLen(t);
      [t[..k]] + SplitN(t[k..], n - 1)
  }

  /** The tokens of every field, one field after another. */
  function Retokenize(fields: seq<string>): seq<string> {
    if fields == [] then [] else Tokens(fields[0]) + Retokenize(fields[1..])
  }

  /** Every token of `split()` is a word. */
  lemma {:induction false} TokensAreWords(s: string)
    ensures forall i :: 0 <= i < |Tokens(s)| ==> IsWord(Tokens(s)[i])
    decreases |s|
  {
    var t := SkipSpace(s);
    if t != [] {
      var k := WordLen(t);
      WordPrefix(t, k);
      TokensAreWords(t[k..]);
      assert Tokens(s) == [t[..k]] + Tokens(t[k..]);
    }
  }

  lemma SkipSpaceIdempotent(s: string)
    ensures SkipSpace(SkipSpace(s)) == SkipSpace(s)
  {
  }

  lemma TokensOfWord(w: string)
    requires IsWord(w)
    ensures Tokens(w) == [w]
  {
    assert SkipSpace(w) == w;
    var k := WordLen(w);
    assert k == |w|;
    assert w[..k] == w && w[k..] == [];
  }

  lemma RetokenizeAppend(a: seq<string>, b: seq<string>)
    ensures Retokenize(a + b) == Retokenize(a) + Retokenize(b)
  {
    if a == [] {
      assert a + b == b;
    } else {
      assert (a + b)[0] == a[0];
      assert (a + b)[1..] == a[1..] + b;
      RetokenizeAppend(a[1..], b);
      assert Tokens(a[0]) + (Retokenize(a[1..]) + Retokenize(b))
          == (Tokens(a[0]) + Retokenize(a[1..])) + Retokenize(b);
    }
  }

  /**
   * The shape of `s.split(None, n)`: as many parts as the smaller of `n + 1` and
   * the number of tokens; every part but the last is exactly the token at its
   * position; the last part is non-empty and starts with a non-whitespace byte.
   */
  lemma {:induction false} SplitNShape(s: string, n: nat)
    ensures |SplitN(s, n)| == Min(n + 1, |Tokens(s)|)
    ensures forall i :: 0 <= i < |SplitN(s, n)| - 1 ==> SplitN(s, n)[i] == Tokens(s)[i]
    ensures SplitN(s, n) != [] ==> IsWordStart(SplitN(s, n)[|SplitN(s, n)| - 1])
    decreases |s|
  {
    var t := SkipSpace(s);
    if t != [] && n > 0 {
      var k := WordLen(t);
      var rest := SplitN(t[k..], n - 1);
      SplitNShape(t[k..], n - 1);
      assert SplitN(s, n) == [t[..k]] + rest;
      assert Tokens(s) == [t[..k]] + Tokens(t[k..]);
    }
  }

  /** The number of leading whitespace bytes of `s`: `SkipSpace` drops exactly them. */
  function LeadingSpace(s: string): (j: nat)
    ensures j <= |s| && SkipSpace(s) == s[j..]
  {
    if s != [] && IsSpace(s[0]) then
      var k := LeadingSpace(s[1..]);
      assert s[1..][k..] == s[k + 1..];
      k + 1
    else 0
  }

  /**
   * When the line has more tokens than allowed splits, the last part of
   * `s.split(None, n)` is the rest of the line verbatim, from the start of its
   * token at position `n`, trailing whitespace included.
   */
  lemma SplitNLastIsRest(s: string, n: nat)
    ensures |Tokens(s)| > n ==>
      |SplitN(s, n)| == n + 1 && exists j :: 0 <= j < |s| && SplitN(s, n)[n] == s[j..]
  {
    if |Tokens(s)| > n {
      SplitNShape(s, n);
      var j := SplitNRest(s, n);
    }
  }

  /** Part `n` of `s.split(None, n)`, when there is one, is a suffix of `s`. */
  lemma {:induction false} SplitNRest(s: string, n: nat) returns (j: nat)
    requires n < |SplitN(s, n)|
    ensures j < |s| && SplitN(s, n)[n] == s[j..]
    decreases |s|
  {
    var j0, m := SplitNHead(s, n);
    if n == 0 {
      j := j0;
    } else {
      var j1 := SplitNRest(s[m..], n - 1);
      assert s[m..][j1..] == s[m + j1..];
      j := m + j1;
    }
  }

  /**
   * One step of `s.split(None, n)` with parts left: the first part starts at `j0`,
   * after the leading whitespace; with `n > 0` it is the word ending at `m` and the
   * rest of the parts split `s[m..]`.
   */
  lemma SplitNHead(s: string, n: nat) returns (j0: nat, m: nat)
    requires n < |SplitN(s, n)|
    ensures j0 < |s|
    ensures n == 0 ==> SplitN(s, n) == [s[j0..]]
    ensures n > 0 ==> (j0 < m <= |s| && SplitN(s, n) == [s[j0..m]] + SplitN(s[m..], n - 1))
  {
    var t := SkipSpace(s);
    j0 := LeadingSpace(s);
    m := j0;
    assert t != [];
    if n > 0 {
      var k := WordLen(t);
      assert SplitN(s, n) == [t[..k]] + SplitN(t[k..], n - 1);
      assert !IsSpace(t[0]);
      m := j0 + k;
      assert t[..k] == s[j0..m];
      assert t[k..] == s[m..];
    }
  }


  /** A part whose first byte is not whitespace. */
  predicate IsWordStart(w: string) {
    w != [] && !IsSpace(w[0])
  }

  /** Re-splitting the parts of `s.split(None, n)` on whitespace gives back the tokens of `s`. */
  lemma {:induction false} SplitNTokens(s: string, n: nat)
    ensures Retokenize(SplitN(s, n)) == Tokens(s)
    decreases |s|
  {
    var t := SkipSpace(s);
    if t == [] {
      assert SplitN(s, n) == [];
    } else if n == 0 {
      assert SplitN(s, n) == [t];
      SkipSpaceIdempotent(s);
      assert Tokens(t) == Tokens(s);
      assert Retokenize([t]) == Tokens(t) + Retokenize([]);
    } else {
      var k := WordLen(t);
      var rest := SplitN(t[k..], n - 1);
      assert SplitN(s, n) == [t[..k]] + rest;
      assert Tokens(s) == [t[..k]] + Tokens(t[k..]);
      WordPrefix(t, k);
      TokensOfWord(t[..k]);
      SplitNTokens(t[k..], n - 1);
      RetokenizeAppend([t[..k]], rest);
      assert Retokenize([t[..k]]) == [t[..k]] + Retokenize([]);
    }
  }

  lemma WordPrefix(t: string, k: nat)
    requires t != [] && !IsSpace(t[0]) && k == WordLen(t)
    ensures IsWord(t[..k])
  {
  }

  /** When there are no more tokens than allowed splits, `s.split(None, n)` is `s.split()`. */
  lemma {:induction false} SplitNFew(s: string, n: nat)
    ensures |Tokens(s)| <= n ==> SplitN(s, n) == Tokens(s)
    decreases |s|
  {
    var t := SkipSpace(s);
    if |Tokens(s)| > n {
    } else if t == [] {
      assert SplitN(s, n) == [] && Tokens(s) == [];
    } else {
      var k := WordLen(t);
      assert Tokens(s) == [t[..k]] + Tokens(t[k..]);
      assert n > 0;
      assert SplitN(s, n) == [t[..k]] + SplitN(t[k..], n - 1);
      SplitNFew(t[k..], n - 1);
      assert SplitN(s, n) == [t[..k]] + Tokens(t[k..]);
    }
  }

  /** A list of words re-splits into itself. */
  lemma {:induction false} RetokenizeWords(ws: seq<string>)
    requires forall i :: 0 <= i < |ws| ==> IsWord(ws[i])
    ensures Retokenize(ws) == ws
  {
    if ws != [] {
      TokensOfWord(ws[0]);
      RetokenizeWords(ws[1..]);
      assert [ws[0]] + ws[1..] == ws;
    }
  }

  /** The position of the first `c` in `s`. */
  function IndexOf(s: string, c: char): (i: nat)
    requires c in s
    ensures i < |s| && s[i] == c && c !in s[..i]
  {
    if s[0] == c then 0 else 1 + IndexOf(s[1..], c)
  }

  /** `s.split(sep)`: the pieces between occurrences of `sep`, empty pieces included. */
  function SplitOn(s: string, sep: char): (r: seq<string>)
    ensures |r| >= 1
    ensures forall i :: 0 <= i < |r| ==> sep !in r[i]
    decreases |s|
  {
    if sep !in s then [s]
    else
      var i := IndexOf(s, sep);
      [s[..i]] + SplitOn(s[i + 1..], sep)
  }

  /** `sep.join(parts)`. */
  function Join(parts: seq<string>, sep: char): string {
    if parts == [] then ""
    else if |parts| == 1 then parts[0]
    else parts[0] + [sep] + Join(parts[1..], sep)
  }

  /** Joining the pieces of `s.split(sep)` with `sep` gives back `s`. */
  lemma {:induction false} JoinSplitOn(s: string, sep: char)
    ensures Join(SplitOn(s, sep), sep) == s
    decreases |s|
  {
    if sep in s {
      var i := IndexOf(s, sep);
      JoinSplitOn(s[i + 1..], sep);
      var rest := SplitOn(s[i + 1..], sep);
      assert SplitOn(s, sep) == [s[..i]] + rest;
      JoinCons(s[..i], rest, sep);
      SplitAround(s, i);
    }
  }

  lemma JoinCons(w: string, rest: seq<string>, sep: char)
    requires rest != []
    ensures Join([w] + rest, sep) == w + [sep] + Join(rest, sep)
  {
    assert ([w] + rest)[0] == w && ([w] + rest)[1..] == rest;
  }

  lemma SplitAround(s: string, i: nat)
    requires i < |s|
    ensures s == s[..i] + [s[i]] + s[i + 1..]
  {
    assert s[..i + 1] == s[..i] + [s[i]];
    assert s == s[..i + 1] + s[i + 1..];
  }

  /** Splitting a join of `sep`-free pieces on `sep` gives back the pieces. */
  lemma {:induction false} SplitOnJoin(parts: seq<string>, sep: char)
    requires parts != []
    requires forall i :: 0 <= i < |parts| ==> sep !in parts[i]
    ensures SplitOn(Join(parts, sep), sep) == parts
  {
    if |parts| > 1 {
      var s := Join(parts, sep);
      var p := parts[0];
      assert s == p + [sep] + Join(parts[1..], sep);
      assert s[|p|] == sep;
      assert sep in s;
      assert s[..|p|] == p;
      var i := IndexOf(s, sep);
      assert i <= |p| by {
        assert sep !in s[..i];
      }
      assert s[..i] == p;
      assert s[i + 1..] == Join(parts[1..], sep);
      SplitOnJoin(parts[1..], sep);
    }
  }
}
