/**
 * The Python `str` operations the detector is built from, with Python's own
 * semantics: clamping slices `s[:n]` and `s[-n:]`, `s.split(sep)` for a
 * one-character separator, `sep.join(parts)`, the argument-less `s.split()`
 * and `s.replace(c, "")`.  Characters are ASCII; Python's whitespace is
 * restricted to its ASCII members.
 */
module PyStr {

  function Min(a: int, b: int): int { if a <= b then a else b }

  /** `c.isspace()` for an ASCII character: space, \t, \n, \v, \f, \r and the
      four separators \x1c-\x1f.  Both `str.split()` and the regex class `\s`
      use this set. */
  predicate IsSpace(c: char)
  {
    c == ' ' || c == '\t' || c == '\n' || c == '\r' || c == '\U{B}' || c == '\U{C}'
    || ('\U{1C}' <= c <= '\U{1F}')
  }

  /** `s[:n]`: the first n characters, or all of s when it is shorter. */
  function Take(s: string, n: nat): (r: string)
    ensures |r| == Min(n, |s|)
    ensures r == s[..|r|]
  {
    if n <= |s| then s[..n] else s
  }

  /** `s[-n:]` for n > 0: the last n characters, or all of s when it is shorter. */
  function Last(s: string, n: nat): (r: string)
    requires n > 0
    ensures |r| == Min(n, |s|)
    ensures r == s[|s| - |r|..]
  {
    if n <= |s| then s[|s| - n..] else s
  }

  /** Number of occurrences of c in s. */
  function Count(s: string, c: char): (k: nat)
    ensures k == 0 <==> c !in s
    ensures k <= |s|
  {
    if s == [] then 0
    else (if s[0] == c then 1 else 0) + Count(s[1..], c)
  }

  lemma {:induction false} CountAppend(a: string, b: string, c: char)
    ensures Count(a + b, c) == Count(a, c) + Count(b, c)
    decreases |a|
  {
    if a == [] {
      assert a + b == b;
    } else {
      assert (a + b)[0] == a[0];
      assert (a + b)[1..] == a[1..] + b;
      CountAppend(a[1..], b, c);
    }
  }

  /** Two occurrences of c make a count of at least two. */
  lemma CountTwo(s: string, c: char, i: nat, j: nat)
    requires i < j < |s| && s[i] == c && s[j] == c
    ensures Count(s, c) >= 2
  {
    assert s == s[..j] + s[j..];
    CountAppend(s[..j], s[j..], c);
    assert s[..j][i] == c;
    assert s[j..][0] == c;
  }

  /** `s.split(c)`: the maximal c-free pieces between occurrences of c; there
      is always one more piece than there are separators, and empty pieces
      are kept. */
  function SplitOn(s: string, c: char): (parts: seq<string>)
    ensures |parts| == Count(s, c) + 1
    ensures forall i :: 0 <= i < |parts| ==> c !in parts[i]
    decreases |s|
  {
    if s == [] then [""]
    else
      var rest := SplitOn(s[1..], c);
      if s[0] == c then [""] + rest
      else [[s[0]] + rest[0]] + rest[1..]
  }

  /** `sep.join(parts)`. */
  function Join(sep: string, parts: seq<string>): string
  {
    if |parts| == 0 then ""
    else if |parts| == 1 then parts[0]
    else parts[0] + sep + Join(sep, parts[1..])
  }

  /** Joining the pieces of a split with the separator gives back the string. */
  lemma {:induction false} JoinSplitOn(s: string, c: char)
    ensures Join([c], SplitOn(s, c)) == s
    decreases |s|
  {
    if s != [] {
      var rest := SplitOn(s[1..], c);
      JoinSplitOn(s[1..], c);
      if s[0] == c {
        assert SplitOn(s, c) == [""] + rest;
        assert ([""] + rest)[1..] == rest;
      } else {
        var parts := SplitOn(s, c);
        assert parts == [[s[0]] + rest[0]] + rest[1..];
        if |rest| == 1 {
          assert Join([c], parts) == [s[0]] + rest[0];
        } else {
          assert parts[1..] == rest[1..];
          assert Join([c], rest) == rest[0] + [c] + Join([c], rest[1..]);
          assert Join([c], parts) == [s[0]] + rest[0] + [c] + Join([c], rest[1..]);
        }
      }
    }
  }

  /** Splitting a string whose front w holds no separator puts w in front of
      the first piece. */
  lemma {:induction false} SplitOnPrefix(w: string, t: string, c: char)
    requires c !in w
    ensures SplitOn(w + t, c) == [w + SplitOn(t, c)[0]] + SplitOn(t, c)[1..]
    decreases |w|
  {
    if w != [] {
      SplitOnPrefix(w[1..], t, c);
      assert (w + t)[1..] == w[1..] + t;
      assert (w + t)[0] == w[0];
      assert [w[0]] + (w[1..] + SplitOn(t, c)[0]) == w + SplitOn(t, c)[0];
    } else {
      var parts := SplitOn(t, c);
      assert w + t == t;
      assert w + parts[0] == parts[0];
      assert [parts[0]] + parts[1..] == parts;
    }
  }

  /** The other direction of the round trip: splitting a join of separator-free
      pieces gives back those pieces. */
  lemma {:induction false} SplitOnJoin(parts: seq<string>, c: char)
    requires |parts| >= 1
    requires forall i :: 0 <= i < |parts| ==> c !in parts[i]
    ensures SplitOn(Join([c], parts), c) == parts
  {
    if |parts| == 1 {
      SplitOnPrefix(parts[0], "", c);
      assert parts[0] + "" == parts[0];
    } else {
      var tail := Join([c], parts[1..]);
      SplitOnJoin(parts[1..], c);
      assert Join([c], parts) == parts[0] + ([c] + tail);
      SplitOnPrefix(parts[0], [c] + tail, c);
      assert ([c] + tail)[1..] == tail;
      assert SplitOn([c] + tail, c) == [""] + parts[1..];
      assert parts[0] + "" == parts[0];
    }
  }

  /** When c occurs exactly once, at index j, `s.split(c)` is the text before
      and the text after it. */
  lemma SplitOnOnce(s: string, c: char, j: nat)
    requires j < |s| && s[j] == c
    requires c !in s[..j] && c !in s[j + 1..]
    ensures SplitOn(s, c) == [s[..j], s[j + 1..]]
  {
    assert s == s[..j] + ([c] + s[j + 1..]);
    SplitOnPrefix(s[..j], [c] + s[j + 1..], c);
    assert ([c] + s[j + 1..])[1..] == s[j + 1..];
    SplitOnPrefix(s[j + 1..], "", c);
    assert s[j + 1..] + "" == s[j + 1..];
    assert SplitOn("", c) == [""];
    assert SplitOn(s[j + 1..], c) == [s[j + 1..]];
    var rest := SplitOn([c] + s[j + 1..], c);
    assert rest == [""] + [s[j + 1..]];
    assert s[..j] + rest[0] == s[..j];
    assert rest[1..] == [s[j + 1..]];
  }

  /** A token of `str.split()`: non-empty and free of whitespace. */
  predicate IsToken(w: string)
  {
    w != [] && forall j :: 0 <= j < |w| ==> !IsSpace(w[j])
  }

  /** Length of the leading run of non-whitespace characters of s. */
  function TokenLen(s: string): (n: nat)
    ensures n <= |s|
    ensures forall j :: 0 <= j < n ==> !IsSpace(s[j])
    ensures n < |s| ==> IsSpace(s[n])
  {
    if s == [] || IsSpace(s[0]) then 0 else 1 + TokenLen(s[1..])
  }

  /** `s.split()`: the maximal runs of non-whitespace characters, in order;
      leading, trailing and repeated whitespace produce no empty tokens. */
  function Words(s: string): (ws: seq<string>)
    ensures forall i :: 0 <= i < |ws| ==> IsToken(ws[i])
    decreases |s|
  {
    if s == [] then []
    else if IsSpace(s[0]) then Words(s[1..])
    else
      var n := TokenLen(s);
      [s[..n]] + Words(s[n..])
  }

  lemma {:induction false} TokenLenOfToken(w: string, t: string)
    requires IsToken(w)
    requires t == [] || IsSpace(t[0])
    ensures TokenLen(w + t) == |w|
    decreases |w|
  {
    assert (w + t)[0] == w[0];
    if |w| > 1 {
      assert (w + t)[1..] == w[1..] + t;
      TokenLenOfToken(w[1..], t);
    } else {
      assert (w + t)[1..] == t;
    }
  }

  /** Splitting a single-space join of tokens gives back those tokens. */
  lemma {:induction false} WordsJoin(ws: seq<string>)
    requires forall i :: 0 <= i < |ws| ==> IsToken(ws[i])
    ensures Words(Join(" ", ws)) == ws
  {
    if |ws| == 1 {
      var w := ws[0];
      TokenLenOfToken(w, "");
      assert w + "" == w;
      assert w[|w|..] == [];
    } else if |ws| > 1 {
      var w := ws[0];
      var tail := Join(" ", ws[1..]);
      var s := Join(" ", ws);
      WordsJoin(ws[1..]);
      assert s == w + (" " + tail);
      TokenLenOfToken(w, " " + tail);
      assert s[0] == w[0];
      assert s[..|w|] == w;
      assert s[|w|..] == " " + tail;
      assert (" " + tail)[1..] == tail;
    }
  }

  /** A whitespace-free non-empty string is a single token of `split()`. */
  lemma WordsOfToken(w: string)
    requires IsToken(w)
    ensures Words(w) == [w]
  {
    WordsJoin([w]);
  }

  /** The leading run of non-whitespace is not extended by what follows it
      when it stops inside s, or when what follows starts with whitespace. */
  lemma {:induction false} TokenLenAppend(s: string, t: string)
    requires TokenLen(s) < |s| || (t != [] && IsSpace(t[0]))
    ensures TokenLen(s + t) == TokenLen(s)
    decreases |s|
  {
    if s == [] {
      assert s + t == t;
    } else {
      assert (s + t)[0] == s[0];
      if !IsSpace(s[0]) {
        assert (s + t)[1..] == s[1..] + t;
        TokenLenAppend(s[1..], t);
      }
    }
  }

  /** `split()` cuts at every whitespace character: the tokens of a + c + b
      are those of a followed by those of b. */
  lemma {:induction false} WordsAtSpace(a: string, b: string, c: char)
    requires IsSpace(c)
    ensures Words(a + [c] + b) == Words(a) + Words(b)
    decreases |a|
  {
    var s := a + [c] + b;
    if a == [] {
      assert s == [c] + b && s[1..] == b;
    } else if IsSpace(a[0]) {
      assert s[0] == a[0];
      assert s[1..] == a[1..] + [c] + b;
      WordsAtSpace(a[1..], b, c);
    } else {
      assert s[0] == a[0];
      assert s == a + ([c] + b);
      TokenLenAppend(a, [c] + b);
      var n := TokenLen(a);
      assert s[..n] == a[..n];
      assert s[n..] == a[n..] + [c] + b;
      WordsAtSpace(a[n..], b, c);
    }
  }

  /** `s.replace(c, "")`: s with every occurrence of c deleted. */
  function RemoveChar(s: string, c: char): (r: string)
    ensures c !in r
    ensures |r| == |s| - Count(s, c)
    ensures c !in s ==> r == s
  {
    if s == [] then []
    else (if s[0] == c then [] else [s[0]]) + RemoveChar(s[1..], c)
  }

  lemma {:induction false} RemoveCharAppend(a: string, b: string, c: char)
    ensures RemoveChar(a + b, c) == RemoveChar(a, c) + RemoveChar(b, c)
    decreases |a|
  {
    if a == [] {
      assert a + b == b;
    } else {
      assert (a + b)[0] == a[0];
      assert (a + b)[1..] == a[1..] + b;
      RemoveCharAppend(a[1..], b, c);
    }
  }
}
