/**
 Whitespace handling as libextract's formatters use it: Python's argument-less
 `str.split()` (split on runs of whitespace, discard empty tokens), the
 `' '.join(...)` that glues strings back together, and the composition of the
 two, `' '.join(s.split())`, which normalises a table cell's text.
 */
module Text {
  import opened Seqs

  /** The characters for which Python's `str.isspace()` holds, which are the
      separators of an argument-less `str.split()`. */
  predicate IsWhitespace(c: char)
  {
    || c == ' '
    || ('\t' <= c <= '\r')
    || ('\U{1C}' <= c <= '\U{1F}')
    || c == '\U{85}'
    || c == '\U{A0}'
    || c == '\U{1680}'
    || ('\U{2000}' <= c <= '\U{200A}')
    || c == '\U{2028}'
    || c == '\U{2029}'
    || c == '\U{202F}'
    || c == '\U{205F}'
    || c == '\U{3000}'
  }

  predicate NoWhitespace(s: string)
  {
    forall i :: 0 <= i < |s| ==> !IsWhitespace(s[i])
  }

  /** A string made only of whitespace (the empty string included). */
  predicate IsBlank(s: string)
  {
    forall i :: 0 <= i < |s| ==> IsWhitespace(s[i])
  }

  /** What `str.split()` can produce as one element. */
  predicate IsToken(s: string)
  {
    |s| > 0 && NoWhitespace(s)
  }

  predicate AllTokens(ts: seq<string>)
  {
    forall i :: 0 <= i < |ts| ==> IsToken(ts[i])
  }

  /** The characters of `s` that are not whitespace, in order. */
  function NonWs(s: string): string
  {
    if s == [] then []
    else (if IsWhitespace(s[0]) then [] else [s[0]]) + NonWs(s[1..])
  }

  /** The longest prefix of `s` that holds no whitespace. */
  function Word(s: string): (w: string)
    ensures w <= s
    ensures NoWhitespace(w)
    ensures |w| == |s| || IsWhitespace(s[|w|])
  {
    if s == [] || IsWhitespace(s[0]) then []
    else
      var rest := Word(s[1..]);
      assert s == [s[0]] + s[1..];
      [s[0]] + rest
  }

  /** Python's `s.split()`: the maximal whitespace-free runs of `s`, in order. */
  function Split(s: string): (r: seq<string>)
    ensures AllTokens(r)
    ensures r == [] <==> IsBlank(s)
    decreases |s|
  {
    if s == [] then []
    else if IsWhitespace(s[0]) then
      var r := Split(s[1..]);
      assert IsBlank(s) <==> IsBlank(s[1..]) by {
        if IsBlank(s[1..]) {
          forall i | 0 <= i < |s| ensures IsWhitespace(s[i]) {
            if i > 0 { assert s[i] == s[1..][i - 1]; }
          }
        }
      }
      r
    else
      var w := Word(s);
      [w] + Split(s[|w|..])
  }

  /** Python's `sep.join(parts)`. */
  function Join(sep: string, parts: seq<string>): (r: string)
    ensures parts == [] ==> r == []
    ensures parts != [] ==> |r| == |Flatten(parts)| + |sep| * (|parts| - 1)
  {
    if parts == [] then []
    else if |parts| == 1 then parts[0]
    else parts[0] + sep + Join(sep, parts[1..])
  }

  /** `sep.join` read from the back: one more part appends the separator and
      that part verbatim, so the parts stand in order with one separator
      between neighbours. */
  lemma {:induction false} JoinAppend(sep: string, parts: seq<string>, p: string)
    ensures Join(sep, parts + [p]) == if parts == [] then p else Join(sep, parts) + sep + p
  {
    if |parts| > 1 {
      assert (parts + [p])[1..] == parts[1..] + [p];
      JoinAppend(sep, parts[1..], p);
    } else if |parts| == 1 {
      assert (parts + [p])[1..] == [p];
    } else {
      assert parts + [p] == [p];
    }
  }

  /** The result shape of `' '.join(s.split())`: whitespace occurs only as a
      single space standing between two non-whitespace characters, so there
      is no leading or trailing whitespace and no run of two spaces. */
  predicate IsNormalized(s: string)
  {
    forall i :: 0 <= i < |s| && IsWhitespace(s[i]) ==>
      s[i] == ' ' && 0 < i < |s| - 1 && !IsWhitespace(s[i + 1])
  }

  /** `' '.join(s.split())`, the normalisation of a table cell's text. */
  function Normalize(s: string): (r: string)
    ensures IsNormalized(r)
    ensures NonWs(r) == NonWs(s)
    ensures Split(r) == Split(s)
  {
    var ts := Split(s);
    JoinNormalized(ts);
    JoinSplitRoundTrip(ts);
    SplitKeepsContent(s);
    SplitKeepsContent(Join(" ", ts));
    Join(" ", ts)
  }

  // ---------------------------------------------------------------------
  // Lemmas about NonWs and Word
  // ---------------------------------------------------------------------

  /** A whitespace-free prefix passes through `NonWs` unchanged. */
  lemma {:induction false} NonWsPrefix(s: string, k: nat)
    requires k <= |s|
    requires NoWhitespace(s[..k])
    ensures NonWs(s) == s[..k] + NonWs(s[k..])
  {
    if k > 0 {
      assert s[..k][0] == s[0];
      assert s[1..][..k - 1] == s[..k][1..];
      NonWsPrefix(s[1..], k - 1);
      assert s[1..][k - 1..] == s[k..];
      assert s[..k] == [s[0]] + s[..k][1..];
    }
  }

  /** `NonWs` distributes over concatenation. */
  lemma {:induction false} NonWsAppend(a: string, b: string)
    ensures NonWs(a + b) == NonWs(a) + NonWs(b)
  {
    if a == [] {
      assert a + b == b;
    } else {
      assert (a + b)[0] == a[0];
      assert (a + b)[1..] == a[1..] + b;
      NonWsAppend(a[1..], b);
    }
  }

  /** Appending text that starts with whitespace does not change the first word. */
  lemma {:induction false} WordAppend(a: string, rest: string)
    requires rest == [] || IsWhitespace(rest[0])
    ensures Word(a + rest) == Word(a)
  {
    if a == [] {
      assert a + rest == rest;
    } else {
      assert (a + rest)[0] == a[0];
      assert (a + rest)[1..] == a[1..] + rest;
      WordAppend(a[1..], rest);
    }
  }

  /** A token is its own first word. */
  lemma WordOfToken(t: string)
    requires NoWhitespace(t)
    ensures Word(t) == t
  {
  }

  // ---------------------------------------------------------------------
  // Lemmas about Split
  // ---------------------------------------------------------------------

  /** Splitting keeps every non-whitespace character, in order, and nothing else. */
  lemma {:induction false} SplitKeepsContent(s: string)
    ensures Flatten(Split(s)) == NonWs(s)
    decreases |s|
  {
    if s == [] {
    } else if IsWhitespace(s[0]) {
      SplitKeepsContent(s[1..]);
    } else {
      var w := Word(s);
      assert s[..|w|] == w;
      NonWsPrefix(s, |w|);
      SplitKeepsContent(s[|w|..]);
    }
  }

  /** A single whitespace character separates tokens: splitting around it
      splits each side independently. */
  lemma {:induction false} SplitAtWhitespace(a: string, c: char, b: string)
    requires IsWhitespace(c)
    ensures Split(a + [c] + b) == Split(a) + Split(b)
    decreases |a|
  {
    var s := a + [c] + b;
    if a == [] {
      assert s == [c] + b;
      assert s[1..] == b;
    } else if IsWhitespace(a[0]) {
      assert s[0] == a[0];
      assert s[1..] == a[1..] + [c] + b;
      SplitAtWhitespace(a[1..], c, b);
    } else {
      SplitAtWhitespaceWord(a, c, b);
    }
  }

  /** The step of `SplitAtWhitespace` where `a` starts with a word. */
  lemma {:induction false} SplitAtWhitespaceWord(a: string, c: char, b: string)
    requires IsWhitespace(c)
    requires a != [] && !IsWhitespace(a[0])
    ensures Split(a + [c] + b) == Split(a) + Split(b)
    decreases |a|, 0
  {
    var s := a + [c] + b;
    var w := Word(a);
    assert Word(s) == w by {
      assert s == a + ([c] + b);
      WordAppend(a, [c] + b);
    }
    var tail := a[|w|..];
    assert s[|w|..] == tail + [c] + b;
    calc {
      Split(s);
      { SplitWordStep(s); }
      [w] + Split(tail + [c] + b);
      { SplitAtWhitespace(tail, c, b); }
      [w] + (Split(tail) + Split(b));
      ([w] + Split(tail)) + Split(b);
      { SplitWordStep(a); }
      Split(a) + Split(b);
    }
  }

  /** One unfolding of `Split` on a string that starts with a word. */
  lemma SplitWordStep(s: string)
    requires s != [] && !IsWhitespace(s[0])
    ensures Split(s) == [Word(s)] + Split(s[|Word(s)|..])
  {
  }

  /** A token splits to itself. */
  lemma {:induction false} SplitToken(t: string)
    requires IsToken(t)
    ensures Split(t) == [t]
  {
    WordOfToken(t);
    assert t[|t|..] == [];
  }

  /** Splitting a space-joined list of tokens gives the tokens back. */
  lemma {:induction false} JoinSplitRoundTrip(ts: seq<string>)
    requires AllTokens(ts)
    ensures Split(Join(" ", ts)) == ts
  {
    if ts == [] {
    } else if |ts| == 1 {
      SplitToken(ts[0]);
    } else {
      var rest := Join(" ", ts[1..]);
      calc {
        Split(Join(" ", ts));
        { assert Join(" ", ts) == ts[0] + [' '] + rest; }
        Split(ts[0] + [' '] + rest);
        { SplitAtWhitespace(ts[0], ' ', rest); }
        Split(ts[0]) + Split(rest);
        { SplitToken(ts[0]); JoinSplitRoundTrip(ts[1..]); }
        [ts[0]] + ts[1..];
        ts;
      }
    }
  }

  /** Joining tokens with single spaces gives a normalised string. */
  lemma {:induction false} JoinNormalized(ts: seq<string>)
    requires AllTokens(ts)
    ensures IsNormalized(Join(" ", ts))
  {
    if |ts| > 1 {
      var t := ts[0];
      var rest := Join(" ", ts[1..]);
      JoinNormalized(ts[1..]);
      assert IsToken(ts[1]);
      assert |rest| > 0;
      assert !IsWhitespace(rest[0]);
      var s := Join(" ", ts);
      assert s == t + [' '] + rest;
      forall i | 0 <= i < |s| && IsWhitespace(s[i])
        ensures s[i] == ' ' && 0 < i < |s| - 1 && !IsWhitespace(s[i + 1])
      {
        if i < |t| {
          assert false;
        } else if i == |t| {
          assert s[i + 1] == rest[0];
        } else {
          var j := i - |t| - 1;
          assert s[i] == rest[j];
          assert s[i + 1] == rest[j + 1];
        }
      }
    }
  }

  /** Leading whitespace does not change the tokens. */
  lemma {:induction false} SplitBlankPrefix(a: string, x: string)
    requires IsBlank(a)
    ensures Split(a + x) == Split(x)
  {
    if a != [] {
      assert (a + x)[0] == a[0];
      assert (a + x)[1..] == a[1..] + x;
      SplitBlankPrefix(a[1..], x);
    } else {
      assert a + x == x;
    }
  }

  /** A token followed only by whitespace splits to that token. */
  lemma {:induction false} SplitTokenThenBlank(t: string, b: string)
    requires IsToken(t) && IsBlank(b)
    ensures Split(t + b) == [t]
  {
    SplitToken(t);
    if b == [] {
      assert t + b == t;
    } else {
      assert t + b == t + [b[0]] + b[1..];
      SplitAtWhitespace(t, b[0], b[1..]);
    }
  }

  /** Normalising a single padded token trims the padding. */
  lemma NormalizeTrims(a: string, t: string, b: string)
    requires IsBlank(a) && IsToken(t) && IsBlank(b)
    ensures Normalize(a + t + b) == t
  {
    assert a + t + b == a + (t + b);
    SplitBlankPrefix(a, t + b);
    SplitTokenThenBlank(t, b);
  }

  /** Normalising twice is the same as normalising once. */
  lemma NormalizeIdempotent(s: string)
    ensures Normalize(Normalize(s)) == Normalize(s)
  {
  }
}
