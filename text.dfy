/**
 The handful of Python string operations the tool relies on, written out so
 that their behaviour is explicit: `str.isspace`, `str.strip()`, `str.split()`
 without arguments, `str.split(sep)`, `sep.join(parts)` and `str.endswith`.
 Strings are sequences of Unicode code points, as in Python 3.
 */
module Text {

  /** Python's notion of whitespace (the characters for which `str.isspace()`
      holds), which `strip()` and `split()` use when given no argument. */
  predicate IsSpace(c: char) {
    var n := c as int;
    || 0x09 <= n <= 0x0D
    || 0x1C <= n <= 0x20
    || n == 0x85 || n == 0xA0 || n == 0x1680
    || 0x2000 <= n <= 0x200A
    || n == 0x2028 || n == 0x2029 || n == 0x202F || n == 0x205F || n == 0x3000
  }

  predicate AllSpace(s: string) {
    forall k :: 0 <= k < |s| ==> IsSpace(s[k])
  }

  /** A non-empty string with no whitespace in it: what `split()` yields. */
  predicate IsWord(w: string) {
    w != [] && forall k :: 0 <= k < |w| ==> !IsSpace(w[k])
  }

  /** `s.endswith(suffix)` */
  predicate EndsWith(s: string, suffix: string) {
    |suffix| <= |s| && s[|s| - |suffix|..] == suffix
  }

  /** `s.startswith(prefix)` */
  predicate StartsWith(s: string, prefix: string) {
    |prefix| <= |s| && s[..|prefix|] == prefix
  }

  // ---------------------------------------------------------------------------
  // strip()

  /** Length of the leading run of whitespace. */
  function LeadingSpaces(s: string): (n: nat)
    ensures n <= |s|
    ensures forall k :: 0 <= k < n ==> IsSpace(s[k])
    ensures n == |s| || !IsSpace(s[n])
    decreases |s|
  {
    if |s| > 0 && IsSpace(s[0]) then 1 + LeadingSpaces(s[1..]) else 0
  }

  /** Moves `hi` down past the whitespace that ends `s[lo..hi]`. */
  function TrailingEnd(s: string, lo: nat, hi: nat): (j: nat)
    requires lo <= hi <= |s|
    ensures lo <= j <= hi
    ensures forall k :: j <= k < hi ==> IsSpace(s[k])
    ensures j == lo || !IsSpace(s[j - 1])
    decreases hi
  {
    if hi > lo && IsSpace(s[hi - 1]) then TrailingEnd(s, lo, hi - 1) else hi
  }

  /** `s.strip()`: skip the leading whitespace, then cut the trailing
      whitespace of what is left. The result neither starts nor ends with
      whitespace, and everything cut away on either side is whitespace. */
  function Strip(s: string): (r: string)
    ensures r == [] || (!IsSpace(r[0]) && !IsSpace(r[|r| - 1]))
    ensures LeadingSpaces(s) + |r| <= |s|
    ensures r == s[LeadingSpaces(s)..LeadingSpaces(s) + |r|]
    ensures forall k :: 0 <= k < |s| && !(LeadingSpaces(s) <= k < LeadingSpaces(s) + |r|) ==> IsSpace(s[k])
  {
    var i := LeadingSpaces(s);
    var j := TrailingEnd(s, i, |s|);
    s[i..j]
  }

  lemma {:induction false} LeadingSpacesPadded(pad: string, s: string)
    requires AllSpace(pad)
    requires s == [] || !IsSpace(s[0])
    ensures LeadingSpaces(pad + s) == |pad|
    decreases |pad|
  {
    if pad != [] {
      assert (pad + s)[1..] == pad[1..] + s;
      LeadingSpacesPadded(pad[1..], s);
    } else {
      assert pad + s == s;
    }
  }

  lemma {:induction false} TrailingEndPadded(x: string, lo: nat, hi: nat, end: nat)
    requires lo <= end <= hi <= |x|
    requires forall k :: end <= k < hi ==> IsSpace(x[k])
    requires end == lo || !IsSpace(x[end - 1])
    ensures TrailingEnd(x, lo, hi) == end
    decreases hi
  {
    if hi > end {
      TrailingEndPadded(x, lo, hi - 1, end);
    }
  }

  /** `strip()` returns exactly the text between whitespace padding: together
      with the ensures of Strip this characterises it completely. */
  lemma StripPadded(left: string, s: string, right: string)
    requires AllSpace(left) && AllSpace(right)
    requires s == [] || (!IsSpace(s[0]) && !IsSpace(s[|s| - 1]))
    ensures Strip(left + s + right) == s
  {
    var x := left + s + right;
    if s == [] {
      assert x == left + right;
      LeadingSpacesPadded(left + right, []);
      assert left + right + [] == left + right;
    } else {
      assert x == left + (s + right);
      LeadingSpacesPadded(left, s + right);
      TrailingEndPadded(x, |left|, |x|, |left| + |s|);
      assert x[|left|..|left| + |s|] == s;
    }
  }

  /** Stripping twice is stripping once. */
  lemma StripIdempotent(s: string)
    ensures Strip(Strip(s)) == Strip(s)
  {
    var r := Strip(s);
    StripPadded([], r, []);
    assert [] + r + [] == r;
  }

  // ---------------------------------------------------------------------------
  // split() without arguments

  /** Length of the leading run of non-whitespace characters. */
  function TokenEnd(s: string): (n: nat)
    ensures n <= |s|
    ensures forall k :: 0 <= k < n ==> !IsSpace(s[k])
    ensures n == |s| || IsSpace(s[n])
    decreases |s|
  {
    if |s| == 0 || IsSpace(s[0]) then 0 else 1 + TokenEnd(s[1..])
  }

  /** `s.split()`: the maximal runs of non-whitespace, in order; leading,
      trailing and repeated whitespace produce no empty words. */
  function Words(s: string): (ws: seq<string>)
    ensures forall i :: 0 <= i < |ws| ==> IsWord(ws[i])
    ensures AllSpace(s) <==> ws == []
    decreases |s|
  {
    if |s| == 0 then []
    else if IsSpace(s[0]) then
      var ws := Words(s[1..]);
      assert AllSpace(s) <==> AllSpace(s[1..]) by {
        if AllSpace(s[1..]) {
          forall k | 0 <= k < |s| ensures IsSpace(s[k]) {
            if k > 0 { assert s[k] == s[1..][k - 1]; }
          }
        }
      }
      ws
    else
      var n := TokenEnd(s);
      [s[..n]] + Words(s[n..])
  }

  lemma {:induction false} TokenEndOfWord(w: string, rest: string)
    requires IsWord(w)
    requires rest == [] || IsSpace(rest[0])
    ensures TokenEnd(w + rest) == |w|
    decreases |w|
  {
    if |w| > 1 {
      assert (w + rest)[1..] == w[1..] + rest;
      TokenEndOfWord(w[1..], rest);
    } else {
      assert (w + rest)[1..] == rest;
    }
  }

  // ---------------------------------------------------------------------------
  // sep.join(parts) and s.split(sep)

  /** `sep.join(parts)` for a one-character separator. */
  function Join(parts: seq<string>, sep: char): (s: string)
    ensures parts != [] ==> EndsWith(s, parts[|parts| - 1])
    decreases |parts|
  {
    if |parts| == 0 then ""
    else if |parts| == 1 then parts[0]
    else
      var rest := Join(parts[1..], sep);
      var s := parts[0] + [sep] + rest;
      assert s[|s| - |rest|..] == rest;
      s
  }

  /** `s.split(sep)` for a one-character separator: always at least one
      piece, empty pieces kept. */
  function SplitOn(s: string, sep: char): (pieces: seq<string>)
    ensures |pieces| >= 1
    ensures forall i :: 0 <= i < |pieces| ==> sep !in pieces[i]
    decreases |s|
  {
    if |s| == 0 then [""]
    else
      var rest := SplitOn(s[1..], sep);
      if s[0] == sep then [""] + rest
      else [[s[0]] + rest[0]] + rest[1..]
  }

  lemma {:induction false} SplitOnPiece(p: string, sep: char, s: string)
    requires sep !in p
    ensures SplitOn(p + s, sep) == if s == [] then [p] else
      var rest := SplitOn(s, sep); [p + rest[0]] + rest[1..]
    decreases |p|
  {
    if p == [] {
      assert p + s == s;
      if s == [] { }
      else {
        var rest := SplitOn(s, sep);
        assert p + rest[0] == rest[0];
        assert [rest[0]] + rest[1..] == rest;
      }
    } else {
      assert (p + s)[1..] == p[1..] + s;
      SplitOnPiece(p[1..], sep, s);
      assert [p[0]] + p[1..] == p;
      if s != [] {
        var rest := SplitOn(s, sep);
        assert [p[0]] + (p[1..] + rest[0]) == p + rest[0];
      } else {
        assert [p[0]] + p[1..] == p;
      }
    }
  }

  /** `split` undoes `join` when no piece contains the separator. */
  lemma {:induction false} SplitJoin(parts: seq<string>, sep: char)
    requires |parts| > 0
    requires forall i :: 0 <= i < |parts| ==> sep !in parts[i]
    ensures SplitOn(Join(parts, sep), sep) == parts
    decreases |parts|
  {
    if |parts| == 1 {
      SplitOnPiece(parts[0], sep, []);
      assert parts[0] + [] == parts[0];
    } else {
      var rest := Join(parts[1..], sep);
      var tail := [sep] + rest;
      assert Join(parts, sep) == parts[0] + tail;
      SplitJoin(parts[1..], sep);
      assert tail[1..] == rest;
      assert SplitOn(tail, sep) == [""] + parts[1..];
      SplitOnPiece(parts[0], sep, tail);
      assert parts[0] + "" == parts[0];
      assert parts == [parts[0]] + parts[1..];
    }
  }

  /** After a word that is followed by whitespace (or nothing), `split()`
      yields the word and then splits what follows. */
  lemma WordsAfterWord(w: string, rest: string)
    requires IsWord(w)
    requires rest == [] || IsSpace(rest[0])
    ensures Words(w + rest) == [w] + Words(rest)
  {
    var s := w + rest;
    TokenEndOfWord(w, rest);
    assert s[..|w|] == w;
    assert s[|w|..] == rest;
  }

  lemma WordsAfterSpace(c: char, rest: string)
    requires IsSpace(c)
    ensures Words([c] + rest) == Words(rest)
  {
    assert ([c] + rest)[1..] == rest;
  }

  lemma JoinCons(parts: seq<string>, sep: char)
    requires |parts| >= 2
    ensures Join(parts, sep) == parts[0] + ([sep] + Join(parts[1..], sep))
  {
  }

  /** Two words with one whitespace character between them split back into
      the two words. */
  lemma WordsOfTwo(a: string, sep: char, b: string)
    requires IsWord(a) && IsSpace(sep) && IsWord(b)
    ensures Words(a + ([sep] + b)) == [a, b]
  {
    WordsAfterWord(a, [sep] + b);
    WordsAfterSpace(sep, b);
    WordsAfterWord(b, []);
    assert b + [] == b;
  }

  lemma WordsJoinStep(ws: seq<string>, sep: char)
    requires |ws| >= 2 && IsSpace(sep) && IsWord(ws[0])
    requires Words(Join(ws[1..], sep)) == ws[1..]
    ensures Words(Join(ws, sep)) == ws
  {
    var rest := Join(ws[1..], sep);
    JoinCons(ws, sep);
    WordsAfterWord(ws[0], [sep] + rest);
    WordsAfterSpace(sep, rest);
    assert ws == [ws[0]] + ws[1..];
  }

  /** `split()` undoes a whitespace `join` of words. */
  lemma {:induction false} WordsJoin(ws: seq<string>, sep: char)
    requires IsSpace(sep)
    requires forall i :: 0 <= i < |ws| ==> IsWord(ws[i])
    ensures Words(Join(ws, sep)) == ws
    decreases |ws|
  {
    if |ws| == 0 {
    } else if |ws| == 1 {
      WordsAfterWord(ws[0], []);
      assert ws[0] + [] == ws[0];
    } else {
      WordsJoin(ws[1..], sep);
      WordsJoinStep(ws, sep);
    }
  }

  // ---------------------------------------------------------------------------
  // Regrouping concatenations

  lemma AppendAssoc<T>(a: seq<T>, b: seq<T>, c: seq<T>)
    ensures a + (b + c) == a + b + c
  {
  }

  lemma ConcatAssoc<T>(a: seq<T>, b: seq<T>, c: seq<T>, d: seq<T>, e: seq<T>)
    ensures a + (b + c + d + e) == a + b + c + d + e
  {
  }
}
