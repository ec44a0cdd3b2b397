/** Character classes and string operations as Python 3 applies them to text
    decoded as Latin-1 (every character is in U+0000..U+00FF). */
module Strings {

  /** Python's `str.isspace`, which is also what `\s`, `str.strip()` and
      `str.split()` use: TAB..CR, the four separators U+001C..U+001F, SPACE,
      NEXT LINE (U+0085) and NO-BREAK SPACE (U+00A0). */
  predicate IsSpace(c: char) {
    var n := c as int;
    n == 32 || 9 <= n <= 13 || 28 <= n <= 31 || n == 0x85 || n == 0xA0
  }

  /** `\d` on Latin-1 text: only the ASCII digits are decimal digits there. */
  predicate IsDigit(c: char) {
    '0' <= c <= '9'
  }

  predicate NoSpace(s: string) {
    forall i :: 0 <= i < |s| ==> !IsSpace(s[i])
  }

  predicate AllSpace(s: string) {
    forall i :: 0 <= i < |s| ==> IsSpace(s[i])
  }

  /** No whitespace at either end: what `str.strip()` guarantees. */
  predicate IsTrimmed(s: string) {
    s == [] || (!IsSpace(s[0]) && !IsSpace(s[|s| - 1]))
  }

  /** `str.lstrip()`: the suffix that remains after the leading whitespace. */
  function TrimStart(s: string): (r: string)
    ensures |r| <= |s| && r == s[|s| - |r|..]
    ensures AllSpace(s[..|s| - |r|])
    ensures r == [] || !IsSpace(r[0])
  {
    if s != [] && IsSpace(s[0]) then TrimStart(s[1..]) else s
  }

  /** `str.rstrip()`: the prefix that remains before the trailing whitespace. */
  function TrimEnd(s: string): (r: string)
    ensures |r| <= |s| && r == s[..|r|]
    ensures AllSpace(s[|r|..])
    ensures r == [] || !IsSpace(r[|r| - 1])
  {
    if s != [] && IsSpace(s[|s| - 1]) then
      var t := s[..|s| - 1];
      var r := TrimEnd(t);
      assert t[..|r|] == s[..|r|];
      assert s[|r|..] == t[|r|..] + [s[|s| - 1]];
      r
    else
      s
  }

  /** `str.strip()`. */
  function Trim(s: string): (r: string)
    ensures IsTrimmed(r)
    ensures |r| <= |s|
  {
    TrimEnd(TrimStart(s))
  }

  /** Leading whitespace is all that `TrimStart` looks past. */
  lemma {:induction false} TrimStartPadded(pre: string, s: string)
    requires AllSpace(pre)
    ensures TrimStart(pre + s) == TrimStart(s)
  {
    if pre == [] {
      assert pre + s == s;
    } else {
      assert (pre + s)[0] == pre[0];
      assert IsSpace(pre[0]);
      assert (pre + s)[1..] == pre[1..] + s;
      assert AllSpace(pre[1..]) by {
        forall i | 0 <= i < |pre[1..]| ensures IsSpace(pre[1..][i]) { assert pre[1..][i] == pre[i + 1]; }
      }
      TrimStartPadded(pre[1..], s);
    }
  }

  /** Trailing whitespace is all that `TrimEnd` looks past. */
  lemma {:induction false} TrimEndPadded(s: string, post: string)
    requires AllSpace(post)
    ensures TrimEnd(s + post) == TrimEnd(s)
  {
    if post == [] {
      assert s + post == s;
    } else {
      var n := |post| - 1;
      assert (s + post)[|s + post| - 1] == post[n];
      assert IsSpace(post[n]);
      assert (s + post)[..|s + post| - 1] == s + post[..n];
      assert AllSpace(post[..n]) by {
        forall i | 0 <= i < n ensures IsSpace(post[..n][i]) { assert post[..n][i] == post[i]; }
      }
      TrimEndPadded(s, post[..n]);
    }
  }

  /** Trim is characterised by what it removes: whitespace padding around a
      core that neither starts nor ends with whitespace. */
  lemma TrimPadded(pre: string, core: string, post: string)
    requires AllSpace(pre) && AllSpace(post) && IsTrimmed(core)
    ensures Trim(pre + core + post) == core
  {
    assert pre + core + post == pre + (core + post);
    TrimStartPadded(pre, core + post);
    if core == [] {
      assert core + post == post;
      TrimStartPadded(post, []);
      assert post + [] == post;
      TrimEndPadded([], []);
    } else {
      assert TrimStart(core + post) == core + post;
      TrimEndPadded(core, post);
    }
  }

  /** Stripping twice is stripping once. */
  lemma TrimIdempotent(s: string)
    ensures Trim(Trim(s)) == Trim(s)
  {
    var t := Trim(s);
    assert [] + t + [] == t;
    TrimPadded([], t, []);
  }

  /** `str.lower()` on one Latin-1 character: A-Z and the Latin-1 capitals
      U+00C0..U+00DE other than the multiplication sign U+00D7 move up by 32;
      every other character is its own lower case. */
  function LowerChar(c: char): (r: char)
    ensures IsDigit(r) <==> IsDigit(c)
  {
    var n := c as int;
    if 65 <= n <= 90 || (192 <= n <= 222 && n != 215) then (n + 32) as char else c
  }

  /** `str.lower()`. */
  function Lower(s: string): (r: string)
    ensures |r| == |s|
    ensures forall i :: 0 <= i < |s| ==> r[i] == LowerChar(s[i])
  {
    seq(|s|, i requires 0 <= i < |s| => LowerChar(s[i]))
  }

  /** Lower-casing a lower-cased string changes nothing. */
  lemma LowerIdempotent(s: string)
    ensures Lower(Lower(s)) == Lower(s)
  {
  }

  /** `p` occurs in `s` starting at position `i`. */
  ghost predicate OccursAt(s: string, p: string, i: int) {
    0 <= i && i + |p| <= |s| && s[i..i + |p|] == p
  }

  predicate IsPrefix(p: string, s: string) {
    |p| <= |s| && s[..|p|] == p
  }

  /** Python's `p in s`. */
  function Contains(s: string, p: string): (b: bool)
    ensures b <==> exists i :: OccursAt(s, p, i)
    decreases |s|
  {
    if IsPrefix(p, s) then
      assert OccursAt(s, p, 0);
      true
    else if s == [] then
      assert forall i :: !OccursAt(s, p, i) by {
        forall i | OccursAt(s, p, i) ensures false { }
      }
      false
    else
      var b := Contains(s[1..], p);
      assert b ==> exists i :: OccursAt(s, p, i) by {
        if b {
          var j :| OccursAt(s[1..], p, j);
          assert s[1..][j..j + |p|] == s[j + 1..j + 1 + |p|];
          assert OccursAt(s, p, j + 1);
        }
      }
      assert (exists i :: OccursAt(s, p, i)) ==> b by {
        if exists i :: OccursAt(s, p, i) {
          var i :| OccursAt(s, p, i);
          assert i != 0;
          assert s[1..][i - 1..i - 1 + |p|] == s[i..i + |p|];
          assert OccursAt(s[1..], p, i - 1);
        }
      }
      b
  }

  /** A pattern with a character the text lacks does not occur in it. */
  lemma MissingCharNotContained(s: string, p: string, k: nat)
    requires k < |p| && forall i :: 0 <= i < |s| ==> s[i] != p[k]
    ensures !Contains(s, p)
  {
    forall i | 0 <= i && i + |p| <= |s| ensures !OccursAt(s, p, i) {
      assert s[i..i + |p|][k] == s[i + k] != p[k];
    }
  }

  /** Length of the leading run of non-whitespace characters. */
  function TokenLength(s: string): (n: nat)
    ensures n <= |s|
    ensures NoSpace(s[..n])
    ensures n == |s| || IsSpace(s[n])
  {
    if s == [] || IsSpace(s[0]) then 0 else 1 + TokenLength(s[1..])
  }

  /** `str.split()` with no separator: the maximal runs of non-whitespace
      characters, in order; leading, trailing and repeated whitespace give no
      empty words. */
  function Words(s: string): (ws: seq<string>)
    ensures forall i :: 0 <= i < |ws| ==> ws[i] != [] && NoSpace(ws[i])
    decreases |s|
  {
    var t := TrimStart(s);
    if t == [] then []
    else
      var n := TokenLength(t);
      WordsStep(s, t, n);
      var w := t[..n];
      var rest := Words(t[n..]);
      WordsCons(w, rest);
      [w] + rest
  }

  /** Putting a word in front of words gives words. */
  lemma WordsCons(w: string, rest: seq<string>)
    requires w != [] && NoSpace(w)
    requires forall i :: 0 <= i < |rest| ==> rest[i] != [] && NoSpace(rest[i])
    ensures forall i :: 0 <= i < |[w] + rest| ==> ([w] + rest)[i] != [] && NoSpace(([w] + rest)[i])
  {
  }

  /** The first token of the trimmed text is a non-empty word, and shorter. */
  lemma WordsStep(s: string, t: string, n: nat)
    requires t == TrimStart(s) && t != [] && n == TokenLength(t)
    ensures 1 <= n <= |t| <= |s| && t[..n] != [] && NoSpace(t[..n])
  {
  }

  /** Words joined by single spaces. */
  function JoinWords(ws: seq<string>): string {
    if ws == [] then "" else if |ws| == 1 then ws[0] else ws[0] + " " + JoinWords(ws[1..])
  }

  lemma {:induction false} TokenLengthWord(w: string, rest: string)
    requires NoSpace(w)
    requires rest == [] || IsSpace(rest[0])
    ensures TokenLength(w + rest) == |w|
  {
    if w != [] {
      assert (w + rest)[0] == w[0];
      assert (w + rest)[1..] == w[1..] + rest;
      TokenLengthWord(w[1..], rest);
    } else {
      assert w + rest == rest;
    }
  }

  /** Leading whitespace does not change the words. */
  lemma WordsPadded(pre: string, s: string)
    requires AllSpace(pre)
    ensures Words(pre + s) == Words(s)
  {
    TrimStartPadded(pre, s);
  }

  /** A word followed by nothing or by whitespace is the first word. */
  lemma WordsOfWordThenRest(w: string, rest: string)
    requires w != [] && NoSpace(w)
    requires rest == [] || IsSpace(rest[0])
    ensures Words(w + rest) == [w] + Words(rest)
  {
    var s := w + rest;
    assert s[0] == w[0];
    assert TrimStart(s) == s;
    TokenLengthWord(w, rest);
    assert s[..|w|] == w;
    assert s[|w|..] == rest;
  }

  /** Splitting single-space-joined words gives the words back. */
  lemma {:induction false} WordsOfJoin(ws: seq<string>)
    requires forall i :: 0 <= i < |ws| ==> ws[i] != [] && NoSpace(ws[i])
    ensures Words(JoinWords(ws)) == ws
  {
    if |ws| == 1 {
      WordsOfWordThenRest(ws[0], []);
      assert ws[0] + [] == ws[0];
    } else if |ws| > 1 {
      var w, rest := ws[0], ws[1..];
      assert ws == [w] + rest;
      assert forall i :: 0 <= i < |rest| ==> rest[i] == ws[i + 1];
      WordsOfJoin(rest);
      var tail := JoinWords(rest);
      assert JoinWords(ws) == w + " " + tail;
      WordThenJoined(w, tail);
    }
  }

  /** A word, a space and more text: the word, then the words of the rest. */
  lemma WordThenJoined(w: string, tail: string)
    requires w != [] && NoSpace(w)
    ensures Words(w + " " + tail) == [w] + Words(tail)
  {
    var sp := " ";
    var rest := sp + tail;
    assert rest[0] == ' ';
    assert w + sp + tail == w + rest;
    WordsOfWordThenRest(w, rest);
    assert AllSpace(sp);
    WordsPadded(sp, tail);
  }

  /** A string with no non-whitespace character has no words; in particular
      the empty comment counts 0 words. */
  lemma NoWordsInBlank(s: string)
    requires AllSpace(s)
    ensures Words(s) == []
  {
    assert s + [] == s;
    TrimStartPadded(s, []);
  }

  /** A non-empty string with no whitespace at its ends has at least one word. */
  lemma TrimmedHasWord(s: string)
    requires s != [] && IsTrimmed(s)
    ensures |Words(s)| >= 1
  {
    assert TrimStart(s) == s;
  }
}
