/**
  The two string operations the tool relies on: counting the
  whitespace-separated tokens of a text (`split_whitespace().count()`)
  and the substring test on file names (`contains`).
 */
module Text {

  /** Rust's `char::is_whitespace`: the Unicode White_Space property. */
  predicate IsWhitespace(c: char) {
    || ('\U{9}' <= c <= '\U{D}') || c == ' ' || c == '\U{85}' || c == '\U{A0}'
    || c == '\U{1680}' || ('\U{2000}' <= c <= '\U{200A}') || c == '\U{2028}'
    || c == '\U{2029}' || c == '\U{202F}' || c == '\U{205F}' || c == '\U{3000}'
  }

  /** Position `i` is the first character of a token. */
  predicate StartsWord(s: string, i: nat)
    requires i < |s|
  {
    !IsWhitespace(s[i]) && (i == 0 || IsWhitespace(s[i - 1]))
  }

  /** The number of maximal runs of non-whitespace characters in `s`. */
  function WordCount(s: string): nat {
    if |s| == 0 then 0
    else WordCount(s[..|s| - 1]) + (if StartsWord(s, |s| - 1) then 1 else 0)
  }

  /** A text has no word exactly when it is made of whitespace only. */
  lemma {:induction false} WordCountZero(s: string)
    ensures WordCount(s) == 0 <==> forall i :: 0 <= i < |s| ==> IsWhitespace(s[i])
  {
    if |s| > 0 {
      var p := s[..|s| - 1];
      WordCountZero(p);
      if forall i :: 0 <= i < |s| ==> IsWhitespace(s[i]) {
        assert forall i :: 0 <= i < |p| ==> IsWhitespace(p[i]) by {
          forall i | 0 <= i < |p| ensures IsWhitespace(p[i]) { assert p[i] == s[i]; }
        }
      }
    }
  }

  /** A non-empty text without whitespace. */
  predicate IsWord(s: string) {
    |s| > 0 && forall i :: 0 <= i < |s| ==> !IsWhitespace(s[i])
  }

  /** A single word counts one. */
  lemma {:induction false} WordCountSingle(s: string)
    requires IsWord(s)
    ensures WordCount(s) == 1
  {
    if |s| > 1 {
      var p := s[..|s| - 1];
      assert forall i :: 0 <= i < |p| ==> p[i] == s[i];
      WordCountSingle(p);
    }
  }

  /** Texts joined by a whitespace character: their word counts add up. */
  lemma {:induction false} WordCountJoin(a: string, c: char, b: string)
    requires IsWhitespace(c)
    ensures WordCount(a + [c] + b) == WordCount(a) + WordCount(b)
  {
    var s := a + [c] + b;
    if b == [] {
      assert s[..|s| - 1] == a;
    } else {
      var b' := b[..|b| - 1];
      assert s[..|s| - 1] == a + [c] + b';
      WordCountJoin(a, c, b');
      assert s[|s| - 1] == b[|b| - 1];
      assert s[|s| - 2] == if |b| == 1 then c else b[|b| - 2];
    }
  }

  /** A word followed by a space adds one to the count of what follows. */
  lemma Prepend(w: string, rest: string)
    requires IsWord(w)
    ensures WordCount(w + " " + rest) == 1 + WordCount(rest)
  {
    WordCountSingle(w);
    WordCountJoin(w, ' ', rest);
  }

  /** Words joined by single spaces. */
  function Unwords(ws: seq<string>): string {
    if |ws| <= 1 then (if ws == [] then "" else ws[0]) else ws[0] + " " + Unwords(ws[1..])
  }

  /** Words joined by single spaces count one each. */
  lemma {:induction false} WordCountUnwords(ws: seq<string>)
    requires forall k :: 0 <= k < |ws| ==> IsWord(ws[k])
    ensures WordCount(Unwords(ws)) == |ws|
  {
    if |ws| == 1 {
      WordCountSingle(ws[0]);
    } else if |ws| > 1 {
      WordCountUnwords(ws[1..]);
      Prepend(ws[0], Unwords(ws[1..]));
    }
  }

  /** `pat` occurs in `s` at position `i`. */
  predicate OccursAt(s: string, pat: string, i: nat) {
    i + |pat| <= |s| && s[i..i + |pat|] == pat
  }

  /** Rust's `str::contains` with a string pattern. */
  function Contains(s: string, pat: string): (b: bool)
    ensures b <==> exists i: nat :: OccursAt(s, pat, i)
  {
    if |s| < |pat| then false
    else if s[..|pat|] == pat then (assert OccursAt(s, pat, 0); true)
    else
      var b := Contains(s[1..], pat);
      assert forall i: nat :: OccursAt(s[1..], pat, i) <==> OccursAt(s, pat, i + 1) by {
        forall i: nat ensures OccursAt(s[1..], pat, i) <==> OccursAt(s, pat, i + 1) {
          if i + |pat| <= |s[1..]| {
            assert s[1..][i..i + |pat|] == s[i + 1..i + 1 + |pat|];
          }
        }
      }
      assert !OccursAt(s, pat, 0);
      assert (exists i: nat :: OccursAt(s, pat, i)) ==> exists i: nat :: OccursAt(s[1..], pat, i) by {
        if exists i: nat :: OccursAt(s, pat, i) {
          var i: nat :| OccursAt(s, pat, i);
          assert i > 0;
          assert OccursAt(s[1..], pat, i - 1);
        }
      }
      b
  }
}
