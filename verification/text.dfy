/**
 * The JavaScript string primitives the word-at-cursor analysis is built on:
 * `String.prototype.split` on a single character, `String.prototype.search(/\s/)`
 * and the `\s` character class, each with an independent characterisation.
 */
module Text {

  /** The `\s` class of ECMAScript regular expressions: WhiteSpace and LineTerminator code points. */
  predicate IsJsWhitespace(c: char) {
    var n := c as int;
    || n == 0x09 || n == 0x0A || n == 0x0B || n == 0x0C || n == 0x0D || n == 0x20
    || n == 0xA0 || n == 0x1680 || (0x2000 <= n <= 0x200A)
    || n == 0x2028 || n == 0x2029 || n == 0x202F || n == 0x205F || n == 0x3000 || n == 0xFEFF
  }

  predicate NoWhitespace(s: string) {
    forall i :: 0 <= i < |s| ==> !IsJsWhitespace(s[i])
  }

  /** Joins pieces with a separator, the inverse of Split. */
  function Join(parts: seq<string>, sep: char): string
    requires |parts| >= 1
  {
    if |parts| == 1 then parts[0] else parts[0] + [sep] + Join(parts[1..], sep)
  }

  /** `s.split(sep)` for a one-character separator: never empty, `"".split(sep) == [""]`. */
  function Split(s: string, sep: char): (parts: seq<string>)
    ensures |parts| >= 1
    ensures forall i :: 0 <= i < |parts| ==> sep !in parts[i]
    ensures Join(parts, sep) == s
  {
    if |s| == 0 then [""]
    else
      var rest := Split(s[1..], sep);
      if s[0] == sep then
        [""] + rest
      else
        assert s == [s[0]] + s[1..];
        [[s[0]] + rest[0]] + rest[1..]
  }

  /** Separator-free pieces that join to `s` are exactly `s.split(sep)`. */
  lemma {:induction false} SplitUnique(parts: seq<string>, s: string, sep: char)
    requires |parts| >= 1 && forall i :: 0 <= i < |parts| ==> sep !in parts[i]
    requires Join(parts, sep) == s
    ensures parts == Split(s, sep)
    decreases |s|
  {
    if |parts[0]| == 0 {
      if |parts| > 1 {
        assert s == [sep] + Join(parts[1..], sep);
        assert s[1..] == Join(parts[1..], sep);
        SplitUnique(parts[1..], s[1..], sep);
        assert parts == [""] + parts[1..];
      }
    } else {
      var first := parts[0];
      var shorter := [first[1..]] + parts[1..];
      assert shorter[1..] == parts[1..];
      assert first == [first[0]] + first[1..];
      if |parts| == 1 {
        assert Join(shorter, sep) == s[1..];
      } else {
        assert s == first + [sep] + Join(parts[1..], sep);
        assert Join(shorter, sep) == first[1..] + [sep] + Join(parts[1..], sep);
        assert Join(shorter, sep) == s[1..];
      }
      assert forall i :: 0 <= i < |shorter| ==> sep !in shorter[i] by {
        assert forall c :: c in first[1..] ==> c in first;
      }
      SplitUnique(shorter, s[1..], sep);
      assert s[0] == first[0] && first[0] != sep;
      assert parts == [[s[0]] + shorter[0]] + shorter[1..];
    }
  }

  /**
   * `w` is the last `sep`-delimited segment of `s`: a suffix of `s` that holds no
   * `sep` and is either all of `s` or directly preceded by `sep`.
   */
  ghost predicate IsLastSegment(w: string, s: string, sep: char) {
    && |w| <= |s|
    && w == s[|s| - |w|..]
    && sep !in w
    && (|w| == |s| || s[|s| - |w| - 1] == sep)
  }

  /** At most one string is the last segment of `s`. */
  lemma LastSegmentUnique(w1: string, w2: string, s: string, sep: char)
    requires IsLastSegment(w1, s, sep) && IsLastSegment(w2, s, sep)
    ensures w1 == w2
  {
  }

  /** The last element of `s.split(sep)`, as in `words[words.length - 1]`. */
  function LastSegment(s: string, sep: char): (w: string)
    ensures IsLastSegment(w, s, sep)
  {
    var parts := Split(s, sep);
    LastPieceIsLastSegment(parts, sep);
    parts[|parts| - 1]
  }

  /** Whatever pieces join to `s`, if none holds `sep` the last one is the last segment of `s`. */
  lemma {:induction false} LastPieceIsLastSegment(parts: seq<string>, sep: char)
    requires |parts| >= 1 && forall i :: 0 <= i < |parts| ==> sep !in parts[i]
    ensures IsLastSegment(parts[|parts| - 1], Join(parts, sep), sep)
  {
    if |parts| > 1 {
      LastPieceIsLastSegment(parts[1..], sep);
      SegmentAfterSeparator(parts[|parts| - 1], parts[0], Join(parts[1..], sep), sep);
    }
  }

  /** Putting a piece and a separator in front of a string keeps its last segment. */
  lemma SegmentAfterSeparator(w: string, p: string, t: string, sep: char)
    requires IsLastSegment(w, t, sep)
    ensures IsLastSegment(w, p + [sep] + t, sep)
  {
    var u := p + [sep] + t;
    assert u[|u| - |w|..] == t[|t| - |w|..];
    if |w| < |t| {
      assert u[|u| - |w| - 1] == t[|t| - |w| - 1];
    } else {
      assert u[|u| - |w| - 1] == sep;
    }
  }

  /**
   * `s.search(/\s/)`: the index of the first whitespace character, or -1 when
   * there is none.
   */
  function SearchWhitespace(s: string): (r: int)
    ensures -1 <= r < |s|
    ensures r == -1 <==> NoWhitespace(s)
    ensures r >= 0 ==> IsJsWhitespace(s[r]) && NoWhitespace(s[..r])
  {
    if |s| == 0 then -1
    else if IsJsWhitespace(s[0]) then 0
    else
      var k := SearchWhitespace(s[1..]);
      assert forall i :: 1 <= i < |s| ==> s[i] == s[1..][i - 1];
      if k == -1 then -1
      else
        assert s[..k + 1] == [s[0]] + s[1..][..k];
        k + 1
  }

  /**
   * `w` is the leading word of `s`: a prefix without whitespace that is either
   * all of `s` or followed by a whitespace character.
   */
  ghost predicate IsLeadingWord(w: string, s: string) {
    && |w| <= |s|
    && w == s[..|w|]
    && NoWhitespace(w)
    && (|w| == |s| || IsJsWhitespace(s[|w|]))
  }

  /** At most one string is the leading word of `s`. */
  lemma LeadingWordUnique(w1: string, w2: string, s: string)
    requires IsLeadingWord(w1, s) && IsLeadingWord(w2, s)
    ensures w1 == w2
  {
  }

  /**
   * The text after the caret up to the first whitespace, as in
   * `idx !== -1 ? after.substring(0, idx) : after` with `idx = after.search(/\s/)`.
   */
  function LeadingWord(s: string): (w: string)
    ensures IsLeadingWord(w, s)
  {
    var idx := SearchWhitespace(s);
    if idx != -1 then s[..idx] else s
  }
}
