/** The JavaScript string operations the catalogue relies on, over `seq<char>`. */
module Text {

  /** ASCII lower-casing of one character (`toLowerCase` restricted to A-Z). */
  function LowerChar(c: char): char {
    if 'A' <= c <= 'Z' then (c as int + 32) as char else c
  }

  /** `toLowerCase`, ASCII letters only. */
  function Lower(s: string): (r: string)
    ensures |r| == |s|
    ensures forall i :: 0 <= i < |s| ==> r[i] == LowerChar(s[i])
  {
    seq(|s|, i requires 0 <= i < |s| => LowerChar(s[i]))
  }

  /** Lower-casing twice is lower-casing once. */
  lemma LowerIdempotent(s: string)
    ensures Lower(Lower(s)) == Lower(s)
  {
  }

  /** `hay.includes(needle)`: `needle` occurs in `hay` starting at some offset. */
  predicate Contains(hay: string, needle: string)
    ensures Contains(hay, needle) ==> |needle| <= |hay|
    decreases |hay|
  {
    needle <= hay || (hay != [] && Contains(hay[1..], needle))
  }

  /** `needle` occurs in `hay` at offset `k`. */
  ghost predicate OccursAt(hay: string, needle: string, k: int) {
    0 <= k <= |hay| - |needle| && hay[k..k + |needle|] == needle
  }

  /** `Contains` is exactly "`needle` occurs at some offset of `hay`". */
  lemma {:induction false} ContainsIff(hay: string, needle: string)
    ensures Contains(hay, needle) <==> exists k :: OccursAt(hay, needle, k)
  {
    if needle <= hay {
      assert OccursAt(hay, needle, 0);
    } else if hay == [] {
      assert forall k :: !OccursAt(hay, needle, k);
    } else {
      ContainsIff(hay[1..], needle);
      if k :| OccursAt(hay, needle, k) {
        assert k != 0;
        assert OccursAt(hay[1..], needle, k - 1);
      }
      if k :| OccursAt(hay[1..], needle, k) {
        assert OccursAt(hay, needle, k + 1);
      }
    }
  }

  /** The empty string occurs in every string. */
  lemma ContainsEmpty(hay: string)
    ensures Contains(hay, "")
  {
  }

  /** `s.startsWith(prefix)`. */
  predicate StartsWith(s: string, prefix: string) {
    prefix <= s
  }

  /** The characters `String.prototype.trim` strips: ECMAScript WhiteSpace and LineTerminator. */
  predicate IsWhitespace(c: char) {
    var n := c as int;
    || n == 0x09 || n == 0x0A || n == 0x0B || n == 0x0C || n == 0x0D || n == 0x20
    || n == 0xA0 || n == 0x1680 || 0x2000 <= n <= 0x200A || n == 0x2028 || n == 0x2029
    || n == 0x202F || n == 0x205F || n == 0x3000 || n == 0xFEFF
  }

  /** No whitespace at either end. */
  predicate IsTrimmed(s: string) {
    s == [] || (!IsWhitespace(s[0]) && !IsWhitespace(s[|s| - 1]))
  }

  predicate AllWhitespace(s: string) {
    forall i :: 0 <= i < |s| ==> IsWhitespace(s[i])
  }

  /** The length of the run of whitespace `s` starts with. */
  function LeadingSpace(s: string): (n: nat)
    ensures n <= |s|
    ensures forall i :: 0 <= i < n ==> IsWhitespace(s[i])
    ensures n < |s| ==> !IsWhitespace(s[n])
  {
    if s != [] && IsWhitespace(s[0]) then 1 + LeadingSpace(s[1..]) else 0
  }

  /** The length of the run of whitespace `s` ends with. */
  function TrailingSpace(s: string): (n: nat)
    ensures n <= |s|
    ensures forall i :: |s| - n <= i < |s| ==> IsWhitespace(s[i])
    ensures n < |s| ==> !IsWhitespace(s[|s| - n - 1])
  {
    if s != [] && IsWhitespace(s[|s| - 1]) then 1 + TrailingSpace(s[..|s| - 1]) else 0
  }

  /**
   * `s.trim()`: the slice of `s` left after dropping its leading whitespace run and then
   * the trailing whitespace run of the rest; what is dropped on each side is whitespace.
   */
  function Trim(s: string): (r: string)
    ensures IsTrimmed(r)
    ensures |r| <= |s|
  {
    var a := LeadingSpace(s);
    var b := TrailingSpace(s[a..]);
    s[a..|s| - b]
  }

  /** Trimming keeps one contiguous slice of `s` and drops only whitespace before and after it. */
  lemma TrimSlice(s: string)
    ensures var a, r := LeadingSpace(s), Trim(s);
            && a + |r| <= |s| && r == s[a..a + |r|]
            && (forall i :: 0 <= i < a ==> IsWhitespace(s[i]))
            && (forall i :: a + |r| <= i < |s| ==> IsWhitespace(s[i]))
  {
    var a := LeadingSpace(s);
    var t := s[a..];
    var b := TrailingSpace(t);
    assert Trim(s) == s[a..|s| - b];
    forall i | |s| - b <= i < |s|
      ensures IsWhitespace(s[i])
    {
      assert s[i] == t[i - a];
    }
  }

  /** A character absent from `s` is absent from its trimmed form. */
  lemma TrimKeepsOut(s: string, c: char)
    requires c !in s
    ensures c !in Trim(s)
  {
    TrimSlice(s);
  }

  /** Trimming removes something only when there is whitespace at an end. */
  lemma TrimTrimmed(s: string)
    requires IsTrimmed(s)
    ensures Trim(s) == s
  {
    if s != [] {
      assert LeadingSpace(s) == 0;
      assert s[0..] == s;
      assert TrailingSpace(s) == 0;
    }
  }

  /** A trimmed string trims to itself after one leading blank (the blank of `", "`). */
  lemma TrimAfterBlank(s: string)
    requires IsTrimmed(s)
    ensures Trim(" " + s) == s
  {
    var b := " " + s;
    assert b[1..] == s;
    assert LeadingSpace(b) == 1 + LeadingSpace(s);
    if s != [] {
      assert LeadingSpace(s) == 0;
      assert TrailingSpace(s) == 0;
    }
  }

  /** A string trims to nothing exactly when it is all whitespace. */
  lemma TrimEmptyIff(s: string)
    ensures Trim(s) == "" <==> AllWhitespace(s)
  {
    TrimSlice(s);
  }

  /** `s.split(sep)` for a one-character separator: the maximal separator-free pieces, at least one. */
  function Split(s: string, sep: char): (parts: seq<string>)
    ensures |parts| >= 1
    ensures forall i :: 0 <= i < |parts| ==> sep !in parts[i]
    decreases |s|
  {
    if s == [] then [""]
    else if s[0] == sep then [""] + Split(s[1..], sep)
    else
      var rest := Split(s[1..], sep);
      [[s[0]] + rest[0]] + rest[1..]
  }

  /** `parts.join(sep)`; the join of no parts is the empty string. */
  function Join(parts: seq<string>, sep: string): (r: string)
    ensures parts == [] ==> r == ""
    ensures parts != [] ==> parts[0] <= r
    ensures |parts| > 1 ==> parts[0] + sep <= r
  {
    if parts == [] then ""
    else if |parts| == 1 then parts[0]
    else parts[0] + sep + Join(parts[1..], sep)
  }

  /** Splitting then joining with the same separator gives the text back. */
  lemma {:induction false} JoinSplit(s: string, sep: char)
    ensures Join(Split(s, sep), [sep]) == s
  {
    if s != [] {
      JoinSplit(s[1..], sep);
      var rest := Split(s[1..], sep);
      if s[0] == sep {
        assert Split(s, sep)[1..] == rest;
        assert s == [sep] + s[1..];
      } else {
        var parts := Split(s, sep);
        assert parts[0] == [s[0]] + rest[0] && parts[1..] == rest[1..];
        if |rest| == 1 {
          assert s == [s[0]] + s[1..];
        } else {
          assert Join(rest, [sep]) == rest[0] + [sep] + Join(rest[1..], [sep]);
          assert s == [s[0]] + s[1..];
        }
      }
    }
  }

  /** A separator-free piece followed by the separator is split off as one part. */
  lemma {:induction false} SplitAfterPiece(x: string, y: string, sep: char)
    requires sep !in x
    ensures Split(x + [sep] + y, sep) == [x] + Split(y, sep)
  {
    if x == [] {
      assert x + [sep] + y == [sep] + y;
      assert ([sep] + y)[1..] == y;
    } else {
      SplitAfterPiece(x[1..], y, sep);
      assert (x + [sep] + y)[1..] == x[1..] + [sep] + y;
      assert [x[0]] + x[1..] == x;
    }
  }

  /** A separator-free text splits into itself alone. */
  lemma {:induction false} SplitWhole(x: string, sep: char)
    requires sep !in x
    ensures Split(x, sep) == [x]
  {
    if x != [] {
      SplitWhole(x[1..], sep);
      assert [x[0]] + x[1..] == x;
    }
  }

  /** Joining separator-free parts then splitting gives the parts back. */
  lemma {:induction false} SplitJoin(parts: seq<string>, sep: char)
    requires |parts| >= 1
    requires forall i :: 0 <= i < |parts| ==> sep !in parts[i]
    ensures Split(Join(parts, [sep]), sep) == parts
  {
    if |parts| == 1 {
      SplitWhole(parts[0], sep);
    } else {
      SplitJoin(parts[1..], sep);
      SplitAfterPiece(parts[0], Join(parts[1..], [sep]), sep);
      assert [parts[0]] + parts[1..] == parts;
    }
  }
}
