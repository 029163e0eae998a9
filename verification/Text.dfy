/** String handling the User schema relies on: JavaScript's `String.prototype.trim`
    (the schema's `trim` setter), lower-casing (the `lowercase` setter) and the shape
    accepted by the email validator `/.+@.+\..+/`. */
module Text {

  /** ECMAScript WhiteSpace and LineTerminator code points: what `trim` removes. */
  const Whitespace: set<char> := {
    '\t', '\n', '\U{B}', '\U{C}', '\r', ' ', '\U{A0}', '\U{1680}',
    '\U{2000}', '\U{2001}', '\U{2002}', '\U{2003}', '\U{2004}', '\U{2005}',
    '\U{2006}', '\U{2007}', '\U{2008}', '\U{2009}', '\U{200A}',
    '\U{2028}', '\U{2029}', '\U{202F}', '\U{205F}', '\U{3000}', '\U{FEFF}'
  }

  predicate IsWhitespace(c: char) {
    c in Whitespace
  }

  /** The characters a regular-expression `.` does not match. */
  predicate IsLineTerminator(c: char) {
    c == '\n' || c == '\r' || c == '\U{2028}' || c == '\U{2029}'
  }

  /** Neither end of `s` is whitespace: `trim` has nothing left to remove. */
  predicate IsTrimmed(s: string) {
    s == [] || (!IsWhitespace(s[0]) && !IsWhitespace(s[|s| - 1]))
  }

  /** The first position at or after `i` that does not hold whitespace, or `|s|`. */
  function StartOf(s: string, i: nat): (r: nat)
    requires i <= |s|
    ensures i <= r <= |s|
    ensures r < |s| ==> !IsWhitespace(s[r])
    decreases |s| - i
  {
    if i < |s| && IsWhitespace(s[i]) then StartOf(s, i + 1) else i
  }

  /** Everything `StartOf` skips is whitespace. */
  lemma {:induction false} StartOfSkipsWhitespace(s: string, i: nat)
    requires i <= |s|
    ensures forall k :: i <= k < StartOf(s, i) ==> IsWhitespace(s[k])
    decreases |s| - i
  {
    if i < |s| && IsWhitespace(s[i]) {
      StartOfSkipsWhitespace(s, i + 1);
    }
  }

  /** Scanning back from `j`, no further than `lo`: the end of the last character
      that does not hold whitespace, or `lo`. */
  function EndOf(s: string, lo: nat, j: nat): (r: nat)
    requires lo <= j <= |s|
    ensures lo <= r <= j
    ensures lo < r ==> !IsWhitespace(s[r - 1])
    decreases j - lo
  {
    if lo < j && IsWhitespace(s[j - 1]) then EndOf(s, lo, j - 1) else j
  }

  /** Everything `EndOf` skips is whitespace. */
  lemma {:induction false} EndOfSkipsWhitespace(s: string, lo: nat, j: nat)
    requires lo <= j <= |s|
    ensures forall k :: EndOf(s, lo, j) <= k < j ==> IsWhitespace(s[k])
    decreases j - lo
  {
    if lo < j && IsWhitespace(s[j - 1]) {
      EndOfSkipsWhitespace(s, lo, j - 1);
    }
  }

  /** `String.prototype.trim`: the part of `s` between its leading and its trailing
      whitespace. */
  function Trim(s: string): (r: string)
    ensures IsTrimmed(r)
    ensures |r| <= |s|
  {
    var i := StartOf(s, 0);
    s[i..EndOf(s, i, |s|)]
  }

  /** What trim removed is whitespace and nothing else: the result is the middle of
      `s` between a whitespace prefix and a whitespace suffix. */
  lemma TrimRemovesOnlyWhitespace(s: string)
    ensures var i := StartOf(s, 0); var j := EndOf(s, i, |s|);
              && Trim(s) == s[i..j]
              && (forall k :: 0 <= k < i ==> IsWhitespace(s[k]))
              && (forall k :: j <= k < |s| ==> IsWhitespace(s[k]))
  {
    StartOfSkipsWhitespace(s, 0);
    EndOfSkipsWhitespace(s, StartOf(s, 0), |s|);
  }

  /** Trimming a trimmed string changes nothing. */
  lemma TrimKeepsTrimmed(s: string)
    requires IsTrimmed(s)
    ensures Trim(s) == s
  {
    if s != [] {
      assert StartOf(s, 0) == 0;
      assert EndOf(s, 0, |s|) == |s|;
    }
  }

  /** Trim is idempotent. */
  lemma TrimIdempotent(s: string)
    ensures Trim(Trim(s)) == Trim(s)
  {
    TrimKeepsTrimmed(Trim(s));
  }

  predicate IsUpper(c: char) {
    'A' <= c <= 'Z'
  }

  /** Maps an ASCII upper-case letter to its lower-case partner; every other
      character is left alone. */
  function LowerChar(c: char): (d: char)
    ensures !IsUpper(d)
    ensures d != c ==> IsUpper(c) && 'a' <= d <= 'z'
  {
    if IsUpper(c) then (c as int + 32) as char else c
  }

  /** Lower-casing a character neither makes nor unmakes whitespace or a line
      terminator. */
  lemma LowerCharKeepsClass(c: char)
    ensures IsWhitespace(LowerChar(c)) <==> IsWhitespace(c)
    ensures IsLineTerminator(LowerChar(c)) <==> IsLineTerminator(c)
  {
  }

  /** No upper-case letter left: what the `lowercase` setter leaves behind. */
  predicate IsLower(s: string) {
    forall k :: 0 <= k < |s| ==> !IsUpper(s[k])
  }

  /** Lower-cases `s` character by character. */
  function Lower(s: string): (r: string)
    ensures |r| == |s|
    ensures IsLower(r)
  {
    if s == [] then [] else [LowerChar(s[0])] + Lower(s[1..])
  }

  /** `Lower` maps each character through `LowerChar` and keeps its position. */
  lemma {:induction false} LowerPointwise(s: string)
    ensures forall k :: 0 <= k < |s| ==> Lower(s)[k] == LowerChar(s[k])
  {
    if s != [] {
      var r := Lower(s);
      var t := Lower(s[1..]);
      LowerPointwise(s[1..]);
      assert r == [LowerChar(s[0])] + t;
      forall k | 1 <= k < |s|
        ensures r[k] == LowerChar(s[k])
      {
        assert r[k] == t[k - 1] && s[k] == s[1..][k - 1];
      }
    }
  }

  /** Lower-casing a string with no upper-case letter changes nothing. */
  lemma LowerKeepsLower(s: string)
    requires IsLower(s)
    ensures Lower(s) == s
  {
    LowerPointwise(s);
  }

  /** Lower-casing neither adds nor removes whitespace at the ends. */
  lemma LowerKeepsTrimmed(s: string)
    requires IsTrimmed(s)
    ensures IsTrimmed(Lower(s))
  {
    if s != [] {
      LowerPointwise(s);
      LowerCharKeepsClass(s[0]);
      LowerCharKeepsClass(s[|s| - 1]);
    }
  }

  /** The `@` at `i` and the `.` at `j` anchor a match of `.+@.+\..+`: a character
      before the `@`, at least one between the two, one after the `.`, and none of
      those a line terminator. */
  predicate ShapedAt(s: string, i: int, j: int)
    requires 0 < i < j < |s| - 1
  {
    && s[i] == '@' && s[j] == '.' && i + 1 < j
    && !IsLineTerminator(s[i - 1]) && !IsLineTerminator(s[j + 1])
    && forall k | i < k < j :: !IsLineTerminator(s[k])
  }

  /** Some substring of `s` matches the email validator's pattern. */
  predicate HasEmailShape(s: string) {
    exists i, j | 0 < i < j < |s| - 1 :: ShapedAt(s, i, j)
  }

  /** The `length` JavaScript reports for a string: its UTF-16 code units, one for
      a character of the Basic Multilingual Plane and two, a surrogate pair, for a
      character above it. */
  function Utf16Length(s: string): (n: nat)
    ensures |s| <= n <= 2 * |s|
  {
    if s == [] then 0 else CodeUnits(s[0]) + Utf16Length(s[1..])
  }

  /** The UTF-16 code units of one character. */
  function CodeUnits(c: char): nat {
    if c as int < 0x1_0000 then 1 else 2
  }

  /** The code units of a concatenation are those of its parts. */
  lemma {:induction false} Utf16LengthAppend(a: string, b: string)
    ensures Utf16Length(a + b) == Utf16Length(a) + Utf16Length(b)
    decreases |a|
  {
    if a != [] {
      assert (a + b)[0] == a[0];
      assert (a + b)[1..] == a[1..] + b;
      Utf16LengthAppend(a[1..], b);
    } else {
      assert a + b == b;
    }
  }

  /** A string of Basic Multilingual Plane characters has one code unit per
      character, and one holding a character above it has more. */
  lemma {:induction false} Utf16LengthCountsPairs(s: string)
    ensures (forall k | 0 <= k < |s| :: s[k] as int < 0x1_0000) <==> Utf16Length(s) == |s|
    decreases |s|
  {
    if s != [] {
      Utf16LengthCountsPairs(s[1..]);
      assert forall k | 1 <= k < |s| :: s[k] == s[1..][k - 1];
    }
  }
}
