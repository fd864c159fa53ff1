/** The JavaScript and Python string operations the core relies on:
    `trim`, ASCII `toLowerCase`/`lower`, `startsWith`, `includes`,
    `indexOf` and `split` on a one-character separator. */
module Text {

  import opened Common

  /** JavaScript's WhiteSpace and LineTerminator characters, the set that
      `trim()` strips and that the regular-expression class `\s` matches. */
  predicate IsSpace(c: char) {
    c == ' ' || c == '\t' || c == '\n' || c == '\r' || c == '\U{000B}' || c == '\U{000C}'
    || c == '\U{00A0}' || c == '\U{1680}' || ('\U{2000}' <= c <= '\U{200A}')
    || c == '\U{2028}' || c == '\U{2029}' || c == '\U{202F}' || c == '\U{205F}'
    || c == '\U{3000}' || c == '\U{FEFF}'
  }

  predicate HasNoSpace(s: string) {
    forall i :: 0 <= i < |s| ==> !IsSpace(s[i])
  }

  /** `sub` occurs in `s` at position `i`. */
  predicate OccursAt(s: string, sub: string, i: int) {
    0 <= i && i + |sub| <= |s| && s[i..i + |sub|] == sub
  }

  /** Drops the leading run of white space. */
  function TrimStart(s: string): (r: string)
    ensures |r| <= |s| && r == s[|s| - |r|..]
    ensures r == [] || !IsSpace(r[0])
    ensures forall i :: 0 <= i < |s| - |r| ==> IsSpace(s[i])
  {
    if s != [] && IsSpace(s[0]) then TrimStart(s[1..]) else s
  }

  /** Drops the trailing run of white space. */
  function TrimEnd(s: string): (r: string)
    ensures |r| <= |s| && r == s[..|r|]
    ensures r == [] || !IsSpace(r[|r| - 1])
    ensures forall i :: |r| <= i < |s| ==> IsSpace(s[i])
  {
    if s != [] && IsSpace(s[|s| - 1]) then TrimEnd(s[..|s| - 1]) else s
  }

  /** `String.prototype.trim`. */
  function Trim(s: string): (r: string)
    ensures r == [] || (!IsSpace(r[0]) && !IsSpace(r[|r| - 1]))
    ensures exists k :: OccursAt(s, r, k)
  {
    var t := TrimStart(s);
    var r := TrimEnd(t);
    assert OccursAt(s, r, |s| - |t|);
    r
  }

  /** A string without white space is its own trim. */
  lemma TrimKeepsUnspaced(s: string)
    requires HasNoSpace(s)
    ensures Trim(s) == s
  {
    assert TrimStart(s) == s;
    assert TrimEnd(s) == s;
  }

  function LowerChar(c: char): char {
    if 'A' <= c <= 'Z' then (c as int + 32) as char else c
  }

  /** ASCII lower-casing (`toLowerCase()` in JavaScript, `lower()` in Python)
      restricted to the letters A to Z. */
  function Lower(s: string): (r: string)
    ensures |r| == |s|
    ensures forall i :: 0 <= i < |s| ==> r[i] == LowerChar(s[i])
  {
    seq(|s|, i requires 0 <= i < |s| => LowerChar(s[i]))
  }

  /** The number of UTF-16 code units that encode `c`: two for a
      character outside the Basic Multilingual Plane, one otherwise. */
  function Utf16Units(c: char): nat {
    if c as int >= 0x1_0000 then 2 else 1
  }

  /** JavaScript's `length` of a string, and what Mongoose's `minlength`
      and `maxlength` validators compare: the count of UTF-16 code units,
      which can exceed the count of characters. */
  function Utf16Length(s: string): (n: nat)
    ensures |s| <= n <= 2 * |s|
  {
    if s == [] then 0 else Utf16Length(s[..|s| - 1]) + Utf16Units(s[|s| - 1])
  }

  /** For text inside the Basic Multilingual Plane, such as ASCII, the
      UTF-16 length is the character count. */
  lemma {:induction false} Utf16LengthInBasicPlane(s: string)
    requires forall i :: 0 <= i < |s| ==> s[i] as int < 0x1_0000
    ensures Utf16Length(s) == |s|
  {
    if s != [] {
      Utf16LengthInBasicPlane(s[..|s| - 1]);
    }
  }

  /** Each character outside the Basic Multilingual Plane adds a second
      code unit: a string made only of such characters has twice as many
      units as characters. */
  lemma {:induction false} Utf16LengthOutsideBasicPlane(s: string)
    requires forall i :: 0 <= i < |s| ==> s[i] as int >= 0x1_0000
    ensures Utf16Length(s) == 2 * |s|
  {
    if s != [] {
      Utf16LengthOutsideBasicPlane(s[..|s| - 1]);
    }
  }

  predicate StartsWith(s: string, prefix: string) {
    |prefix| <= |s| && s[..|prefix|] == prefix
  }

  /** `String.prototype.includes`: tries every start position in turn. */
  function Includes(s: string, sub: string): (b: bool)
    ensures b <==> exists i :: OccursAt(s, sub, i)
    decreases |s|
  {
    if StartsWith(s, sub) then
      assert OccursAt(s, sub, 0);
      true
    else if s == [] then
      assert forall i :: !OccursAt(s, sub, i);
      false
    else
      var rest := Includes(s[1..], sub);
      assert !OccursAt(s, sub, 0);
      assert rest ==> exists i :: OccursAt(s, sub, i) by {
        if rest {
          var j :| OccursAt(s[1..], sub, j);
          OccursAtShift(s, sub, j);
        }
      }
      assert (exists i :: OccursAt(s, sub, i)) ==> rest by {
        if exists i :: OccursAt(s, sub, i) {
          var j :| OccursAt(s, sub, j);
          OccursAtShift(s, sub, j - 1);
        }
      }
      rest
  }

  /** An occurrence in the tail is an occurrence one place later in the
      whole string, and back. */
  lemma OccursAtShift(s: string, sub: string, i: int)
    requires s != [] && i >= 0
    ensures OccursAt(s[1..], sub, i) <==> OccursAt(s, sub, i + 1)
  {
    if i + |sub| <= |s[1..]| {
      assert s[1..][i..i + |sub|] == s[i + 1..i + 1 + |sub|];
    }
  }

  /** The position of the first `c` in `s`. */
  function IndexOf(s: string, c: char): (i: nat)
    requires c in s
    ensures i < |s| && s[i] == c && c !in s[..i]
  {
    if s[0] == c then 0
    else
      var j := IndexOf(s[1..], c);
      assert s[..j + 1] == [s[0]] + s[1..][..j];
      j + 1
  }

  /** Any position holding the first `c` is the one IndexOf finds. */
  lemma IndexOfIsFirst(s: string, c: char, i: nat)
    requires i < |s| && s[i] == c && c !in s[..i]
    ensures IndexOf(s, c) == i
  {
  }

  /** `String.prototype.split` on a one-character separator: the pieces
      between consecutive separators, in order, always at least one. */
  function Split(s: string, sep: char): (parts: seq<string>)
    ensures |parts| >= 1
    ensures |parts| == 1 <==> sep !in s
    ensures forall k :: 0 <= k < |parts| ==> sep !in parts[k]
    decreases |s|
  {
    if sep !in s then [s]
    else
      var i := IndexOf(s, sep);
      [s[..i]] + Split(s[i + 1..], sep)
  }

  /** The first piece of a split runs up to the first separator, or to
      the end when there is none. */
  lemma SplitFirstPiece(s: string, sep: char)
    ensures var first := Split(s, sep)[0];
      && |first| <= |s| && s[..|first|] == first
      && (|first| == |s| || s[|first|] == sep)
  {
  }

  /** The second piece of a split on a string holding the separator is
      the text after the first separator up to the next one, or to the
      end. */
  lemma {:induction false} SplitSecondPiece(s: string, sep: char)
    requires sep in s
    ensures var k := IndexOf(s, sep);
      var second := Split(s, sep)[1];
      && k + 1 + |second| <= |s| && s[k + 1..k + 1 + |second|] == second
      && (k + 1 + |second| == |s| || s[k + 1 + |second|] == sep)
  {
    var k := IndexOf(s, sep);
    var t := s[k + 1..];
    var rest := Split(t, sep);
    assert Split(s, sep) == [s[..k]] + rest;
    SplitFirstPiece(t, sep);
    var second := rest[0];
    assert |second| <= |t| && t[..|second|] == second;
    assert s[k + 1..k + 1 + |second|] == t[..|second|];
    if |second| < |t| {
      assert s[k + 1 + |second|] == t[|second|];
    }
  }

  /** `Array.prototype.join` with a one-character separator. */
  function Join(parts: seq<string>, sep: char): string {
    if parts == [] then ""
    else if |parts| == 1 then parts[0]
    else parts[0] + [sep] + Join(parts[1..], sep)
  }

  /** Joining the pieces of a split gives back the original string. */
  lemma {:induction false} JoinSplit(s: string, sep: char)
    ensures Join(Split(s, sep), sep) == s
    decreases |s|
  {
    if sep in s {
      var i := IndexOf(s, sep);
      var rest := Split(s[i + 1..], sep);
      JoinSplit(s[i + 1..], sep);
      assert Split(s, sep) == [s[..i]] + rest;
      assert ([s[..i]] + rest)[1..] == rest;
      assert s == s[..i] + [sep] + s[i + 1..];
    }
  }

  /** Splitting a join of separator-free pieces gives back the pieces. */
  lemma {:induction false} SplitJoin(parts: seq<string>, sep: char)
    requires |parts| >= 1
    requires forall k :: 0 <= k < |parts| ==> sep !in parts[k]
    ensures Split(Join(parts, sep), sep) == parts
    decreases |parts|
  {
    if |parts| > 1 {
      var rest := parts[1..];
      var j := Join(parts, sep);
      var p := parts[0];
      assert j == p + [sep] + Join(rest, sep);
      assert j[..|p|] == p;
      assert j[|p|] == sep;
      IndexOfIsFirst(j, sep, |p|);
      assert j[|p| + 1..] == Join(rest, sep);
      SplitJoin(rest, sep);
      assert parts == [p] + rest;
    }
  }

  /** The `k`-th piece of a split, as `s.split(sep)[k]` reads it, with
      `None` standing for JavaScript's `undefined` past the end. */
  function Field(s: string, sep: char, k: nat): Option<string> {
    var parts := Split(s, sep);
    if k < |parts| then Some(parts[k]) else None
  }

}
