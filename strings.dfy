/**
 * String helpers standing for the PHP built-ins and SQL operators the core
 * relies on: strtolower, str_contains, LIKE '%x%', empty(), trim(), explode() and the
 * decimal rendering of an integer.
 */
module Strings {

  /** ASCII lower-casing of one character, as PHP 8's strtolower does. */
  function LowerChar(c: char): char {
    if 'A' <= c <= 'Z' then (c as int + 32) as char else c
  }

  function Lower(s: string): (r: string)
    ensures |r| == |s|
    ensures forall i :: 0 <= i < |s| ==> r[i] == LowerChar(s[i])
  {
    if s == [] then [] else [LowerChar(s[0])] + Lower(s[1..])
  }

  /** `t` occurs in `s` starting at position `i`. */
  predicate OccursAt(s: string, t: string, i: int) {
    0 <= i && i + |t| <= |s| && s[i..i + |t|] == t
  }

  /** str_contains: `t` is a substring of `s`. */
  predicate Contains(s: string, t: string) {
    exists i :: 0 <= i <= |s| - |t| && OccursAt(s, t, i)
  }

  /**
   * SQL `column LIKE '%t%'`, taken as an ASCII case-insensitive substring
   * test (the behaviour of SQLite's default LIKE); wildcards inside `t` are
   * treated as ordinary characters.
   */
  predicate Like(s: string, t: string) {
    Contains(Lower(s), Lower(t))
  }

  /** PHP's empty() on a string: true exactly for "" and "0". */
  predicate PhpEmpty(s: string) {
    s == "" || s == "0"
  }

  /** The characters PHP's trim() strips by default. */
  predicate IsTrimChar(c: char) {
    c == ' ' || c == '\t' || c == '\n' || c == '\r' || c == '\0' || c == '\U{000B}'
  }

  /**
   * explode() with a one-character separator: the pieces between the
   * separators, empty pieces included; a string without the separator is
   * one piece.
   */
  function Explode(s: string, sep: char): (r: seq<string>)
    ensures |r| >= 1
    ensures forall k :: 0 <= k < |r| ==> sep !in r[k]
  {
    if s == [] then [""]
    else
      var rest := Explode(s[1..], sep);
      if s[0] == sep then [""] + rest else [[s[0]] + rest[0]] + rest[1..]
  }

  /** implode(): the pieces with the separator between consecutive ones. */
  function Implode(pieces: seq<string>, sep: char): string {
    if pieces == [] then ""
    else if |pieces| == 1 then pieces[0]
    else pieces[0] + [sep] + Implode(pieces[1..], sep)
  }

  /** Joining the pieces of a string at the separator gives the string back. */
  lemma {:induction false} ImplodeExplode(s: string, sep: char)
    ensures Implode(Explode(s, sep), sep) == s
  {
    if s != [] {
      var rest := Explode(s[1..], sep);
      ImplodeExplode(s[1..], sep);
      if s[0] != sep {
        var r := Explode(s, sep);
        if |rest| == 1 {
          assert r == [[s[0]] + rest[0]];
        } else {
          assert r[1..] == rest[1..];
          assert Implode(rest, sep) == rest[0] + [sep] + Implode(rest[1..], sep);
        }
      }
    }
  }

  /** Pieces without the separator come back unchanged from exploding their join. */
  lemma {:induction false} ExplodeImplode(pieces: seq<string>, sep: char)
    requires |pieces| >= 1
    requires forall k :: 0 <= k < |pieces| ==> sep !in pieces[k]
    ensures Explode(Implode(pieces, sep), sep) == pieces
  {
    if |pieces| == 1 {
      ExplodeWithout(pieces[0], sep);
    } else {
      ExplodeImplode(pieces[1..], sep);
      ExplodeAfter(pieces[0], sep, Implode(pieces[1..], sep));
    }
  }

  lemma {:induction false} ExplodeWithout(p: string, sep: char)
    requires sep !in p
    ensures Explode(p, sep) == [p]
  {
    if p != [] {
      ExplodeWithout(p[1..], sep);
      assert [p[0]] + p[1..] == p;
    }
  }

  lemma {:induction false} ExplodeAfter(p: string, sep: char, t: string)
    requires sep !in p
    ensures Explode(p + [sep] + t, sep) == [p] + Explode(t, sep)
  {
    if p == [] {
      assert [] + [sep] + t == [sep] + t;
      assert ([sep] + t)[1..] == t;
    } else {
      ExplodeAfter(p[1..], sep, t);
      assert (p + [sep] + t)[1..] == p[1..] + [sep] + t;
      assert [p[0]] + p[1..] == p;
    }
  }

  /** ltrim(): drops leading whitespace. */
  function TrimLeft(s: string): string {
    if s != [] && IsTrimChar(s[0]) then TrimLeft(s[1..]) else s
  }

  /** rtrim(): drops trailing whitespace. */
  function TrimRight(s: string): string {
    if s != [] && IsTrimChar(s[|s| - 1]) then TrimRight(s[..|s| - 1]) else s
  }

  /** ltrim() leaves a suffix that does not start with whitespace, having dropped only whitespace. */
  lemma {:induction false} TrimLeftSpec(s: string)
    ensures |TrimLeft(s)| <= |s| && TrimLeft(s) == s[|s| - |TrimLeft(s)|..]
    ensures TrimLeft(s) == [] || !IsTrimChar(TrimLeft(s)[0])
    ensures forall i :: 0 <= i < |s| - |TrimLeft(s)| ==> IsTrimChar(s[i])
  {
    if s != [] && IsTrimChar(s[0]) {
      var rest := s[1..];
      var t := TrimLeft(rest);
      assert TrimLeft(s) == t;
      TrimLeftSpec(rest);
      assert rest[|rest| - |t|..] == s[|s| - |t|..];
      forall i | 0 < i < |s| - |t| ensures IsTrimChar(s[i]) {
        assert s[i] == rest[i - 1];
      }
    }
  }

  /** rtrim() leaves a prefix that does not end with whitespace, having dropped only whitespace. */
  lemma {:induction false} TrimRightSpec(s: string)
    ensures |TrimRight(s)| <= |s| && TrimRight(s) == s[..|TrimRight(s)|]
    ensures TrimRight(s) == [] || !IsTrimChar(TrimRight(s)[|TrimRight(s)| - 1])
    ensures forall i :: |TrimRight(s)| <= i < |s| ==> IsTrimChar(s[i])
  {
    if s != [] && IsTrimChar(s[|s| - 1]) {
      var rest := s[..|s| - 1];
      var t := TrimRight(rest);
      assert TrimRight(s) == t;
      TrimRightSpec(rest);
      assert rest[..|t|] == s[..|t|];
      forall i | |t| <= i < |rest| ensures IsTrimChar(s[i]) {
        assert s[i] == rest[i];
      }
    }
  }

  /** PHP trim(): strips the default whitespace characters from both ends. */
  function Trim(s: string): string {
    TrimRight(TrimLeft(s))
  }

  /**
   * trim() yields the slice of `s` left after removing every leading and
   * trailing whitespace character, and that slice has no whitespace at
   * either end.
   */
  lemma TrimSpec(s: string)
    ensures exists i, j ::
              && 0 <= i <= j <= |s| && Trim(s) == s[i..j]
              && (forall k :: 0 <= k < i ==> IsTrimChar(s[k]))
              && (forall k :: j <= k < |s| ==> IsTrimChar(s[k]))
    ensures Trim(s) == [] || (!IsTrimChar(Trim(s)[0]) && !IsTrimChar(Trim(s)[|Trim(s)| - 1]))
  {
    var l := TrimLeft(s);
    var r := TrimRight(l);
    TrimLeftSpec(s);
    TrimRightSpec(l);
    assert r == s[|s| - |l|..|s| - |l| + |r|];
  }

  /** trim() leaves a string without surrounding whitespace unchanged. */
  lemma {:induction false} TrimOfTrimmed(s: string)
    requires s == [] || (!IsTrimChar(s[0]) && !IsTrimChar(s[|s| - 1]))
    ensures Trim(s) == s
  {
    assert TrimLeft(s) == s;
    assert TrimRight(s) == s;
  }

  /** The character of one decimal digit. */
  function DigitChar(d: nat): (c: char)
    requires d < 10
    ensures '0' <= c <= '9' && c as int - '0' as int == d
  {
    ('0' as int + d) as char
  }

  /** Decimal rendering of a natural number, most significant digit first. */
  function NatToString(n: nat): (r: string)
    ensures |r| >= 1
    ensures forall i :: 0 <= i < |r| ==> '0' <= r[i] <= '9'
    decreases n
  {
    if n < 10 then [DigitChar(n)] else NatToString(n / 10) + [DigitChar(n % 10)]
  }

  /** PHP's (string) cast of an integer: an optional '-' and the decimal digits. */
  function IntToString(n: int): (r: string)
    ensures |r| >= 1
  {
    if n < 0 then "-" + NatToString(-n) else NatToString(n)
  }

  /**
   * PHP turns a string array key that is a canonical decimal integer ("0",
   * or an optional '-' and digits without a leading zero) into an int key.
   */
  predicate IsIntegerKey(s: string) {
    s == "0" ||
    var d := if |s| > 0 && s[0] == '-' then s[1..] else s;
    |d| > 0 && '1' <= d[0] <= '9' && forall i :: 0 <= i < |d| ==> '0' <= d[i] <= '9'
  }
}
