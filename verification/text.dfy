/**
 * The two string operations the ledger relies on: trimming surrounding
 * whitespace (Python's `str.strip()` with no argument) and lower-casing
 * (Python's `str.lower()`). Both are modelled over the ASCII range only.
 */
module Text {

  /** Whitespace as `str.isspace()` classifies it within ASCII:
      tab, line feed, vertical tab, form feed, carriage return,
      the four separators 0x1C..0x1F, and space. */
  predicate IsSpace(c: char) {
    || c == ' '
    || ('\t' <= c <= '\r')
    || ('\U{1C}' <= c <= '\U{1F}')
  }

  predicate AllSpace(s: string) {
    forall k :: 0 <= k < |s| ==> IsSpace(s[k])
  }

  /** True of a string that `Strip` leaves alone. */
  predicate Trimmed(s: string) {
    s == [] || (!IsSpace(s[0]) && !IsSpace(s[|s| - 1]))
  }

  /** Drops leading whitespace: the result is a suffix of `s`, the part
      dropped is all whitespace, and the result does not start with it. */
  function TrimLeft(s: string): (r: string)
    ensures |r| <= |s| && r == s[|s| - |r|..]
    ensures AllSpace(s[..|s| - |r|])
    ensures r != [] ==> !IsSpace(r[0])
  {
    if |s| > 0 && IsSpace(s[0]) then
      var r := TrimLeft(s[1..]);
      assert s[..|s| - |r|] == [s[0]] + s[1..][..|s| - 1 - |r|];
      r
    else s
  }

  /** Drops trailing whitespace: the result is a prefix of `s`, the part
      dropped is all whitespace, and the result does not end with it. */
  function TrimRight(s: string): (r: string)
    ensures |r| <= |s| && r == s[..|r|]
    ensures AllSpace(s[|r|..])
    ensures r != [] ==> !IsSpace(r[|r| - 1])
  {
    if |s| > 0 && IsSpace(s[|s| - 1]) then
      var r := TrimRight(s[..|s| - 1]);
      assert s[|r|..] == s[..|s| - 1][|r|..] + [s[|s| - 1]];
      r
    else s
  }

  /** `str.strip()`: removes whitespace from both ends. The result is
      empty exactly when `s` is all whitespace. */
  function Strip(s: string): (r: string)
    ensures |r| <= |s|
    ensures Trimmed(r)
    ensures r == [] <==> AllSpace(s)
  {
    var t := TrimLeft(s);
    assert AllSpace(t) ==> AllSpace(s) by {
      if AllSpace(t) {
        assert t == [];
        assert s[..|s|] == s;
      }
    }
    TrimRight(t)
  }

  lemma {:induction false} TrimLeftOfSpaces(p: string, rest: string)
    requires AllSpace(p)
    requires rest == [] || !IsSpace(rest[0])
    ensures TrimLeft(p + rest) == rest
    decreases |p|
  {
    if |p| == 0 {
      assert p + rest == rest;
    } else {
      assert (p + rest)[0] == p[0];
      assert (p + rest)[1..] == p[1..] + rest;
      TrimLeftOfSpaces(p[1..], rest);
    }
  }

  lemma {:induction false} TrimRightOfSpaces(rest: string, q: string)
    requires AllSpace(q)
    requires rest == [] || !IsSpace(rest[|rest| - 1])
    ensures TrimRight(rest + q) == rest
    decreases |q|
  {
    if |q| == 0 {
      assert rest + q == rest;
    } else {
      var n := |rest + q|;
      assert (rest + q)[n - 1] == q[|q| - 1];
      assert (rest + q)[..n - 1] == rest + q[..|q| - 1];
      TrimRightOfSpaces(rest, q[..|q| - 1]);
    }
  }

  /** `Strip` is characterised by what it keeps: whatever lies between a
      whitespace prefix and a whitespace suffix, when that middle part
      neither starts nor ends with whitespace. */
  lemma StripUnique(p: string, m: string, q: string)
    requires AllSpace(p) && AllSpace(q) && Trimmed(m)
    ensures Strip(p + m + q) == m
  {
    if m == [] {
      assert p + m + q == p + q;
      assert AllSpace(p + q) by {
        forall k | 0 <= k < |p + q| ensures IsSpace((p + q)[k]) {
          if k < |p| { assert (p + q)[k] == p[k]; } else { assert (p + q)[k] == q[k - |p|]; }
        }
      }
    } else {
      assert p + m + q == p + (m + q);
      assert (m + q)[0] == m[0];
      TrimLeftOfSpaces(p, m + q);
      TrimRightOfSpaces(m, q);
    }
  }

  /** Stripping twice is stripping once. */
  lemma StripIdempotent(s: string)
    ensures Strip(Strip(s)) == Strip(s)
  {
  }

  /** `str.lower()` on one character: ASCII capitals map to small letters. */
  function LowerChar(c: char): char {
    if 'A' <= c <= 'Z' then (c as int - 'A' as int + 'a' as int) as char else c
  }

  function Lower(s: string): (r: string)
    ensures |r| == |s|
    ensures forall k :: 0 <= k < |s| ==> r[k] == LowerChar(s[k])
  {
    seq(|s|, k requires 0 <= k < |s| => LowerChar(s[k]))
  }

  /** Lower-casing a lower-cased string changes nothing. */
  lemma LowerIdempotent(s: string)
    ensures Lower(Lower(s)) == Lower(s)
  {
  }

  /** The case-insensitive name comparison the ledger uses. */
  predicate SameIgnoringCase(a: string, b: string) {
    Lower(a) == Lower(b)
  }

  /** Two characters are the same letter up to ASCII case, or identical. */
  predicate CharsMatchIgnoringCase(c: char, d: char) {
    || c == d
    || ('A' <= c <= 'Z' && d as int == c as int + 32)
    || ('A' <= d <= 'Z' && c as int == d as int + 32)
  }

  lemma LowerCharSame(c: char, d: char)
    ensures LowerChar(c) == LowerChar(d) <==> CharsMatchIgnoringCase(c, d)
  {
  }

  /** Comparing lower-cased strings is comparing character by character
      up to ASCII case. */
  lemma SameIgnoringCaseIff(a: string, b: string)
    ensures SameIgnoringCase(a, b) <==>
              |a| == |b| && forall k :: 0 <= k < |a| ==> CharsMatchIgnoringCase(a[k], b[k])
  {
  }
}
