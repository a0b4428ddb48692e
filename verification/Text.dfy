/** The string operations that several components share. */
module Text {
  /** The white space that stripping removes: that of Unicode. */
  predicate White(c: char) {
    var n := c as int;
    || 0x09 <= n <= 0x0D || 0x1C <= n <= 0x20 || n == 0x85 || n == 0xA0 || n == 0x1680 || 0x2000 <= n <= 0x200A
    || n == 0x2028 || n == 0x2029 || n == 0x202F || n == 0x205F || n == 0x3000
  }

  /** Letter case as in ASCII. */
  function Lower(s: string): (r: string)
    ensures |r| == |s|
  {
    seq(|s|, i requires 0 <= i < |s| =>
      if 'A' <= s[i] <= 'Z' then (s[i] as int + 32) as char else s[i])
  }

  function Strip(s: string): (r: string)
    ensures r != "" ==> !White(r[0]) && !White(r[|r| - 1])
    decreases |s|
  {
    if s == "" then ""
    else if White(s[0]) then Strip(s[1..])
    else if White(s[|s| - 1]) then Strip(s[..|s| - 1])
    else s
  }

  lemma {:induction false} StripFixed(s: string)
    requires s != "" ==> !White(s[0]) && !White(s[|s| - 1])
    ensures Strip(s) == s
  {
  }

  /** Strings compare by their first difference; a prefix comes first. */
  predicate StringLess(a: string, b: string) {
    b != [] && (a == [] || a[0] < b[0] || (a[0] == b[0] && StringLess(a[1..], b[1..])))
  }

  lemma {:induction false} StringLessTotal(a: string, b: string)
    ensures a == b || StringLess(a, b) || StringLess(b, a)
    ensures !(StringLess(a, b) && StringLess(b, a)) && !StringLess(a, a)
  {
    if a != [] && b != [] {
      StringLessTotal(a[1..], b[1..]);
      StringLessTotal(a[1..], a[1..]);
      assert a == [a[0]] + a[1..] && b == [b[0]] + b[1..];
    } else if a != [] {
      StringLessTotal(a[1..], a[1..]);
    }
  }

  lemma {:induction false} StringLessTransitive(a: string, b: string, c: string)
    requires StringLess(a, b) && StringLess(b, c)
    ensures StringLess(a, c)
  {
    if a != [] && a[0] == b[0] && b[0] == c[0] {
      StringLessTransitive(a[1..], b[1..], c[1..]);
    }
  }

  // ----- What these operations mean ------------------------------------------------------------

  const WHITE_CODES: set<int> :=
    {0x09, 0x0A, 0x0B, 0x0C, 0x0D, 0x1C, 0x1D, 0x1E, 0x1F, 0x20, 0x85, 0xA0, 0x1680, 0x2000, 0x2001, 0x2002, 0x2003, 0x2004,
     0x2005, 0x2006, 0x2007, 0x2008, 0x2009, 0x200A, 0x2028, 0x2029, 0x202F, 0x205F, 0x3000}

  /** The white space of Unicode, code point by code point. */
  lemma WhiteExactly(c: char)
    ensures White(c) <==> c as int in WHITE_CODES
  {
  }

  const LOWER_LETTERS := "abcdefghijklmnopqrstuvwxyz"
  const UPPER_LETTERS := "ABCDEFGHIJKLMNOPQRSTUVWXYZ"
  const DIGITS := "0123456789"

  lemma LetterTables(c: char)
    ensures c in LOWER_LETTERS <==> 'a' <= c <= 'z'
    ensures c in UPPER_LETTERS <==> 'A' <= c <= 'Z'
    ensures c in DIGITS <==> '0' <= c <= '9'
  {
    LowerTable(c);
    UpperTable(c);
    if '0' <= c <= '9' { assert DIGITS[c as int - '0' as int] == c; }
  }

  lemma LowerTable(c: char)
    ensures c in LOWER_LETTERS <==> 'a' <= c <= 'z'
  {
    if 'a' <= c <= 'z' { assert LOWER_LETTERS[c as int - 'a' as int] == c; }
  }

  lemma UpperTable(c: char)
    ensures c in UPPER_LETTERS <==> 'A' <= c <= 'Z'
  {
    if 'A' <= c <= 'Z' { assert UPPER_LETTERS[c as int - 'A' as int] == c; }
  }

  lemma LowerExactly(s: string)
    ensures forall i :: 0 <= i < 26 ==> Lower(UPPER_LETTERS)[i] == LOWER_LETTERS[i]
    ensures forall i :: 0 <= i < |s| && s[i] !in UPPER_LETTERS ==> Lower(s)[i] == s[i]
  {
    forall i | 0 <= i < |s| ensures s[i] in UPPER_LETTERS <==> 'A' <= s[i] <= 'Z' { UpperTable(s[i]); }
  }

  /** Stripping removes white space from both ends and nothing else. */
  lemma {:induction false} StripExactly(s: string) returns (i: nat, j: nat)
    ensures i <= j <= |s| && Strip(s) == s[i..j]
    ensures forall k :: 0 <= k < i || j <= k < |s| ==> White(s[k])
    decreases |s|
  {
    i, j := 0, |s|;
    if s != "" && White(s[0]) {
      i, j := StripExactly(s[1..]);
      assert s[1..][i..j] == s[i + 1..j + 1];
      assert forall k :: 1 <= k < |s| ==> s[k] == s[1..][k - 1];
      i, j := i + 1, j + 1;
    } else if s != "" && White(s[|s| - 1]) {
      i, j := StripExactly(s[..|s| - 1]);
      assert s[..|s| - 1][i..j] == s[i..j];
    }
  }

  /** One string is less than another exactly when it is a proper prefix of it, or smaller at the
      first difference. */
  lemma {:induction false} LessAtFirstDifference(a: string, b: string)
    ensures StringLess(a, b) <==>
      exists k :: 0 <= k <= |a| && k < |b| && a[..k] == b[..k] && (k == |a| || a[k] < b[k])
    decreases |a|
  {
    if a != [] && b != [] && a[0] == b[0] {
      LessAtFirstDifference(a[1..], b[1..]);
      if k :| 0 <= k <= |a| && k < |b| && a[..k] == b[..k] && (k == |a| || a[k] < b[k]) {
        if k > 0 { assert a[1..][..k - 1] == a[..k][1..] == b[..k][1..] == b[1..][..k - 1]; }
      }
      if k :| 0 <= k <= |a| - 1 && k < |b| - 1 && a[1..][..k] == b[1..][..k] && (k == |a| - 1 || a[1..][k] < b[1..][k]) {
        assert a[..k + 1] == [a[0]] + a[1..][..k] && b[..k + 1] == [b[0]] + b[1..][..k];
      }
    } else if b != [] {
      assert a[..0] == b[..0];
      assert forall k :: 0 < k <= |a| && k < |b| && a[..k] == b[..k] ==> a[..k][0] == b[..k][0];
    }
  }
}
