/** The handful of Python string operations the converters rely on, on ASCII:
    str.strip(), str.lower(), str.upper(), s.split('/')[-1], s.split(':', 1),
    str(n) and int(digits) for non-negative numbers, and cell truthiness. */
module Text {
  import opened Wrappers

  // ---------------------------------------------------------------------------
  // Cells

  /** Python truthiness of an optional text cell: present and not empty. */
  predicate Truthy(cell: Option<string>) {
    cell.Some? && cell.value != ""
  }

  /** Python's str() of a cell value, where an absent value prints as "None". */
  function CellText(cell: Option<string>): string {
    if cell.Some? then cell.value else "None"
  }

  // ---------------------------------------------------------------------------
  // str.strip()

  /** The ASCII characters for which Python's str.isspace() holds. */
  predicate IsSpace(c: char) {
    9 <= c as int <= 13 || 28 <= c as int <= 32
  }

  predicate IsTrimmed(s: string) {
    |s| == 0 || (!IsSpace(s[0]) && !IsSpace(s[|s| - 1]))
  }

  function TrimLeft(s: string): (r: string)
    ensures |r| <= |s|
    ensures |r| == 0 || !IsSpace(r[0])
  {
    if |s| > 0 && IsSpace(s[0]) then TrimLeft(s[1..]) else s
  }

  function TrimRight(s: string): (r: string)
    ensures |r| <= |s|
    ensures |r| == 0 || !IsSpace(r[|r| - 1])
  {
    if |s| > 0 && IsSpace(s[|s| - 1]) then TrimRight(s[..|s| - 1]) else s
  }

  /** TrimLeft removes only leading spaces. */
  lemma {:induction false} TrimLeftIsSuffix(s: string)
    ensures TrimLeft(s) == s[|s| - |TrimLeft(s)|..]
    ensures forall i :: 0 <= i < |s| - |TrimLeft(s)| ==> IsSpace(s[i])
  {
    if |s| > 0 && IsSpace(s[0]) {
      TrimLeftIsSuffix(s[1..]);
    }
  }

  /** TrimRight removes only trailing spaces. */
  lemma {:induction false} TrimRightIsPrefix(s: string)
    ensures TrimRight(s) == s[..|TrimRight(s)|]
    ensures forall i :: |TrimRight(s)| <= i < |s| ==> IsSpace(s[i])
  {
    if |s| > 0 && IsSpace(s[|s| - 1]) {
      TrimRightIsPrefix(s[..|s| - 1]);
    }
  }

  /** Python's str.strip(): the longest infix with no space at either end,
      obtained by removing only spaces. */
  function Trim(s: string): (r: string)
    ensures IsTrimmed(r)
    ensures |r| <= |s|
  {
    var l := TrimLeft(s);
    TrimRightIsPrefix(l);
    TrimRight(l)
  }

  lemma TrimOfTrimmed(s: string)
    requires IsTrimmed(s)
    ensures Trim(s) == s
  {
    assert TrimLeft(s) == s;
  }

  // ---------------------------------------------------------------------------
  // str.lower() and str.upper(), ASCII letters only

  function LowerChar(c: char): char {
    if 'A' <= c <= 'Z' then (c as int + 32) as char else c
  }

  function UpperChar(c: char): char {
    if 'a' <= c <= 'z' then (c as int - 32) as char else c
  }

  function Lower(s: string): (r: string)
    ensures |r| == |s|
  {
    if |s| == 0 then "" else [LowerChar(s[0])] + Lower(s[1..])
  }

  function Upper(s: string): (r: string)
    ensures |r| == |s|
    ensures forall i :: 0 <= i < |s| ==> r[i] == UpperChar(s[i])
  {
    if |s| == 0 then "" else [UpperChar(s[0])] + Upper(s[1..])
  }

  predicate IsLowerText(s: string) {
    forall i :: 0 <= i < |s| ==> !('A' <= s[i] <= 'Z')
  }

  /** Lower-casing maps each character on its own. */
  lemma {:induction false} LowerAt(s: string, i: nat)
    requires i < |s|
    ensures Lower(s)[i] == LowerChar(s[i])
  {
    if i > 0 {
      LowerAt(s[1..], i - 1);
    }
  }

  /** Lower-casing leaves no upper-case letter. */
  lemma LowerIsLowerText(s: string)
    ensures IsLowerText(Lower(s))
  {
    forall i | 0 <= i < |s| ensures !('A' <= Lower(s)[i] <= 'Z') {
      LowerAt(s, i);
    }
  }

  /** Lower-casing text that has no upper-case letter changes nothing. */
  lemma {:induction false} LowerOfLowerText(s: string)
    requires IsLowerText(s)
    ensures Lower(s) == s
  {
    if |s| > 0 {
      LowerOfLowerText(s[1..]);
      assert s == [s[0]] + s[1..];
    }
  }

  /** Lower-casing keeps a trimmed string trimmed: no space is a letter. */
  lemma LowerKeepsTrimmed(s: string)
    requires IsTrimmed(s)
    ensures IsTrimmed(Lower(s))
  {
    if |s| > 0 {
      LowerAt(s, 0);
      LowerAt(s, |s| - 1);
    }
  }

  // ---------------------------------------------------------------------------
  // s.split('/')[-1], s.split(':', 1), s.endswith(t)

  /** The text after the last '/' of s, or s itself when it has none. */
  function LastSegment(s: string): string {
    if |s| == 0 then ""
    else if s[|s| - 1] == '/' then ""
    else LastSegment(s[..|s| - 1]) + [s[|s| - 1]]
  }

  /** The last segment is the end of s, and is either all of s or preceded
      by a '/'. */
  lemma {:induction false} LastSegmentIsSuffix(s: string)
    ensures var r := LastSegment(s);
      && '/' !in r
      && |r| <= |s| && r == s[|s| - |r|..]
      && (|r| < |s| ==> s[|s| - |r| - 1] == '/')
  {
    if |s| > 0 && s[|s| - 1] != '/' {
      var p := s[..|s| - 1];
      var c := s[|s| - 1];
      LastSegmentIsSuffix(p);
      var r := LastSegment(p);
      assert s == p + [c];
      assert LastSegment(s) == r + [c];
      var k := |p| - |r|;
      assert s[k..] == p[k..] + [c];
      if 0 < k {
        assert s[k - 1] == p[k - 1];
      }
    }
  }

  /** A path whose last segment is x yields x back. */
  lemma {:induction false} LastSegmentOfPath(p: string, x: string)
    requires '/' !in x
    ensures LastSegment(p + "/" + x) == x
  {
    var s := p + "/" + x;
    if x != "" {
      var x' := x[..|x| - 1];
      assert s[..|s| - 1] == p + "/" + x';
      LastSegmentOfPath(p, x');
      assert x == x' + [x[|x| - 1]];
    }
  }

  /** The position of the first c in s, if any. */
  function IndexOf(s: string, c: char): (r: Option<nat>)
    ensures r.Some? ==> r.value < |s| && s[r.value] == c && c !in s[..r.value]
    ensures r.None? <==> c !in s
  {
    if |s| == 0 then None
    else if s[0] == c then Some(0)
    else
      var k := IndexOf(s[1..], c);
      if k.Some? then
        assert s[..k.value + 1] == [s[0]] + s[1..][..k.value];
        Some(k.value + 1)
      else None
  }

  /** A c at position k with no c before it is the first c. */
  lemma IndexOfAt(s: string, c: char, k: nat)
    requires k < |s| && s[k] == c && c !in s[..k]
    ensures IndexOf(s, c) == Some(k)
  {
    assert c in s;
  }

  predicate EndsWith(s: string, suffix: string) {
    |suffix| <= |s| && s[|s| - |suffix|..] == suffix
  }

  // ---------------------------------------------------------------------------
  // str(n) and int(digits)

  predicate IsDigit(c: char) {
    '0' <= c <= '9'
  }

  predicate IsDigits(s: string) {
    forall i :: 0 <= i < |s| ==> IsDigit(s[i])
  }

  /** Python's int() of a string of decimal digits. */
  function DigitsValue(s: string): nat
    requires IsDigits(s)
  {
    if |s| == 0 then 0
    else DigitsValue(s[..|s| - 1]) * 10 + (s[|s| - 1] as int - '0' as int)
  }

  function DigitChar(d: nat): (c: char)
    requires d < 10
    ensures IsDigit(c) && c as int - '0' as int == d
  {
    ('0' as int + d) as char
  }

  /** Python's str() of a non-negative int: its decimal digits, which int()
      reads back. */
  function NatToString(n: nat): (r: string)
    ensures |r| > 0 && IsDigits(r)
    ensures DigitsValue(r) == n
  {
    if n < 10 then
      [DigitChar(n)]
    else
      var h := NatToString(n / 10);
      var r := h + [DigitChar(n % 10)];
      assert r[..|r| - 1] == h;
      r
  }
}
