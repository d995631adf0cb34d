/**
 The two string operations member-name validation relies on:
 `String.prototype.trim` and `String.prototype.toLowerCase`.
 */
module Text {

  /**
   The code points `trim` strips: the ECMAScript WhiteSpace set (tab,
   vertical tab, form feed, space, no-break space, byte-order mark and the
   Unicode space separators) and the LineTerminator set.
   */
  predicate IsSpace(c: char) {
    || c == '\t' || c == '\n' || c == '\U{000B}' || c == '\U{000C}' || c == '\r'
    || c == ' ' || c == '\U{00A0}' || c == '\U{1680}'
    || ('\U{2000}' <= c <= '\U{200A}')
    || c == '\U{2028}' || c == '\U{2029}' || c == '\U{202F}' || c == '\U{205F}'
    || c == '\U{3000}' || c == '\U{FEFF}'
  }

  /** Scanning forward from `i`, the index of the first code point that is not white space. */
  function SkipSpaces(s: string, i: nat): (n: nat)
    requires i <= |s|
    ensures i <= n <= |s|
    ensures forall k :: i <= k < n ==> IsSpace(s[k])
    ensures n == |s| || !IsSpace(s[n])
    decreases |s| - i
  {
    if i < |s| && IsSpace(s[i]) then SkipSpaces(s, i + 1) else i
  }

  /** Scanning backward from `j` but not past `lo`, the end of the last code point that is not white space. */
  function SkipSpacesBack(s: string, lo: nat, j: nat): (n: nat)
    requires lo <= j <= |s|
    ensures lo <= n <= j
    ensures forall k :: n <= k < j ==> IsSpace(s[k])
    ensures n == lo || !IsSpace(s[n - 1])
    decreases j
  {
    if lo < j && IsSpace(s[j - 1]) then SkipSpacesBack(s, lo, j - 1) else j
  }

  /** How many code points `trim` cuts from the front of `s`. */
  function Lead(s: string): (n: nat)
    ensures n <= |s|
  {
    SkipSpaces(s, 0)
  }

  /** Where the piece `trim` keeps ends. */
  function Stop(s: string): (n: nat)
    ensures Lead(s) <= n <= |s|
  {
    SkipSpacesBack(s, Lead(s), |s|)
  }

  /** `String.prototype.trim`: white space removed from both ends. */
  function Trim(s: string): string {
    s[Lead(s)..Stop(s)]
  }

  /** Every code point of `s` is white space. */
  predicate Blank(s: string) {
    forall k :: 0 <= k < |s| ==> IsSpace(s[k])
  }

  /**
   A trimmed string is a contiguous piece of the original with only white
   space cut off around it and none left at its ends.
   */
  lemma TrimIsSlice(s: string)
    ensures Blank(s[..Lead(s)])
    ensures Blank(s[Stop(s)..])
    ensures Trim(s) == [] || (!IsSpace(Trim(s)[0]) && !IsSpace(Trim(s)[|Trim(s)| - 1]))
  {
    var i, j := Lead(s), Stop(s);
    var head, tail := s[..i], s[j..];
    forall k | 0 <= k < |head|
      ensures IsSpace(head[k])
    {
      assert head[k] == s[k];
    }
    forall k | 0 <= k < |tail|
      ensures IsSpace(tail[k])
    {
      assert tail[k] == s[j + k];
    }
    if i < j {
      assert Trim(s)[0] == s[i];
      assert Trim(s)[|Trim(s)| - 1] == s[j - 1];
    }
  }

  /** `trim` yields the empty string exactly when the input is all white space. */
  lemma TrimEmptyIffBlank(s: string)
    ensures Trim(s) == [] <==> Blank(s)
  {
    var i, j := Lead(s), Stop(s);
    if Blank(s) {
      assert i == |s|;
    }
    if Trim(s) == [] {
      assert i == j;
      assert i == |s|;
    }
  }

  /** The capitals `toLowerCase` changes here: A-Z and U+00C0-U+00DE except U+00D7. */
  predicate IsUpper(c: char) {
    'A' <= c <= 'Z' || ('\U{00C0}' <= c <= '\U{00DE}' && c != '\U{00D7}')
  }

  /**
   `toLowerCase` on one code point, for the Basic Latin and Latin-1 letters:
   A-Z and the accented capitals U+00C0-U+00DE (except the multiplication
   sign U+00D7) move 32 code points up.
   */
  function LowerChar(c: char): (r: char)
    ensures IsUpper(c) ==> r as int == c as int + 32 && !IsUpper(r)
    ensures !IsUpper(c) ==> r == c
  {
    if IsUpper(c) then
      (c as int + 32) as char
    else
      c
  }

  /** `String.prototype.toLowerCase`, code point by code point. */
  function ToLower(s: string): (r: string)
    ensures |r| == |s|
    ensures forall i :: 0 <= i < |s| ==> r[i] == LowerChar(s[i])
  {
    seq(|s|, i requires 0 <= i < |s| => LowerChar(s[i]))
  }

  /** The comparison `addMember` uses to detect a duplicate name. */
  predicate SameIgnoringCase(a: string, b: string) {
    ToLower(a) == ToLower(b)
  }

  /** Lower-casing a second time changes nothing. */
  lemma ToLowerIdempotent(s: string)
    ensures ToLower(ToLower(s)) == ToLower(s)
  {
  }
}
