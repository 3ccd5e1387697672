/** String helpers with the meaning JavaScript gives them: white space,
    `trim`, ASCII lower-casing, `includes`, and decimal rendering of integers. */
module Text {

  /** The code points ECMAScript counts as WhiteSpace or LineTerminator
      (sections 12.2 and 12.3 of ECMA-262): the set `String.prototype.trim`
      and `parseInt` strip. */
  predicate IsSpace(c: char) {
    || c == '\t' || c == '\n' || c == '\U{000B}' || c == '\U{000C}' || c == '\r'
    || c == ' ' || c == '\U{00A0}' || c == '\U{1680}'
    || ('\U{2000}' <= c <= '\U{200A}')
    || c == '\U{2028}' || c == '\U{2029}' || c == '\U{202F}' || c == '\U{205F}'
    || c == '\U{3000}' || c == '\U{FEFF}'
  }

  /** `s` with its leading white space removed. */
  function TrimStart(s: string): (r: string)
    ensures |r| <= |s| && r == s[|s| - |r|..]
    ensures |r| > 0 ==> !IsSpace(r[0])
    ensures forall i :: 0 <= i < |s| - |r| ==> IsSpace(s[i])
  {
    if |s| > 0 && IsSpace(s[0]) then TrimStart(s[1..]) else s
  }

  /** Text that starts with a visible character has nothing to trim at the front. */
  lemma TrimStartOfVisible(s: string)
    requires |s| > 0 && !IsSpace(s[0])
    ensures TrimStart(s) == s
  {
  }

  /** `s` with its trailing white space removed. */
  function TrimEnd(s: string): (r: string)
    ensures |r| <= |s| && r == s[..|r|]
    ensures |r| > 0 ==> !IsSpace(r[|r| - 1])
    ensures forall i :: |r| <= i < |s| ==> IsSpace(s[i])
  {
    if |s| > 0 && IsSpace(s[|s| - 1]) then TrimEnd(s[..|s| - 1]) else s
  }

  /** `String.prototype.trim`. */
  function Trim(s: string): string {
    TrimEnd(TrimStart(s))
  }

  /** What `trim` leaves is no longer than its input and, unless empty,
      starts and ends with a visible character: nothing is left to trim. */
  lemma TrimEndsVisible(s: string)
    ensures var r := Trim(s);
      && |r| <= |s|
      && (|r| > 0 ==> !IsSpace(r[0]) && !IsSpace(r[|r| - 1]))
      && TrimStart(r) == r && TrimEnd(r) == r
  {
    var r := Trim(s);
    if |r| > 0 {
      assert r[0] == TrimStart(s)[0];
      TrimStartOfVisible(r);
      TrimEndOfVisible(r);
    }
  }

  /** Text that ends with a visible character has nothing to trim at the end. */
  lemma TrimEndOfVisible(s: string)
    requires |s| > 0 && !IsSpace(s[|s| - 1])
    ensures TrimEnd(s) == s
  {
  }

  /** Text with visible characters at both ends is its own trim. */
  lemma TrimOfVisibleEnds(s: string)
    requires |s| > 0 && !IsSpace(s[0]) && !IsSpace(s[|s| - 1])
    ensures Trim(s) == s
  {
    TrimStartOfVisible(s);
  }

  /** Trimming is idempotent: a trimmed text has nothing left to trim. */
  lemma TrimIdempotent(s: string)
    ensures Trim(Trim(s)) == Trim(s)
  {
    var r := Trim(s);
    if |r| > 0 {
      assert r[0] == TrimStart(s)[0];
      TrimOfVisibleEnds(r);
    }
  }

  /** `String.prototype.toLowerCase`, restricted to the ASCII letters. */
  function LowerAscii(s: string): (r: string)
    ensures |r| == |s|
    ensures forall i :: 0 <= i < |s| ==>
      r[i] == (if 'A' <= s[i] <= 'Z' then (s[i] as int + 32) as char else s[i])
  {
    if |s| == 0 then [] else
      var c := s[0];
      [if 'A' <= c <= 'Z' then (c as int + 32) as char else c] + LowerAscii(s[1..])
  }

  /** `hay.includes(needle)`: `needle` occurs somewhere in `hay`. */
  predicate Includes(hay: string, needle: string)
    decreases |hay|
  {
    needle <= hay || (|hay| > 0 && Includes(hay[1..], needle))
  }

  /** `needle` occurs in `hay` starting at position `i`. */
  predicate OccursAt(hay: string, needle: string, i: nat) {
    i + |needle| <= |hay| && hay[i..i + |needle|] == needle
  }

  lemma {:induction false} IncludesWitness(hay: string, needle: string)
    requires Includes(hay, needle)
    ensures exists i: nat :: OccursAt(hay, needle, i)
    decreases |hay|
  {
    if needle <= hay {
      assert OccursAt(hay, needle, 0);
    } else {
      IncludesWitness(hay[1..], needle);
      var i: nat :| OccursAt(hay[1..], needle, i);
      assert hay[i + 1..i + 1 + |needle|] == hay[1..][i..i + |needle|];
      assert OccursAt(hay, needle, i + 1);
    }
  }

  lemma {:induction false} OccurrenceIsIncluded(hay: string, needle: string, i: nat)
    requires OccursAt(hay, needle, i)
    ensures Includes(hay, needle)
    decreases i
  {
    if i == 0 {
      assert hay[..|needle|] == needle;
    } else {
      assert hay[1..][i - 1..i - 1 + |needle|] == hay[i..i + |needle|];
      OccurrenceIsIncluded(hay[1..], needle, i - 1);
    }
  }

  /** `Includes` is "occurs at some position". */
  lemma IncludesAt(hay: string, needle: string)
    ensures Includes(hay, needle) <==> exists i: nat :: OccursAt(hay, needle, i)
  {
    if Includes(hay, needle) {
      IncludesWitness(hay, needle);
    }
    forall i: nat | OccursAt(hay, needle, i) ensures Includes(hay, needle) {
      OccurrenceIsIncluded(hay, needle, i);
    }
  }

  /** Lower-casing twice is lower-casing once. */
  lemma LowerAsciiIdempotent(s: string)
    ensures LowerAscii(LowerAscii(s)) == LowerAscii(s)
  {
  }

  /** The decimal digit character of `d`. */
  function DigitChar(d: nat): char
    requires d < 10
  {
    ('0' as int + d) as char
  }

  /** `String(n)` for a non-negative integer: its decimal digits, most
      significant first, with no leading zero. */
  function ShowNat(n: nat): (r: string)
    ensures |r| > 0
    ensures forall i :: 0 <= i < |r| ==> '0' <= r[i] <= '9'
    ensures r[0] == '0' ==> n == 0 && r == "0"
  {
    if n < 10 then [DigitChar(n)] else ShowNat(n / 10) + [DigitChar(n % 10)]
  }

  /** `String(i)` for any integer. */
  function ShowInt(i: int): string {
    if i < 0 then "-" + ShowNat(-i) else ShowNat(i)
  }
}
