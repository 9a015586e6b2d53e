/**
 * Character and string helpers shared by the models of the JavaScript and
 * Python sources: ASCII case mapping (the only letters the site's file names
 * and titles use), Python's str.title(), str.replace() and str.startswith(),
 * and decimal rendering of integers as Python's f-strings and JavaScript's
 * template literals print them.
 */
module Strings {

  predicate IsUpper(c: char) { 'A' <= c <= 'Z' }
  predicate IsLower(c: char) { 'a' <= c <= 'z' }
  /** A cased character, in the sense of Python's str.title(), restricted to ASCII. */
  predicate IsLetter(c: char) { IsUpper(c) || IsLower(c) }
  predicate IsDigit(c: char) { '0' <= c <= '9' }

  function LowerChar(c: char): (r: char)
    ensures IsLetter(c) ==> IsLower(r) && UpperChar(r) == UpperChar(c)
    ensures !IsUpper(c) ==> r == c
  {
    if IsUpper(c) then (c as int - 'A' as int + 'a' as int) as char else c
  }

  function UpperChar(c: char): (r: char)
    ensures IsLetter(c) ==> IsUpper(r)
    ensures !IsLower(c) ==> r == c
  {
    if IsLower(c) then (c as int - 'a' as int + 'A' as int) as char else c
  }

  /** String.prototype.toLowerCase / str.lower on ASCII. */
  function Lower(s: string): (r: string)
    ensures |r| == |s|
    ensures forall i :: 0 <= i < |s| ==> r[i] == LowerChar(s[i])
  {
    seq(|s|, i requires 0 <= i < |s| => LowerChar(s[i]))
  }

  /** str.upper on ASCII. */
  function Upper(s: string): (r: string)
    ensures |r| == |s|
    ensures forall i :: 0 <= i < |s| ==> r[i] == UpperChar(s[i])
  {
    seq(|s|, i requires 0 <= i < |s| => UpperChar(s[i]))
  }

  lemma UpperOfNoLetters(s: string)
    requires forall i :: 0 <= i < |s| ==> !IsLetter(s[i])
    ensures Upper(s) == s
  {
  }

  /**
   * Python's str.title(): a letter is upper-cased when the character before
   * it is not a letter (or it is the first character) and lower-cased when it
   * follows a letter; every other character is kept.  `afterLetter` says
   * whether the character before s[0] was a letter.
   */
  function TitleFrom(s: string, afterLetter: bool): (r: string)
    ensures |r| == |s|
    ensures forall i :: 0 <= i < |s| && !IsLetter(s[i]) ==> r[i] == s[i]
    ensures forall i :: 0 <= i < |s| && IsLetter(s[i]) ==> UpperChar(r[i]) == UpperChar(s[i])
    ensures forall i :: 0 <= i < |s| && IsLetter(s[i]) ==>
      (if (if i == 0 then afterLetter else IsLetter(s[i - 1])) then IsLower(r[i]) else IsUpper(r[i]))
  {
    if s == [] then []
    else
      var c := if !IsLetter(s[0]) then s[0] else if afterLetter then LowerChar(s[0]) else UpperChar(s[0]);
      var rest := TitleFrom(s[1..], IsLetter(s[0]));
      assert forall i :: 0 < i < |s| ==> ([c] + rest)[i] == rest[i - 1] && s[1..][i - 1] == s[i];
      [c] + rest
  }

  function Title(s: string): (r: string)
  {
    TitleFrom(s, false)
  }

  /** A non-letter occurs in a title-cased string exactly when it occurs in the original. */
  lemma TitleKeepsNonLetter(s: string, c: char)
    requires !IsLetter(c)
    ensures c in Title(s) <==> c in s
  {
    var r := Title(s);
    if c in s {
      var i :| 0 <= i < |s| && s[i] == c;
      assert r[i] == c;
    }
    if c in r {
      var i :| 0 <= i < |r| && r[i] == c;
      assert s[i] == c;
    }
  }

  /** The position of the last `c` in `s`, or -1 when there is none (str.rfind). */
  function LastIndexOf(s: string, c: char): (r: int)
    ensures -1 <= r < |s|
    ensures r >= 0 ==> s[r] == c
    ensures forall k :: r < k < |s| ==> s[k] != c
  {
    if s == [] then -1
    else if s[|s| - 1] == c then |s| - 1
    else LastIndexOf(s[..|s| - 1], c)
  }

  /** Concatenation regroups; stated once so that long chains need not rediscover it. */
  lemma ConcatAssoc<T>(x: seq<T>, y: seq<T>, z: seq<T>)
    ensures x + (y + z) == x + y + z
  {
  }

  predicate StartsWith(s: string, prefix: string)
  {
    |prefix| <= |s| && s[..|prefix|] == prefix
  }

  predicate EndsWith(s: string, suffix: string)
  {
    |suffix| <= |s| && s[|s| - |suffix|..] == suffix
  }

  lemma StartsWithConcat(a: string, b: string)
    ensures StartsWith(a + b, a)
  {
    assert (a + b)[..|a|] == a;
  }

  lemma EndsWithConcat(a: string, b: string)
    ensures EndsWith(a + b, b)
  {
    assert (a + b)[|a|..] == b;
  }

  /** A pattern whose first character is absent does not occur. */
  lemma {:induction false} AbsentFirstNotOccurs(s: string, pat: string)
    requires pat != [] && pat[0] !in s
    ensures !Occurs(s, pat)
    decreases |s|
  {
    if s != [] {
      AbsentFirstNotOccurs(s[1..], pat);
      if |pat| <= |s| {
        assert s[..|pat|][0] == s[0];
      }
    }
  }

  /** The last `c` in `s` is the one at r when none follows it. */
  lemma LastIndexOfAt(s: string, c: char, r: nat)
    requires r < |s| && s[r] == c
    requires forall k :: r < k < |s| ==> s[k] != c
    ensures LastIndexOf(s, c) == r
  {
  }

  /** Whether `sub` occurs in `s` at some position. */
  predicate Occurs(s: string, sub: string)
  {
    StartsWith(s, sub) || (s != [] && Occurs(s[1..], sub))
  }

  /**
   * Python's str.replace(pat, rep): every non-overlapping occurrence of `pat`,
   * scanning from the left, is replaced by `rep`.
   */
  function Replace(s: string, pat: string, rep: string): (r: string)
    requires pat != []
    decreases |s|
  {
    if |s| < |pat| then s
    else if s[..|pat|] == pat then rep + Replace(s[|pat|..], pat, rep)
    else [s[0]] + Replace(s[1..], pat, rep)
  }

  lemma {:induction false} ReplaceAbsent(s: string, pat: string, rep: string)
    requires pat != [] && !Occurs(s, pat)
    ensures Replace(s, pat, rep) == s
    decreases |s|
  {
    if |s| >= |pat| {
      ReplaceAbsent(s[1..], pat, rep);
    }
  }

  /** Replacing every `c` by a string that does not contain `c` leaves no `c`. */
  lemma {:induction false} ReplaceCharRemoves(s: string, c: char, rep: string)
    requires c !in rep
    ensures c !in Replace(s, [c], rep)
    decreases |s|
  {
    if |s| >= 1 {
      ReplaceCharRemoves(s[1..], c, rep);
    }
  }

  // ---- decimal numbers ----------------------------------------------------

  function DigitChar(d: nat): (c: char)
    requires d < 10
    ensures IsDigit(c)
  {
    ('0' as int + d) as char
  }

  function DigitValue(c: char): nat
  {
    if IsDigit(c) then c as int - '0' as int else 0
  }

  /** Decimal rendering of a natural number, without leading zeros. */
  function NatToString(n: nat): (s: string)
    ensures |s| >= 1
    ensures forall i :: 0 <= i < |s| ==> IsDigit(s[i])
    decreases n
  {
    if n < 10 then [DigitChar(n)] else NatToString(n / 10) + [DigitChar(n % 10)]
  }

  /** Decimal rendering of an integer, as `f"{i}"` and `${i}` print it. */
  function IntToString(i: int): string
  {
    if i < 0 then "-" + NatToString(-i) else NatToString(i)
  }

  /** `f"{n:02d}"` for a natural number: at least two digits, zero-padded. */
  function ZeroPad2(n: nat): (s: string)
    ensures |s| >= 2
    ensures forall i :: 0 <= i < |s| ==> IsDigit(s[i])
  {
    if n < 10 then "0" + NatToString(n) else NatToString(n)
  }

  /** Reads a string of decimal digits (leading zeros allowed). */
  function ParseDecimal(s: string): nat
  {
    if s == [] then 0 else ParseDecimal(s[..|s| - 1]) * 10 + DigitValue(s[|s| - 1])
  }

  lemma {:induction false} ParseNatToString(n: nat)
    ensures ParseDecimal(NatToString(n)) == n
    decreases n
  {
    if n >= 10 {
      var s := NatToString(n);
      assert s[..|s| - 1] == NatToString(n / 10);
      ParseNatToString(n / 10);
    }
  }

  lemma ParseZeroPad2(n: nat)
    ensures ParseDecimal(ZeroPad2(n)) == n
  {
    ParseNatToString(n);
    if n < 10 {
      var s := ZeroPad2(n);
      assert s[..|s| - 1] == "0";
      assert ParseDecimal("0") == 0 by {
        assert "0"[..0] == [];
      }
    }
  }

  /** Distinct numbers get distinct zero-padded names. */
  lemma ZeroPad2Injective(m: nat, n: nat)
    requires m != n
    ensures ZeroPad2(m) != ZeroPad2(n)
  {
    ParseZeroPad2(m);
    ParseZeroPad2(n);
  }
}
