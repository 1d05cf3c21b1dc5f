/** Decimal text of natural numbers, as JavaScript's template literals and
    `toString` produce it, together with the inverse reading used to state
    round trips about tile identifiers and the timer display. */
module Decimal {

  function DigitChar(d: nat): (c: char)
    requires d < 10
    ensures '0' <= c <= '9'
  {
    ('0' as int + d) as char
  }

  function DigitValue(c: char): nat
  {
    if '0' <= c <= '9' then c as int - '0' as int else 0
  }

  predicate IsDigits(s: string)
  {
    forall i :: 0 <= i < |s| ==> '0' <= s[i] <= '9'
  }

  /** Shortest decimal text of `n`, most significant digit first. */
  function NatToString(n: nat): (s: string)
    ensures 1 <= |s| && IsDigits(s)
    ensures n < 10 <==> |s| == 1
    ensures s[0] != '0' || n == 0
    decreases n
  {
    if n < 10 then [DigitChar(n)] else NatToString(n / 10) + [DigitChar(n % 10)]
  }

  /** Value of a string of decimal digits (leading zeros allowed). */
  function ParseNat(s: string): nat
  {
    if s == [] then 0 else ParseNat(s[..|s| - 1]) * 10 + DigitValue(s[|s| - 1])
  }

  lemma {:induction false} ParseNatToString(n: nat)
    ensures ParseNat(NatToString(n)) == n
  {
    var s := NatToString(n);
    if n < 10 {
      assert s[..|s| - 1] == [];
    } else {
      assert s[..|s| - 1] == NatToString(n / 10);
      ParseNatToString(n / 10);
    }
  }

  /** Leading zeros do not change the value of a digit string. */
  lemma {:induction false} ParseNatLeadingZero(s: string)
    ensures ParseNat("0" + s) == ParseNat(s)
    decreases |s|
  {
    if s == [] {
      assert ("0" + s)[..0] == [];
    } else {
      var t := "0" + s;
      assert t[..|t| - 1] == "0" + s[..|s| - 1];
      ParseNatLeadingZero(s[..|s| - 1]);
    }
  }

  /** Splits `s` at the last occurrence of `sep`: the part before and the part after. */
  function SplitLast(s: string, sep: char): (r: (string, string))
    ensures sep !in r.1
    ensures sep in s ==> s == r.0 + [sep] + r.1
    ensures sep !in s ==> r == ("", s)
    decreases |s|
  {
    if s == [] then ("", "")
    else if s[|s| - 1] == sep then (s[..|s| - 1], "")
    else
      var r := SplitLast(s[..|s| - 1], sep);
      assert s == s[..|s| - 1] + [s[|s| - 1]];
      (r.0, r.1 + [s[|s| - 1]])
  }

  /** Splitting a joined string at its separator gives back both parts,
      whatever the first part contains, as long as the second has no separator. */
  lemma {:induction false} SplitLastJoin(before: string, sep: char, after: string)
    requires sep !in after
    ensures SplitLast(before + [sep] + after, sep) == (before, after)
    decreases |after|
  {
    var s := before + [sep] + after;
    if after == [] {
      assert s[..|s| - 1] == before;
    } else {
      var shorter := after[..|after| - 1];
      assert s[..|s| - 1] == before + [sep] + shorter;
      assert sep !in shorter by {
        forall i | 0 <= i < |shorter| ensures shorter[i] != sep {
          assert shorter[i] == after[i];
        }
      }
      SplitLastJoin(before, sep, shorter);
      assert after == shorter + [after[|after| - 1]];
    }
  }
}
