/**
 Decimal text, as `operator<<` prints an unsigned integer and `operator>>` reads one back
 through a string stream.
 */
module Decimal {
  import opened Widths

  predicate IsDigit(c: char) {
    '0' <= c <= '9'
  }

  ghost predicate AllDigits(s: string) {
    forall i :: 0 <= i < |s| ==> IsDigit(s[i])
  }

  /** What `ss << n` leaves in the stream. */
  function Print(n: nat): string {
    (if n < 10 then "" else Print(n / 10)) + [('0' as int + n % 10) as char]
  }

  /** The value of a text up to its first character that is not a digit. */
  function Value(s: string, acc: nat := 0): nat
    decreases |s|
  {
    if s == "" || !IsDigit(s[0]) then acc
    else Value(s[1..], 10 * acc + (s[0] as int - '0' as int))
  }

  /** What `ss >> n` stores in an integer whose largest value is max. */
  function Read(s: string, max: nat): nat {
    if Value(s) > max then max else Value(s)
  }

  lemma {:induction false} ValueAppendDigit(s: string, d: char, acc: nat)
    requires AllDigits(s) && IsDigit(d)
    ensures Value(s + [d], acc) == 10 * Value(s, acc) + (d as int - '0' as int)
  {
    if s == "" {
      assert (s + [d])[1..] == "";
    } else {
      assert (s + [d])[1..] == s[1..] + [d];
      ValueAppendDigit(s[1..], d, 10 * acc + (s[0] as int - '0' as int));
    }
  }

  /** Reading undoes printing, and a printed number has no leading zero. */
  lemma {:induction false} ReadPrint(n: nat, max: nat)
    ensures AllDigits(Print(n)) && Print(n) != ""
    ensures Value(Print(n)) == n
    ensures n > 0 ==> '0' < Print(n)[0]
    ensures n <= max ==> Read(Print(n), max) == n
  {
    if n >= 10 {
      ReadPrint(n / 10, max);
      ValueAppendDigit(Print(n / 10), ('0' as int + n % 10) as char, 0);
    } else {
      ValueAppendDigit("", ('0' as int + n) as char, 0);
    }
  }

  /** The last digit of a printed number is its remainder by ten, in front of it stands the tenth. */
  lemma {:induction false} DigitsAre(n: nat)
    ensures var s := Print(n); var k := |s| - 1;
      k >= 0 && s[k] == "0123456789"[n % 10] && (n < 10 ==> k == 0) && (n >= 10 ==> s[..k] == Print(n / 10))
  {}
}
