/** JavaScript-level values the services and handlers work with: optional
    values, numbers that may be NaN, thrown errors with an optional `status`
    property, truthiness, `String(n)`, `Number(s)` and `s.split(' ')`. */
module Js {

  datatype Option<+T> = None | Some(value: T)

  /** A JavaScript number as this model needs it: an integer, or NaN. */
  datatype Num = Int(value: int) | NaN

  /** A thrown `Error`: its `message`, and the `status` property that the
      services attach to business failures (absent on every other error). */
  datatype Error = Error(status: Option<int>, message: string)

  /** The settled value of an awaited call: a value, or a thrown error. */
  datatype Outcome<+T> = Ok(value: T) | Thrown(error: Error)

  /** JavaScript truthiness of an optional string: `undefined`/`null` and
      the empty string are falsy. */
  predicate Truthy(s: Option<string>) {
    s.Some? && s.value != ""
  }

  /** JavaScript truthiness of an optional number property such as
      `error.status`: absent and `0` are falsy. */
  predicate TruthyNum(n: Option<int>) {
    n.Some? && n.value != 0
  }

  // ---------------------------------------------------------------------
  // String(n) and Number(s) on decimal numerals

  predicate IsDigit(c: char) {
    '0' <= c <= '9'
  }

  predicate AllDigits(s: string) {
    forall i :: 0 <= i < |s| ==> IsDigit(s[i])
  }

  function DigitChar(d: nat): (c: char)
    requires d < 10
    ensures IsDigit(c) && c as int - '0' as int == d
  {
    (d + '0' as int) as char
  }

  /** `String(n)` for a non-negative integer: its decimal numeral, without
      leading zeros. */
  function StringOf(n: nat): (s: string)
    ensures |s| >= 1 && AllDigits(s)
    ensures s[0] == '0' ==> n == 0 && s == "0"
  {
    if n < 10 then [DigitChar(n)] else StringOf(n / 10) + [DigitChar(n % 10)]
  }

  /** The value of a string of decimal digits. */
  function DigitsValue(s: string): nat
    requires AllDigits(s)
  {
    if s == [] then 0 else DigitsValue(s[..|s| - 1]) * 10 + (s[|s| - 1] as int - '0' as int)
  }

  /** `Number(s)`: the empty string is 0, a string of decimal digits is its
      value, and every other string is NaN here (see README, "Left out"). */
  function NumberOf(s: string): (n: Num)
    ensures n.Int? ==> n.value >= 0
    ensures n.NaN? <==> exists i :: 0 <= i < |s| && !IsDigit(s[i])
  {
    if AllDigits(s) then Int(DigitsValue(s)) else NaN
  }

  lemma {:induction false} DigitsValueOfStringOf(n: nat)
    ensures DigitsValue(StringOf(n)) == n
  {
    if n >= 10 {
      var s := StringOf(n / 10);
      DigitsValueOfStringOf(n / 10);
      assert (s + [DigitChar(n % 10)])[..|s|] == s;
    }
  }

  /** `Number(String(n)) === n` for every non-negative integer: an id that
      is turned into a string and parsed back is the same id. */
  lemma NumberOfStringOf(n: nat)
    ensures NumberOf(StringOf(n)) == Int(n)
  {
    DigitsValueOfStringOf(n);
  }

  /** Distinct ids have distinct numerals. */
  lemma StringOfInjective(m: nat, n: nat)
    ensures StringOf(m) == StringOf(n) ==> m == n
  {
    NumberOfStringOf(m);
    NumberOfStringOf(n);
  }

  // ---------------------------------------------------------------------
  // s.split(' ')

  /** `s.split(' ')`: the maximal runs between single spaces, in order; a
      string without a space gives one segment, and two adjacent spaces give
      an empty segment between them. */
  function Split(s: string): (parts: seq<string>)
    ensures |parts| >= 1
    ensures forall k :: 0 <= k < |parts| ==> ' ' !in parts[k]
    ensures Join(parts) == s
  {
    if s == [] then [""]
    else
      var rest := Split(s[1..]);
      if s[0] == ' ' then [""] + rest
      else [[s[0]] + rest[0]] + rest[1..]
  }

  /** `parts.join(' ')`, the inverse of `Split`. */
  function Join(parts: seq<string>): string
    requires |parts| >= 1
  {
    if |parts| == 1 then parts[0] else parts[0] + " " + Join(parts[1..])
  }

  lemma {:induction false} SplitNoSpace(s: string)
    requires ' ' !in s
    ensures Split(s) == [s]
  {
    if s != [] {
      SplitNoSpace(s[1..]);
      assert [s[0]] + s[1..] == s;
    }
  }

  /** Splitting at the first space: the text before it is the first
      segment, and the rest is split on its own. */
  lemma {:induction false} SplitAtFirstSpace(a: string, b: string)
    requires ' ' !in a
    ensures Split(a + " " + b) == [a] + Split(b)
  {
    var s := a + " " + b;
    if a == [] {
      assert s[1..] == b;
    } else {
      assert s[1..] == a[1..] + " " + b;
      SplitAtFirstSpace(a[1..], b);
      assert [a[0]] + a[1..] == a;
    }
  }
}
