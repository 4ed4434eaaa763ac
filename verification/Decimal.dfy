/** Go's `%d` verb and `strconv.Atoi`, as the relay uses them on ports and keepalive intervals. */
module Decimal {
  import opened Wrappers

  const MIN_INT: int := -0x8000_0000_0000_0000
  const MAX_INT: int := 0x7FFF_FFFF_FFFF_FFFF

  predicate IsDigit(c: char) {
    '0' <= c <= '9'
  }

  predicate AllDigits(s: string) {
    forall c :: c in s ==> IsDigit(c)
  }

  function FormatNat(n: nat): (s: string)
    ensures s != "" && AllDigits(s)
    ensures s[0] == '0' <==> n == 0
    ensures forall k: nat {:trigger Ten(k)} :: k > 0 && n < Ten(k) ==> |s| <= k
  {
    if n < 10 then [('0' as int + n) as char]
    else
      assert forall k: nat {:trigger Ten(k)} :: k > 0 && n < Ten(k) ==> k > 1 && n / 10 < Ten(k - 1);
      FormatNat(n / 10) + [('0' as int + n % 10) as char]
  }

  function Ten(k: nat): nat {
    if k == 0 then 1 else 10 * Ten(k - 1)
  }

  function FormatInt(n: int): string {
    if n < 0 then "-" + FormatNat(-n) else FormatNat(n)
  }

  /** The value of a digit string, most significant digit first. */
  function DigitsValue(s: string): nat
    requires AllDigits(s)
  {
    if s == "" then 0
    else
      assert IsDigit(s[|s| - 1]);
      10 * DigitsValue(s[..|s| - 1]) + (s[|s| - 1] as int - '0' as int)
  }

  /** An optional sign, at least one digit, and a value that fits a 64-bit int. */
  function Atoi(s: string): Option<int> {
    var body := if s != "" && (s[0] == '-' || s[0] == '+') then s[1..] else s;
    if body == "" || !AllDigits(body) then None
    else
      var v := if s[0] == '-' then 0 - DigitsValue(body) else DigitsValue(body);
      if MIN_INT <= v <= MAX_INT then Some(v) else None
  }

  lemma {:induction false} ValueOfFormat(n: nat)
    ensures DigitsValue(FormatNat(n)) == n
  {
    if n >= 10 {
      ValueOfFormat(n / 10);
      var s := FormatNat(n);
      assert s[..|s| - 1] == FormatNat(n / 10);
    } else {
      assert FormatNat(n)[..0] == "";
    }
  }

  /** A digit string without leading zeros is the printed form of its value. */
  lemma {:induction false} FormatOfValue(s: string)
    requires s != "" && AllDigits(s) && (|s| > 1 ==> s[0] != '0')
    ensures FormatNat(DigitsValue(s)) == s
    ensures |s| > 1 ==> DigitsValue(s) >= 10
  {
    var front, last := s[..|s| - 1], s[|s| - 1];
    assert IsDigit(last);
    if |s| == 1 {
      assert front == "" && s == [last];
    } else {
      FormatOfValue(front);
      if |front| == 1 {
        assert front == [front[0]] && front[..0] == "" && IsDigit(front[0]);
      }
      assert s == front + [last];
    }
  }

  /** Reading back a printed integer gives that integer. */
  lemma AtoiFormat(n: int)
    requires MIN_INT <= n <= MAX_INT
    ensures Atoi(FormatInt(n)) == Some(n)
  {
    hide FormatNat, DigitsValue;
    var digits := FormatNat(if n < 0 then -n else n);
    ValueOfFormat(if n < 0 then -n else n);
    if n < 0 {
      assert FormatInt(n)[1..] == digits;
    } else {
      assert IsDigit(digits[0]);
    }
  }

  /** An optional sign and then digits, within the range of a 64-bit integer; and nothing else. */
  lemma AtoiReads(digits: string)
    requires digits != "" && AllDigits(digits)
    ensures Atoi(digits) == Atoi("+" + digits) ==
            if DigitsValue(digits) <= 9223372036854775807 then Some(DigitsValue(digits)) else None
    ensures var n: int := DigitsValue(digits);
            Atoi("-" + digits) == if n <= 9223372036854775808 then Some(-n) else None
  {
    hide DigitsValue;
    assert IsDigit(digits[0]);
    assert ("+" + digits)[1..] == digits && ("-" + digits)[1..] == digits;
  }

  lemma AtoiShape(s: string)
    requires Atoi(s).Some?
    ensures exists digits: string ::
              digits != "" && AllDigits(digits) && (s == digits || s == "+" + digits || s == "-" + digits)
  {
    var body := if s != "" && (s[0] == '-' || s[0] == '+') then s[1..] else s;
    assert body != "" && AllDigits(body) && (s == body || s == "+" + body || s == "-" + body);
  }

  /** The last digit counts once, the one before it ten times, and so on. */
  lemma DigitsMeaning(digits: string, k: nat)
    requires AllDigits(digits) && k < 10
    ensures AllDigits(digits + ["0123456789"[k]])
    ensures DigitsValue(digits + ["0123456789"[k]]) == 10 * DigitsValue(digits) + k
  {
    var c := "0123456789"[k];
    assert c == ('0' as int + k) as char;
    assert (digits + [c])[..|digits|] == digits;
  }
}
