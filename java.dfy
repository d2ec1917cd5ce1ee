/** The few pieces of the Java platform the dashboard relies on, stated exactly:
    nullable references, exceptions, String.trim, String.valueOf(long),
    the (long) cast of a double and truncating integer division. */
module Java {

  /** A nullable Java reference: None stands for null. */
  datatype Option<+T> = None | Some(value: T) {
    function GetOr(default: T): T {
      if Some? then value else default
    }
  }

  /** The unchecked exceptions the core can raise. */
  datatype Exception = NullPointer | IllegalArgument

  /** A call that returns normally or throws. */
  datatype Result<+T> = Ok(value: T) | Thrown(exception: Exception)

  // ---------------------------------------------------------------------------
  // String.trim: strips every leading and trailing character whose code is at
  // most that of the space character.

  predicate IsTrimmable(c: char) {
    c <= ' '
  }

  /** A string that trim leaves alone. */
  predicate IsTrimmed(s: string) {
    s == [] || (!IsTrimmable(s[0]) && !IsTrimmable(s[|s| - 1]))
  }

  /** Drops trailing trimmable characters: the result is a prefix of `s`,
      every dropped character is trimmable, and the last kept one is not. */
  function TrimEnd(s: string): (r: string)
    ensures |r| <= |s| && r == s[..|r|]
    ensures forall i :: |r| <= i < |s| ==> IsTrimmable(s[i])
    ensures r == [] || !IsTrimmable(r[|r| - 1])
  {
    if |s| > 0 && IsTrimmable(s[|s| - 1]) then TrimEnd(s[..|s| - 1]) else s
  }

  /** Drops leading trimmable characters: the result is a suffix of `s`,
      every dropped character is trimmable, and the first kept one is not. */
  function TrimStart(s: string): (r: string)
    ensures |r| <= |s| && r == s[|s| - |r|..]
    ensures forall i :: 0 <= i < |s| - |r| ==> IsTrimmable(s[i])
    ensures r == [] || !IsTrimmable(r[0])
  {
    if |s| > 0 && IsTrimmable(s[0]) then TrimStart(s[1..]) else s
  }

  /** String.trim. */
  function Trim(s: string): (r: string)
    ensures IsTrimmed(r)
    ensures IsTrimmed(s) ==> r == s
  {
    var e := TrimEnd(s);
    var r := TrimStart(e);
    assert r != [] ==> r[|r| - 1] == e[|e| - 1];
    r
  }

  /** What trim removes: the result is one slice of `s`, and every character
      of `s` before or after it is trimmable. With IsTrimmed this fixes the
      result: trim removes exactly the trimmable characters at both ends. */
  lemma TrimIsSlice(s: string)
    ensures exists i, j ::
              && 0 <= i <= j <= |s| && Trim(s) == s[i..j]
              && (forall k :: 0 <= k < i ==> IsTrimmable(s[k]))
              && (forall k :: j <= k < |s| ==> IsTrimmable(s[k]))
  {
    var e := TrimEnd(s);
    var r := TrimStart(e);
    var i, j := |e| - |r|, |e|;
    assert Trim(s) == r;
    assert r == s[i..j] by {
      assert e == s[..j] && r == e[i..];
    }
    forall k | 0 <= k < i ensures IsTrimmable(s[k]) {
      assert s[k] == e[k];
    }
    assert forall k :: j <= k < |s| ==> IsTrimmable(s[k]);
  }

  lemma TrimEndSpace(a: string)
    ensures TrimEnd(a + " ") == TrimEnd(a)
  {
    assert (a + " ")[..|a|] == a;
  }

  lemma TrimSpaceStart(b: string)
    requires IsTrimmed(b)
    ensures Trim(" " + b) == b
  {
    var bs := " " + b;
    if b == [] {
      assert bs[..0] == "";
    } else {
      assert bs[|bs| - 1] == b[|b| - 1];
      assert bs[1..] == b;
    }
  }

  /** The name rule of the customer stream: two trimmed halves joined by one
      space and trimmed give the halves back, and a missing half leaves the
      other one alone. */
  lemma TrimJoin(a: string, b: string)
    requires IsTrimmed(a) && IsTrimmed(b)
    ensures a != [] && b != [] ==> Trim(a + " " + b) == a + " " + b
    ensures Trim(a + " " + "") == a
    ensures Trim("" + " " + b) == b
  {
    assert a + " " + "" == a + " ";
    TrimSpaceEnd(a);
    assert "" + " " + b == " " + b;
    TrimSpaceStart(b);
    if a != [] && b != [] {
      JoinIsTrimmed(a, b);
    }
  }

  lemma TrimSpaceEnd(a: string)
    requires IsTrimmed(a)
    ensures Trim(a + " ") == a
  {
    TrimEndSpace(a);
    assert TrimEnd(a) == a;
    assert TrimStart(a) == a;
  }

  lemma JoinIsTrimmed(a: string, b: string)
    requires IsTrimmed(a) && IsTrimmed(b) && a != [] && b != []
    ensures IsTrimmed(a + " " + b)
  {
    var j := a + " " + b;
    assert j[|j| - 1] == b[|b| - 1] && j[0] == a[0];
  }

  // ---------------------------------------------------------------------------
  // String.valueOf(long): optional minus sign, then decimal digits without
  // leading zeros, separators or exponent.

  predicate IsDigit(c: char) {
    '0' <= c <= '9'
  }

  function DigitChar(d: int): (c: char)
    requires 0 <= d < 10
    ensures IsDigit(c)
  {
    ('0' as int + d) as char
  }

  function NatDigits(n: nat): (r: string)
    decreases n
    ensures r != [] && forall i :: 0 <= i < |r| ==> IsDigit(r[i])
    ensures r[0] == '0' <==> n == 0
    ensures n == 0 ==> r == "0"
  {
    if n < 10 then [DigitChar(n)] else NatDigits(n / 10) + [DigitChar(n % 10)]
  }

  function DecimalString(n: int): (r: string)
    ensures r != []
    ensures n < 0 <==> r[0] == '-'
    ensures forall i :: 0 < i < |r| ==> IsDigit(r[i])
  {
    if n < 0 then "-" + NatDigits(-n) else NatDigits(n)
  }

  /** Reads back a string of decimal digits (the inverse of NatDigits). */
  function DigitsValue(s: string): nat
    requires forall i :: 0 <= i < |s| ==> IsDigit(s[i])
  {
    if s == [] then 0
    else
      assert IsDigit(s[|s| - 1]);
      DigitsValue(s[..|s| - 1]) * 10 + (s[|s| - 1] as int - '0' as int)
  }

  function DecimalValue(s: string): int
    requires s != [] && forall i :: 0 < i < |s| ==> IsDigit(s[i])
    requires s[0] == '-' || IsDigit(s[0])
  {
    if s[0] == '-' then 0 - DigitsValue(s[1..]) else DigitsValue(s)
  }

  lemma {:induction false} NatDigitsRoundTrip(n: nat)
    ensures DigitsValue(NatDigits(n)) == n
  {
    if n >= 10 {
      var r := NatDigits(n);
      NatDigitsRoundTrip(n / 10);
      assert r[..|r| - 1] == NatDigits(n / 10);
    }
  }

  /** The decimal string of a long reads back as that long. */
  lemma {:induction false} DecimalRoundTrip(n: int)
    ensures var r := DecimalString(n); (r[0] == '-' || IsDigit(r[0])) && DecimalValue(r) == n
  {
    var r := DecimalString(n);
    if n < 0 {
      NatDigitsRoundTrip(-n);
      assert r[1..] == NatDigits(-n);
    } else {
      NatDigitsRoundTrip(n);
    }
  }

  /** Distinct longs give distinct strings, so numeric ids never collide. */
  lemma DecimalStringInjective(a: int, b: int)
    ensures DecimalString(a) == DecimalString(b) ==> a == b
  {
    DecimalRoundTrip(a);
    DecimalRoundTrip(b);
  }

  // ---------------------------------------------------------------------------
  // Numeric conversions.

  /** The (long) cast of a double: truncation toward zero. */
  function Trunc(x: real): (t: int)
    ensures 0.0 <= x ==> 0 <= t && t as real <= x < t as real + 1.0
    ensures x < 0.0 ==> t <= 0 && t as real - 1.0 < x <= t as real
  {
    if x >= 0.0 then x.Floor else -((-x).Floor)
  }

  /** Java's `/` on longs for a positive divisor: rounds toward zero. */
  function JDiv(a: int, b: int): int
    requires b > 0
  {
    if a >= 0 then a / b else -((-a) / b)
  }

  /** Java's `%` on longs for a positive divisor: takes the sign of `a`. */
  function JRem(a: int, b: int): (r: int)
    requires b > 0
    ensures JDiv(a, b) * b + r == a
    ensures 0 <= a ==> 0 <= r < b
    ensures a < 0 ==> -b < r <= 0
  {
    a - JDiv(a, b) * b
  }
}
