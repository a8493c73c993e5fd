/**
 util/number.cpp: the length of a number in decimal, and the parsing of an unsigned 32-bit one.
 */
module Number {
  import opened MachineWord

  predicate IsDigit(c: char) {
    '0' <= c <= '9'
  }

  predicate AllDigits(s: string) {
    forall i :: 0 <= i < |s| ==> IsDigit(s[i])
  }

  function Digit(d: nat): char
    requires d < 10
  {
    '0' + d as char
  }

  // ---------------------------------------------------------------- printing

  // What printf makes of %lld, for a number that is not negative.
  function Decimal(n: nat): (s: string)
    ensures |s| > 0 && AllDigits(s)
  {
    if n < 10 then [Digit(n)] else Decimal(n / 10) + [Digit(n % 10)]
  }

  function Signed(n: int): string {
    if n < 0 then "-" + Decimal(-n) else Decimal(n)
  }

  function Zeros(n: nat): (s: string)
    ensures |s| == n && forall c :: c in s ==> c == '0'
  {
    if n == 0 then "" else "0" + Zeros(n - 1)
  }

  // %0*u
  function Padded(n: nat, width: nat): string {
    var s := Decimal(n);
    if |s| < width then Zeros(width - |s|) + s else s
  }

  function Pow10(k: nat): (r: nat)
    ensures r > 0
  {
    if k == 0 then 1 else 10 * Pow10(k - 1)
  }

  lemma {:induction false} DecimalLength(n: nat, k: nat)
    requires k > 0
    ensures |Decimal(n)| <= k <==> n < Pow10(k)
  {
    if k > 1 && n >= 10 {
      DecimalLength(n / 10, k - 1);
    } else if n >= 10 {
      assert Pow10(k) == 10 * Pow10(k - 1) == 10;
    } else {
      assert Pow10(k) == 10 * Pow10(k - 1);
    }
  }

  lemma {:induction false} PaddedLength(n: nat, width: nat)
    requires width > 0 && n < Pow10(width)
    ensures |Padded(n, width)| == width
  {
    DecimalLength(n, width);
  }

  /** number::length is how many characters printf writes. */
  method Length(number: int) returns (len: nat)
    ensures len == |Signed(number)|
  {
    var n := number;
    len := 1;
    if n < 0 {
      n := n * -1;
      len := len + 1;
    }
    ghost var sign := len - 1;
    while n > 9
      invariant n >= 0 && len > sign && |Signed(number)| == len - 1 + |Decimal(n)|
    {
      n := n / 10;
      len := len + 1;
    }
  }

  // ---------------------------------------------------------------- parsing

  // The number a string of digits denotes.
  function Value(s: string): (v: nat)
    requires AllDigits(s)
  {
    if s == "" then 0 else 10 * Value(s[..|s| - 1]) + (s[|s| - 1] - '0') as nat
  }

  lemma {:induction false} ValueDecimal(n: nat)
    ensures Value(Decimal(n)) == n
  {
    if n >= 10 {
      var s := Decimal(n);
      assert s[..|s| - 1] == Decimal(n / 10);
      ValueDecimal(n / 10);
    }
  }

  datatype ParseResult = Succeeded(n: Word) | Error | Underflow | Overflow

  // The accumulator of the loop after s, if the loop has not given up.
  datatype Accumulator = Stopped | At(n: Word)

  function Accumulate(s: string): Accumulator {
    if s == "" then At(0)
    else
      match Accumulate(s[..|s| - 1])
      case Stopped => Stopped
      case At(n) =>
        var c := s[|s| - 1];
        if !IsDigit(c) then Stopped
        else
          var tmp := (n * 10 + (c - '0') as int) % WORD;
          if tmp < n then Stopped else At(tmp)
  }

  function Parse(s: string, min: Word, max: Word): ParseResult {
    if s == "" then Error
    else
      match Accumulate(s)
      case Stopped => Error
      case At(n) => if n < min then Underflow else if n > max then Overflow else Succeeded(n)
  }

  lemma {:induction false} StoppedStays(s: string, i: nat)
    requires i <= |s| && Accumulate(s[..i]).Stopped?
    ensures Accumulate(s).Stopped?
    decreases |s| - i
  {
    if i < |s| {
      assert s[..i + 1][..i] == s[..i];
      StoppedStays(s, i + 1);
    } else {
      assert s[..i] == s;
    }
  }

  method ParseUnsigned(buf: string, min: Word, max: Word) returns (result: ParseResult)
    ensures result == Parse(buf, min, max)
  {
    if |buf| == 0 {
      return Error;
    }
    var n: Word := 0;
    var i := 0;
    while i < |buf|
      invariant 0 <= i <= |buf| && Accumulate(buf[..i]) == At(n)
    {
      var c := buf[i];
      i := i + 1;
      assert buf[..i][..i - 1] == buf[..i - 1];
      if !IsDigit(c) {
        StoppedStays(buf, i);
        return Error;
      }
      var tmp: Word := (n * 10 + (c - '0') as int) % WORD;
      if tmp < n {
        StoppedStays(buf, i);
        return Error;
      }
      n := tmp;
    }
    assert buf[..i] == buf;
    if n < min {
      return Underflow;
    } else if n > max {
      return Overflow;
    }
    return Succeeded(n);
  }

  // The smallest accumulator that a wrap-around can leave unnoticed.
  const WRAPPED := 477218588

  // The test for overflow misses some of them, but then the accumulator is WRAPPED at least.
  lemma {:induction false} AccumulateExact(s: string)
    requires AllDigits(s)
    ensures match Accumulate(s)
            case At(n) => n == Value(s) || (n >= WRAPPED && Value(s) >= WRAPPED)
            case Stopped => Value(s) >= WRAPPED
  {
    if s != "" {
      AccumulateExact(s[..|s| - 1]);
    }
  }

  lemma {:induction false} AccumulateDigits(s: string)
    requires Accumulate(s).At?
    ensures AllDigits(s)
  {
    if s != "" {
      AccumulateDigits(s[..|s| - 1]);
      assert s == s[..|s| - 1] + [s[|s| - 1]];
    }
  }

  // Parsing succeeds on exactly the digit strings whose unbounded value lies in the interval, with that value.
  ghost predicate ParsesRight(s: string, min: Word, max: Word) {
    && (Parse(s, min, max).Succeeded? <==> |s| > 0 && AllDigits(s) && min <= Value(s) <= max)
    && (Parse(s, min, max).Succeeded? ==> Parse(s, min, max).n == Value(s))
  }

  /** Parsing is right for every text just when the upper bound is below the smallest unnoticed wrap-around. */
  lemma {:induction false} ParseExact(min: Word, max: Word)
    requires min <= max
    ensures (forall s :: ParsesRight(s, min, max)) <==> max < WRAPPED
  {
    if max < WRAPPED {
      forall s ensures ParsesRight(s, min, max) {
        if Accumulate(s).At? {
          AccumulateDigits(s);
        }
        if AllDigits(s) {
          AccumulateExact(s);
        }
      }
    } else {
      var n, d := (max + WORD) / 10, (max + WORD) % 10;
      assert 10 * n + d == max + WORD;
      WrapParsed(n, d, min, max);
    }
  }

  // Below the word size, the accumulator follows the digits.
  lemma {:induction false} AccumulateDecimal(n: Word)
    ensures Accumulate(Decimal(n)) == At(n)
  {
    if n >= 10 {
      var s, q, d := Decimal(n), n / 10, n % 10;
      assert s[..|s| - 1] == Decimal(q) && s[|s| - 1] == Digit(d);
      AccumulateDecimal(q);
      assert q * 10 + d == n;
    }
  }

  // If the word wraps around to no less than it was, nobody notices: 4772185884, taken for 477218588, is the first
  // case.
  lemma {:induction false} WrapUnnoticed(n: Word, d: nat, s: string)
    requires d < 10 && s == Decimal(n) + [Digit(d)] && (10 * n + d) % WORD >= n
    ensures Accumulate(s) == At((10 * n + d) % WORD) && AllDigits(s) && Value(s) == 10 * n + d
  {
    assert s[..|s| - 1] == Decimal(n);
    AccumulateDecimal(n);
    ValueDecimal(n);
  }

  lemma {:induction false} WrapParsed(n: Word, d: nat, min: Word, max: Word)
    requires d < 10 && (10 * n + d) % WORD >= n && 10 * n + d >= WORD && min <= (10 * n + d) % WORD <= max
    ensures !ParsesRight(Decimal(n) + [Digit(d)], min, max)
  {
    WrapUnnoticed(n, d, Decimal(n) + [Digit(d)]);
  }

  lemma {:induction false} AccumulateMore(s: string, c: char, n: Word, more: string)
    requires Accumulate(s) == At(n) && AllDigits(s) && Value(s) == n && more == s + [c]
    requires IsDigit(c) && 10 * n + (c - '0') as nat < WORD
    ensures Accumulate(more) == At(10 * n + (c - '0') as nat) && AllDigits(more)
    ensures Value(more) == 10 * n + (c - '0') as nat
  {
    assert more[..|s|] == s;
  }

  /** The first number that is misread: 4772185884 is taken for 477218588. */
  lemma {:induction false} FirstMisread()
    ensures Parse("4772185884", 0, WRAPPED) == Succeeded(WRAPPED) && !ParsesRight("4772185884", 0, WRAPPED)
  {
    AccumulateMore("", '4', 0, "4");
    AccumulateMore("4", '7', 4, "47");
    AccumulateMore("47", '7', 47, "477");
    AccumulateMore("477", '2', 477, "4772");
    AccumulateMore("4772", '1', 4772, "47721");
    AccumulateMore("47721", '8', 47721, "477218");
    AccumulateMore("477218", '5', 477218, "4772185");
    AccumulateMore("4772185", '8', 4772185, "47721858");
    AccumulateMore("47721858", '8', 47721858, "477218588");
    var s := "4772185884";
    assert s[..9] == "477218588";
  }
}
