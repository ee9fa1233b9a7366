/** Bytes and the decimal numerals the wire format and the store files are made of. */
module Decimal {

  type byte = b: int | 0 <= b < 256

  datatype Option<+T> = None | Some(value: T)

  datatype Result<+T, +E> = Ok(value: T) | Err(error: E)

  const ZERO: byte := 48
  const PLUS: byte := 43
  const U32_LIMIT: nat := 0x1_0000_0000
  const U64_LIMIT: nat := 0x1_0000_0000_0000_0000

  predicate IsDigit(b: byte) {
    48 <= b <= 57
  }

  predicate AllDigits(s: seq<byte>) {
    forall i :: 0 <= i < |s| ==> IsDigit(s[i])
  }

  /** The canonical numeral, as `format!("{n}")` prints it. */
  function Print(n: nat): (s: seq<byte>)
    ensures |s| > 0 && AllDigits(s)
  {
    if n < 10 then [48 + n] else Print(n / 10) + [48 + n % 10]
  }

  /** Left-to-right accumulation `acc * 10 + (byte - '0')`, on any bytes at all. */
  function Horner(s: seq<byte>): int {
    if s == [] then 0 else Horner(s[..|s| - 1]) * 10 + s[|s| - 1] - 48
  }

  predicate Canonical(s: seq<byte>) {
    s != [] && AllDigits(s) && (|s| == 1 || s[0] != ZERO)
  }

  lemma HornerSnoc(s: seq<byte>, b: byte)
    ensures Horner(s + [b]) == Horner(s) * 10 + b - 48
  {
    assert (s + [b])[..|s|] == s;
  }

  lemma HornerNonNegative(s: seq<byte>)
    requires AllDigits(s)
    ensures Horner(s) >= 0
  {}

  lemma {:induction false} HornerPrint(n: nat)
    ensures Horner(Print(n)) == n
  {
    if n < 10 {
      assert Print(n)[..0] == [];
    } else {
      HornerPrint(n / 10);
      HornerSnoc(Print(n / 10), 48 + n % 10);
    }
  }

  lemma {:induction false} PrintCanonical(n: nat)
    ensures Canonical(Print(n))
    ensures n > 0 ==> Print(n)[0] != ZERO
  {
    if n >= 10 {
      PrintCanonical(n / 10);
      assert Print(n)[0] == Print(n / 10)[0];
    }
  }

  /** A numeral without a leading zero is positive. */
  lemma {:induction false} CanonicalPositive(s: seq<byte>)
    requires AllDigits(s) && s != [] && s[0] != ZERO
    ensures Horner(s) >= 1
  {
    if |s| == 1 {
      assert s[..0] == [];
    } else {
      CanonicalPositive(s[..|s| - 1]);
    }
  }

  lemma {:induction false} PrintHorner(s: seq<byte>)
    requires Canonical(s)
    ensures Horner(s) >= 0 && Print(Horner(s)) == s
  {
    HornerNonNegative(s);
    var front, last := s[..|s| - 1], s[|s| - 1];
    assert s == front + [last];
    HornerSnoc(front, last);
    if |s| == 1 {
      assert front == [];
    } else {
      CanonicalPositive(front);
      PrintHorner(front);
      assert Horner(s) / 10 == Horner(front) && Horner(s) % 10 == last - 48;
    }
  }

  /** `n` zeros. */
  function Zeros(n: nat): (s: seq<byte>)
    ensures |s| == n && AllDigits(s)
  {
    seq(n, _ => ZERO)
  }

  /** `format!("{n:0width$}")`: zero-padded on the left, never truncated. */
  function PrintPadded(n: nat, width: nat): (s: seq<byte>)
    ensures |s| >= width && |s| > 0 && AllDigits(s)
  {
    var digits := Print(n);
    if |digits| < width then Zeros(width - |digits|) + digits else digits
  }

  lemma {:induction false} HornerLeadingZeros(k: nat, s: seq<byte>)
    ensures Horner(Zeros(k) + s) == Horner(s)
    decreases |s|, k
  {
    if s == [] {
      assert Zeros(k) + s == Zeros(k);
      if k > 0 {
        assert Zeros(k)[..k - 1] == Zeros(k - 1);
        HornerLeadingZeros(k - 1, []);
        assert Zeros(k - 1) + [] == Zeros(k - 1);
      }
    } else {
      var front, last := s[..|s| - 1], s[|s| - 1];
      assert s == front + [last];
      HornerLeadingZeros(k, front);
      HornerSnoc(Zeros(k) + front, last);
      assert Zeros(k) + s == Zeros(k) + front + [last];
    }
  }

  /** `str::parse` of an unsigned integer type with values below `limit`:
      an optional plus sign, at least one digit, no overflow. */
  function ParseUnsigned(s: seq<byte>, limit: nat): (r: Option<nat>)
    ensures r.Some? ==> r.value < limit
  {
    var digits := if s != [] && s[0] == PLUS then s[1..] else s;
    if digits != [] && AllDigits(digits) then
      HornerNonNegative(digits);
      if Horner(digits) < limit then Some(Horner(digits)) else None
    else
      None
  }

  lemma ParsePrinted(n: nat, width: nat, limit: nat)
    requires n < limit
    ensures ParseUnsigned(PrintPadded(n, width), limit) == Some(n)
    ensures ParseUnsigned(Print(n), limit) == Some(n)
  {
    HornerPrint(n);
    var digits := Print(n);
    if |digits| < width {
      HornerLeadingZeros(width - |digits|, digits);
    }
  }

  /** A numeral that parses and is written canonically is the printed form of its value. */
  lemma ParsedCanonical(s: seq<byte>, limit: nat)
    requires Canonical(s) && ParseUnsigned(s, limit).Some?
    ensures Print(ParseUnsigned(s, limit).value) == s
  {
    PrintHorner(s);
  }

  // ----- place values -----

  function Power10(k: nat): (p: nat)
    ensures p > 0
  {
    if k == 0 then 1 else 10 * Power10(k - 1)
  }

  lemma {:induction false} PowerAdd(j: nat, k: nat)
    ensures Power10(j + k) == Power10(j) * Power10(k)
  {
    if k > 0 {
      PowerAdd(j, k - 1);
    }
  }

  /** The value of a numeral, digit by digit from the front. */
  function Value(s: seq<byte>): int {
    if s == [] then 0 else (s[0] as int - 48) * Power10(|s| - 1) + Value(s[1..])
  }

  lemma {:induction false} ValueSnoc(s: seq<byte>, b: byte)
    ensures Value(s + [b]) == Value(s) * 10 + (b as int - 48)
  {
    if s == [] {
      assert ([] + [b])[1..] == [];
    } else {
      assert (s + [b])[1..] == s[1..] + [b] && (s + [b])[0] == s[0];
      ValueSnoc(s[1..], b);
      var d, p := s[0] as int - 48, Power10(|s| - 1);
      assert Power10(|s|) == 10 * p;
      assert d * (10 * p) == d * p * 10;
    }
  }

  /** Accumulating from the left gives the value of the numeral. */
  lemma {:induction false} HornerWeighs(s: seq<byte>)
    ensures Horner(s) == Value(s)
  {
    if s != [] {
      HornerWeighs(s[..|s| - 1]);
      assert s == s[..|s| - 1] + [s[|s| - 1]];
      ValueSnoc(s[..|s| - 1], s[|s| - 1]);
    }
  }

  /** Exactly the numerals below the limit, with or without a plus sign, are parsed. */
  lemma {:induction false} ParsedExactly(s: seq<byte>, limit: nat, n: nat)
    ensures ParseUnsigned(s, limit) == Some(n) <==>
            n < limit
            && exists digits ::
                 digits != [] && AllDigits(digits) && Value(digits) == n && (s == digits || s == [PLUS] + digits)
  {
    var bare := if s != [] && s[0] == PLUS then s[1..] else s;
    HornerWeighs(bare);
    if s != [] && s[0] == PLUS {
      assert s == [PLUS] + bare;
    }
    hide Horner, Value;
    if digits :| digits != [] && AllDigits(digits) && Value(digits) == n && (s == digits || s == [PLUS] + digits) {
      assert IsDigit(digits[0]);
      assert s == [PLUS] + digits ==> s[1..] == digits;
      assert digits == bare;
    }
  }
}
