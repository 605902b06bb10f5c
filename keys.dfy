/** The bucket key of an instance: the decimal rendering of its id, as bytes
    (`idToBytes`), and the parse back (`idFromBytes`). */
module Keys {
  import opened Instances

  newtype Byte = x: int | 0 <= x < 256

  /** A bolt key: a byte string. */
  type Key = seq<Byte>

  /** The byte of the ASCII character '0'. */
  const Zero: Byte := 48

  /** The largest `uint32`, which `strconv.ParseUint(s, 10, 32)` returns on overflow. */
  const MaxId: nat := 0xFFFF_FFFF

  predicate IsDigit(b: Byte)
  {
    Zero <= b <= Zero + 9
  }

  function DigitValue(b: Byte): nat
    requires IsDigit(b)
  {
    (b - Zero) as nat
  }

  /** The ASCII byte of a decimal digit. */
  function Digit(d: nat): (b: Byte)
    requires d < 10
    ensures IsDigit(b) && DigitValue(b) == d
  {
    (Zero as nat + d) as Byte
  }

  predicate AllDigits(s: Key)
  {
    forall i :: 0 <= i < |s| ==> IsDigit(s[i])
  }

  /** A canonical decimal numeral: at least one digit, digits only, and no leading zero
      unless the numeral is "0" itself. */
  predicate Canonical(s: Key)
  {
    |s| >= 1 && AllDigits(s) && (s[0] == Zero ==> |s| == 1)
  }

  /** Reads the digits of `s` left to right into `acc` (Horner's rule). */
  function Accumulate(acc: nat, s: Key): nat
    requires AllDigits(s)
    decreases |s|
  {
    if s == [] then acc else Accumulate(acc * 10 + DigitValue(s[0]), s[1..])
  }

  /** The number a digit string denotes. */
  function DecimalValue(s: Key): nat
    requires AllDigits(s)
  {
    Accumulate(0, s)
  }

  /** The decimal numeral of `n`, as `strconv.FormatUint(n, 10)` writes it. */
  function Decimal(n: nat): (s: Key)
    ensures |s| >= 1 && AllDigits(s)
    ensures s[0] == Zero <==> n == 0
    ensures Canonical(s)
    decreases n
  {
    if n < 10 then [Digit(n)] else Decimal(n / 10) + [Digit(n % 10)]
  }

  /** `idToBytes`: the key of the bucket holding instance `id`. */
  function IdToBytes(id: Uint32): (k: Key)
    ensures Canonical(k)
  {
    Decimal(id as nat)
  }

  /** `strconv.ParseUint(s, 10, 32)` after it has read `n`: each further byte must be a digit
      (otherwise the result is 0) and must not take the value past the largest `uint32`
      (otherwise the result is that largest value); it stops at the first such byte. */
  function ParseFrom(n: nat, s: Key): (r: nat)
    requires n <= MaxId
    ensures r <= MaxId
    decreases |s|
  {
    if s == [] then n
    else if !IsDigit(s[0]) then 0
    else if n * 10 + DigitValue(s[0]) > MaxId then MaxId
    else ParseFrom(n * 10 + DigitValue(s[0]), s[1..])
  }

  /** `idFromBytes`: parses a key back into an id, ignoring the parse error; the empty key
      is a syntax error and reads as 0. */
  function IdFromBytes(k: Key): Uint32
  {
    if k == [] then 0 else ParseFrom(0, k) as Uint32
  }

  // ----- Reading a numeral -----

  lemma {:induction false} AccumulateAppend(acc: nat, s: Key, d: Byte)
    requires AllDigits(s) && IsDigit(d)
    ensures AllDigits(s + [d])
    ensures Accumulate(acc, s + [d]) == Accumulate(acc, s) * 10 + DigitValue(d)
    decreases |s|
  {
    if s != [] {
      assert (s + [d])[0] == s[0];
      assert (s + [d])[1..] == s[1..] + [d];
      AccumulateAppend(acc * 10 + DigitValue(s[0]), s[1..], d);
    }
  }

  lemma {:induction false} AccumulateGrows(acc: nat, s: Key)
    requires AllDigits(s)
    ensures Accumulate(acc, s) >= acc
    decreases |s|
  {
    if s != [] {
      AccumulateGrows(acc * 10 + DigitValue(s[0]), s[1..]);
    }
  }

  /** The rendering denotes the number rendered. */
  lemma {:induction false} DecimalDenotes(n: nat)
    ensures DecimalValue(Decimal(n)) == n
    decreases n
  {
    if n < 10 {
      assert Decimal(n) == [] + [Digit(n)];
      AccumulateAppend(0, [], Digit(n));
    } else {
      DecimalDenotes(n / 10);
      AccumulateAppend(0, Decimal(n / 10), Digit(n % 10));
      assert (n / 10) * 10 + n % 10 == n;
    }
  }

  /** A canonical numeral is the rendering of the number it denotes: the decimal rendering
      is the only canonical numeral of each number. */
  lemma {:induction false} CanonicalIsDecimal(s: Key)
    requires Canonical(s)
    ensures Decimal(DecimalValue(s)) == s
    decreases |s|
  {
    if |s| == 1 {
      assert s == [] + [s[0]];
      AccumulateAppend(0, [], s[0]);
    } else {
      var a, d := s[..|s| - 1], s[|s| - 1];
      assert s == a + [d];
      assert a[0] == s[0];
      assert Canonical(a);
      AccumulateAppend(0, a, d);
      AccumulateGrows(DigitValue(a[0]), a[1..]);
      var v := DecimalValue(a);
      assert v >= 1;
      var n := v * 10 + DigitValue(d);
      assert n / 10 == v && n % 10 == DigitValue(d);
      CanonicalIsDecimal(a);
    }
  }

  // ----- Parsing, as strconv.ParseUint does it -----

  /** Without overflow, the parse reads the digits' value. */
  lemma {:induction false} ParseReadsValue(acc: nat, s: Key)
    requires acc <= MaxId && AllDigits(s) && Accumulate(acc, s) <= MaxId
    ensures ParseFrom(acc, s) == Accumulate(acc, s)
    decreases |s|
  {
    if s != [] {
      var n1 := acc * 10 + DigitValue(s[0]);
      AccumulateGrows(n1, s[1..]);
      ParseReadsValue(n1, s[1..]);
    }
  }

  /** On overflow, the parse yields the largest `uint32`. */
  lemma {:induction false} ParseSaturates(acc: nat, s: Key)
    requires acc <= MaxId && AllDigits(s) && Accumulate(acc, s) > MaxId
    ensures ParseFrom(acc, s) == MaxId
    decreases |s|
  {
    if s != [] {
      var n1 := acc * 10 + DigitValue(s[0]);
      if n1 <= MaxId {
        ParseSaturates(n1, s[1..]);
      }
    }
  }

  /** A byte that is not a digit, met before any overflow, makes the parse yield 0. */
  lemma {:induction false} ParseRejects(acc: nat, p: Key, b: Byte, rest: Key)
    requires acc <= MaxId && AllDigits(p) && Accumulate(acc, p) <= MaxId && !IsDigit(b)
    ensures ParseFrom(acc, p + [b] + rest) == 0
    decreases |p|
  {
    if p == [] {
      assert p + [b] + rest == [b] + rest;
    } else {
      var n1 := acc * 10 + DigitValue(p[0]);
      AccumulateGrows(n1, p[1..]);
      assert (p + [b] + rest)[0] == p[0];
      assert (p + [b] + rest)[1..] == p[1..] + [b] + rest;
      ParseRejects(n1, p[1..], b, rest);
    }
  }

  /** Digits that overflow make the parse yield the largest `uint32`, whatever bytes follow
      them: the parse stops at the overflowing digit. */
  lemma {:induction false} ParseSaturatesBefore(acc: nat, p: Key, rest: Key)
    requires acc <= MaxId && AllDigits(p) && Accumulate(acc, p) > MaxId
    ensures ParseFrom(acc, p + rest) == MaxId
    decreases |p|
  {
    assert p != [];
    assert (p + rest)[0] == p[0];
    var n1 := acc * 10 + DigitValue(p[0]);
    if n1 <= MaxId {
      assert (p + rest)[1..] == p[1..] + rest;
      ParseSaturatesBefore(n1, p[1..], rest);
    }
  }

  /** `idFromBytes` on a numeral of at most 4294967295 gives its value, on a larger numeral
      4294967295, and on the empty key 0. */
  lemma IdFromBytesReads(k: Key)
    ensures k != [] && AllDigits(k) && DecimalValue(k) <= MaxId ==> IdFromBytes(k) as nat == DecimalValue(k)
    ensures k != [] && AllDigits(k) && DecimalValue(k) > MaxId ==> IdFromBytes(k) as nat == MaxId
    ensures k == [] ==> IdFromBytes(k) == 0
  {
    if k != [] && AllDigits(k) {
      if DecimalValue(k) <= MaxId {
        ParseReadsValue(0, k);
      } else {
        ParseSaturates(0, k);
      }
    }
  }

  /** A non-digit byte after an in-range run of digits makes `idFromBytes` give 0. */
  lemma IdFromBytesRejects(p: Key, b: Byte, rest: Key)
    requires AllDigits(p) && DecimalValue(p) <= MaxId && !IsDigit(b)
    ensures IdFromBytes(p + [b] + rest) == 0
  {
    ParseRejects(0, p, b, rest);
  }

  /** Digits whose value passes 4294967295 make `idFromBytes` give 4294967295, whatever
      bytes follow them. */
  lemma IdFromBytesSaturatesBeforeJunk(p: Key, rest: Key)
    requires AllDigits(p) && DecimalValue(p) > MaxId
    ensures IdFromBytes(p + rest) as nat == MaxId
  {
    ParseSaturatesBefore(0, p, rest);
  }

  // ----- The key codec -----

  /** The key of an id denotes the id. */
  lemma IdToBytesDenotes(id: Uint32)
    ensures DecimalValue(IdToBytes(id)) == id as nat
  {
    DecimalDenotes(id as nat);
  }

  /** Parsing a key gives back the id it was made from. */
  lemma IdFromBytesRoundTrip(id: Uint32)
    ensures IdFromBytes(IdToBytes(id)) == id
  {
    IdToBytesDenotes(id);
    ParseReadsValue(0, IdToBytes(id));
  }

  /** Distinct ids have distinct keys. */
  lemma IdToBytesInjective(a: Uint32, b: Uint32)
    ensures IdToBytes(a) == IdToBytes(b) <==> a == b
  {
    IdFromBytesRoundTrip(a);
    IdFromBytesRoundTrip(b);
  }

  /** The keys `idToBytes` makes are exactly the canonical numerals of at most 4294967295,
      and on those `idToBytes` undoes `idFromBytes`. */
  lemma CanonicalKeyRoundTrip(k: Key)
    ensures (Canonical(k) && DecimalValue(k) <= MaxId) <==> IdToBytes(IdFromBytes(k)) == k
  {
    if Canonical(k) && DecimalValue(k) <= MaxId {
      ParseReadsValue(0, k);
      CanonicalIsDecimal(k);
    }
    if IdToBytes(IdFromBytes(k)) == k {
      IdToBytesDenotes(IdFromBytes(k));
    }
  }
}
