/** Worker handles as strings (worker/mod.rs): a manager's nonce, a colon, and the decimal number
    under which the handle was issued. */
module Handles {
  import opened Wrappers

  const U64_MAX: nat := 0xFFFF_FFFF_FFFF_FFFF

  function Digit(d: nat): (c: char)
    requires d < 10
    ensures '0' <= c <= '9' && DigitValue(c) == d
  {
    '0' + d as char
  }

  function DigitValue(c: char): nat
    requires '0' <= c <= '9'
  {
    c as int - '0' as int
  }

  /** Decimal notation, as the formatter prints it. */
  function Decimal(n: nat): (s: string)
    ensures s != [] && forall i | 0 <= i < |s| :: '0' <= s[i] <= '9'
  {
    if n < 10 then [Digit(n)] else Decimal(n / 10) + [Digit(n % 10)]
  }

  /** The value of a string of digits. */
  function Value(s: string): Option<nat> {
    if s == [] then Some(0)
    else
      var c := s[|s| - 1];
      var front := Value(s[..|s| - 1]);
      if front.Some? && '0' <= c <= '9' then Some(front.value * 10 + DigitValue(c)) else None
  }

  /** Parsing as `u64`: an optional plus sign, at least one digit, and a value that fits. */
  function ParseU64(s: string): Option<nat> {
    var digits := if s != [] && s[0] == '+' then s[1..] else s;
    if digits == [] then None
    else
      var v := Value(digits);
      if v.Some? && v.value <= U64_MAX then v else None
  }

  lemma {:induction false} DecimalValue(n: nat)
    ensures Value(Decimal(n)) == Some(n)
    decreases n
  {
    if n >= 10 {
      DecimalValue(n / 10);
      var s := Decimal(n);
      assert s[..|s| - 1] == Decimal(n / 10);
    }
  }

  /** What was printed is read back. */
  lemma DecimalRoundTrip(n: nat)
    requires n <= U64_MAX
    ensures ParseU64(Decimal(n)) == Some(n)
  {
    DecimalValue(n);
    assert Decimal(n)[0] != '+';
  }

  function Handle(nonce: string, n: nat): string {
    nonce + ":" + Decimal(n)
  }

  function StripPrefix(s: string, prefix: string): Option<string> {
    if prefix <= s then Some(s[|prefix|..]) else None
  }

  /** Whether a handle names a number this manager has issued. */
  predicate Known(handle: string, nonce: string, issued: nat) {
    var rest := StripPrefix(handle, nonce + ":");
    rest.Some? && var n := ParseU64(rest.value); n.Some? && 0 < n.value <= issued
  }

  /** Handles of different numbers differ, and a handle is known exactly from the moment its number
      is issued. */
  lemma HandleIsKnownOnceIssued(nonce: string, n: nat, issued: nat)
    requires 0 < n <= U64_MAX
    ensures Known(Handle(nonce, n), nonce, issued) <==> n <= issued
  {
    DecimalRoundTrip(n);
    assert Handle(nonce, n)[|nonce + ":"|..] == Decimal(n);
  }

  lemma HandlesAreDistinct(nonce: string, n: nat, m: nat)
    requires 0 < n <= U64_MAX && 0 < m <= U64_MAX && Handle(nonce, n) == Handle(nonce, m)
    ensures n == m
  {
    DecimalRoundTrip(n);
    DecimalRoundTrip(m);
    assert Handle(nonce, n)[|nonce + ":"|..] == Decimal(n);
    assert Handle(nonce, m)[|nonce + ":"|..] == Decimal(m);
  }

  // ---------------------------------------------------------------- what else is known

  function Zeros(k: nat): string {
    seq(k, _ => '0')
  }

  lemma {:induction false} ValueOfZeros(k: nat)
    ensures Value(Zeros(k)) == Some(0)
  {
    if k > 0 {
      ValueOfZeros(k - 1);
      assert Zeros(k)[..k - 1] == Zeros(k - 1);
    }
  }

  /** Leading zeros do not count. */
  lemma {:induction false} ValueOfPadded(k: nat, n: nat)
    ensures Value(Zeros(k) + Decimal(n)) == Some(n)
    decreases n
  {
    var s := Zeros(k) + Decimal(n);
    if n < 10 {
      ValueOfZeros(k);
      assert s[..|s| - 1] == Zeros(k);
    } else {
      ValueOfPadded(k, n / 10);
      assert s[..|s| - 1] == Zeros(k) + Decimal(n / 10);
    }
  }

  lemma {:induction false} ZeroIsZeros(s: string)
    requires Value(s) == Some(0)
    ensures s == Zeros(|s|)
  {
    if s != [] {
      ZeroIsZeros(s[..|s| - 1]);
      assert s == s[..|s| - 1] + [s[|s| - 1]];
    }
  }

  /** A string of digits is zeros before the decimal notation of its value. */
  lemma {:induction false} DigitsArePadded(s: string, n: nat) returns (k: nat)
    requires Value(s) == Some(n) && n > 0
    ensures s == Zeros(k) + Decimal(n)
    decreases |s|
  {
    var front, last := s[..|s| - 1], s[|s| - 1];
    var f := Value(front).value;
    assert s == front + [last] && last == Digit(DigitValue(last));
    if f == 0 {
      ZeroIsZeros(front);
      k := |front|;
    } else {
      k := DigitsArePadded(front, f);
      assert n / 10 == f && n % 10 == DigitValue(last);
      assert Zeros(k) + Decimal(f) + [last] == Zeros(k) + (Decimal(f) + [last]);
    }
  }

  /** A spelling of a number: it may carry a plus sign and leading zeros. */
  function Spelling(plus: bool, k: nat, n: nat): string {
    (if plus then "+" else "") + (Zeros(k) + Decimal(n))
  }

  lemma DigitsParse(digits: string, n: nat)
    requires digits != [] && digits[0] != '+' && Value(digits) == Some(n) && n <= U64_MAX
    ensures ParseU64(digits) == Some(n) && ParseU64("+" + digits) == Some(n)
  {
    assert ("+" + digits)[1..] == digits;
  }

  lemma StartsWithDigit(zeros: string, decimal: string)
    requires forall i | 0 <= i < |zeros| :: zeros[i] == '0'
    requires decimal != [] && '0' <= decimal[0] <= '9'
    ensures zeros + decimal != [] && (zeros + decimal)[0] != '+'
  {
  }

  lemma SpellingsParse(plus: bool, k: nat, n: nat)
    requires n <= U64_MAX
    ensures ParseU64(Spelling(plus, k, n)) == Some(n)
  {
    var digits := Zeros(k) + Decimal(n);
    ValueOfPadded(k, n);
    StartsWithDigit(Zeros(k), Decimal(n));
    DigitsParse(digits, n);
    if !plus {
      assert "" + digits == digits;
    }
  }

  lemma ParsedIsSpelled(s: string, n: nat) returns (plus: bool, k: nat)
    requires ParseU64(s) == Some(n) && n > 0
    ensures s == Spelling(plus, k, n)
  {
    plus := s != [] && s[0] == '+';
    if plus {
      k := DigitsArePadded(s[1..], n);
      assert s == "+" + s[1..];
    } else {
      k := DigitsArePadded(s, n);
    }
  }

  lemma Strip(s: string, prefix: string)
    ensures StripPrefix(prefix + s, prefix) == Some(s)
  {
  }

  /** What a manager takes for one of its handles: exactly its nonce, a colon and a spelling of a number
      it has issued. The handles themselves are the spellings without plus and zeros. */
  lemma KnownIff(h: string, nonce: string, issued: nat)
    requires issued <= U64_MAX
    ensures Known(h, nonce, issued) <==>
            exists plus: bool, k: nat, n: nat :: 0 < n <= issued && h == nonce + ":" + Spelling(plus, k, n)
  {
    if Known(h, nonce, issued) {
      var rest := StripPrefix(h, nonce + ":").value;
      assert h == nonce + ":" + rest;
      var n := ParseU64(rest).value;
      var plus, k := ParsedIsSpelled(rest, n);
    }
    forall plus: bool, k: nat, n: nat | 0 < n <= issued && h == nonce + ":" + Spelling(plus, k, n)
      ensures Known(h, nonce, issued)
    {
      SpellingsAreKnown(nonce, plus, k, n, issued);
    }
  }

  lemma SpellingsAreKnown(nonce: string, plus: bool, k: nat, n: nat, issued: nat)
    requires 0 < n <= issued <= U64_MAX
    ensures Known(nonce + ":" + Spelling(plus, k, n), nonce, issued)
  {
    Strip(Spelling(plus, k, n), nonce + ":");
    SpellingsParse(plus, k, n);
  }

  lemma {:induction false} FirstDigit(n: nat)
    ensures Decimal(n)[0] == '0' ==> |Decimal(n)| == 1 && n == 0
    decreases n
  {
    if n >= 10 {
      FirstDigit(n / 10);
    }
  }

  /** A plus sign or a leading zero makes a spelling that is no number's own notation. */
  lemma PaddedIsNoDecimal(plus: bool, k: nat, n: nat, m: nat)
    requires plus || k > 0
    ensures Spelling(plus, k, n) != Decimal(m)
  {
    FirstDigit(m);
    assert |Spelling(plus, k, n)| > 1;
    assert Spelling(plus, k, n)[0] == if plus then '+' else '0';
  }

  /** So a handle can be known that was never issued: with a plus or a zero before an issued number it
      is no number's handle, and it is answered like one. */
  lemma KnownButNeverIssued(nonce: string, plus: bool, k: nat, n: nat, issued: nat, m: nat)
    requires 0 < n <= issued <= U64_MAX && (plus || k > 0)
    ensures Known(nonce + ":" + Spelling(plus, k, n), nonce, issued)
    ensures nonce + ":" + Spelling(plus, k, n) != Handle(nonce, m)
  {
    SpellingsAreKnown(nonce, plus, k, n, issued);
    PaddedIsNoDecimal(plus, k, n, m);
    Strip(Spelling(plus, k, n), nonce + ":");
    Strip(Decimal(m), nonce + ":");
  }
}
