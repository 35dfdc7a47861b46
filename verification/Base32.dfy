/**
 * base32Encode and base32Decode of totp.service.ts (section 6 of RFC 4648, without padding
 * characters). The accumulator is a 32-bit word that is never masked: its high bits are
 * stale, and what matters are its low `bits` bits.
 *
 * Words are integers below 2^32. A left shift multiplies and drops what leaves the word, an
 * unsigned right shift divides, `& 31` and `& 0xff` are remainders, and `|` adds, because the
 * shifted word has zeros where the operand has bits; WordOperations checks this reading
 * against what the operators do to each bit.
 */
module Base32 {
  import opened Prelude

  const WORD := 0x1_0000_0000

  /** `v >>> k`, one bit at a time. */
  function Shr(v: nat, k: nat): nat {
    if k == 0 then v else Shr(v / 2, k - 1)
  }

  /** `v << k`, one bit at a time. */
  function Shl(v: nat, k: nat): nat {
    if k == 0 then v else Shl(v, k - 1) * 2 % WORD
  }

  // ------------------------------------------------------------------ words as bits

  predicate Bit(v: nat, j: nat) {
    if j == 0 then v % 2 == 1 else Bit(v / 2, j - 1)
  }

  /** The low `n` bits of a word, most significant first. */
  function Low(v: nat, n: nat): (r: seq<bool>)
    ensures |r| == n && forall i :: 0 <= i < n ==> r[i] == Bit(v, n - 1 - i)
  {
    seq(n, i requires 0 <= i < n => Bit(v, n - 1 - i))
  }

  function Pow2(n: nat): nat {
    if n == 0 then 1 else 2 * Pow2(n - 1)
  }

  lemma {:induction false} BitIgnoresHigh(v: nat, q: nat, n: nat, j: nat)
    requires j < n
    ensures Bit(v + q * Pow2(n), j) == Bit(v, j)
  {
    var m := q * Pow2(n - 1);
    assert q * Pow2(n) == 2 * m;
    assert (v + 2 * m) / 2 == v / 2 + m && (v + 2 * m) % 2 == v % 2;
    if j > 0 {
      BitIgnoresHigh(v / 2, q, n - 1, j - 1);
    }
  }

  /** The low bits do not depend on what lies above them. */
  lemma LowIgnoresHigh(v: nat, q: nat, n: nat)
    ensures Low(v + q * Pow2(n), n) == Low(v, n)
  {
    forall j: nat | j < n ensures Bit(v + q * Pow2(n), j) == Bit(v, j) {
      BitIgnoresHigh(v, q, n, j);
    }
  }

  lemma {:induction false} BitShr(v: nat, k: nat, j: nat)
    ensures Bit(Shr(v, k), j) == Bit(v, k + j)
  {
    if k > 0 {
      BitShr(v / 2, k - 1, j);
    }
  }

  /** A word's low bits split at any point. */
  lemma LowSplit(v: nat, n: nat, k: nat)
    ensures Low(v, n + k) == Low(Shr(v, k), n) + Low(v, k)
  {
    forall j: nat ensures Bit(Shr(v, k), j) == Bit(v, k + j) {
      BitShr(v, k, j);
    }
  }

  /** Low bits determine a number below 2^n. */
  lemma {:induction false} BitsInjective(a: nat, b: nat, n: nat)
    requires a < Pow2(n) && b < Pow2(n) && forall j: nat :: j < n ==> Bit(a, j) == Bit(b, j)
    ensures a == b
  {
    if n > 0 {
      assert Bit(a, 0) == Bit(b, 0);
      forall j: nat | j < n - 1 ensures Bit(a / 2, j) == Bit(b / 2, j) {
        assert Bit(a, j + 1) == Bit(b, j + 1);
      }
      BitsInjective(a / 2, b / 2, n - 1);
    }
  }

  lemma LowInjective(a: nat, b: nat, n: nat)
    requires a < Pow2(n) && b < Pow2(n) && Low(a, n) == Low(b, n)
    ensures a == b
  {
    forall j: nat | j < n ensures Bit(a, j) == Bit(b, j) {
      assert Low(a, n)[n - 1 - j] == Low(b, n)[n - 1 - j];
    }
    BitsInjective(a, b, n);
  }

  // ------------------------------------------------------------------ the operators, bit by bit

  /** Shifting in `k` bits below `v`. */
  lemma {:induction false} BitShift(v: nat, b: nat, k: nat, j: nat)
    requires b < Pow2(k)
    ensures Bit(v * Pow2(k) + b, j) == if j < k then Bit(b, j) else Bit(v, j - k)
  {
    if k == 0 {
      assert v * Pow2(k) + b == v;
    } else {
      var x := v * Pow2(k - 1) + b / 2;
      assert v * Pow2(k) == 2 * (v * Pow2(k - 1));
      assert v * Pow2(k) + b == 2 * x + b % 2;
      if j > 0 {
        BitShift(v, b / 2, k - 1, j - 1);
      }
    }
  }

  lemma {:induction false} NoHighBits(v: nat, n: nat, j: nat)
    requires v < Pow2(n) && j >= n
    ensures !Bit(v, j)
  {
    if j > 0 {
      NoHighBits(v / 2, if n == 0 then 0 else n - 1, j - 1);
    }
  }

  lemma DivMod(v: nat, p: nat)
    requires p > 0
    ensures 0 <= v / p && 0 <= v % p < p && v == v / p * p + v % p
  {
  }

  /** A remainder keeps the low bits only. */
  lemma BitMod(v: nat, n: nat, j: nat)
    requires Pow2(n) > 0
    ensures Bit(v % Pow2(n), j) == (j < n && Bit(v, j))
  {
    DivMod(v, Pow2(n));
    if j < n {
      BitShift(v / Pow2(n), v % Pow2(n), n, j);
    } else {
      NoHighBits(v % Pow2(n), n, j);
    }
  }

  lemma PowWord()
    ensures Pow2(32) == WORD && Pow2(8) == 256 && Pow2(5) == 32
  {
    PowByte();
    assert Pow2(11) == 0x800;
    assert Pow2(14) == 0x4000;
    assert Pow2(17) == 0x2_0000;
    assert Pow2(20) == 0x10_0000;
    assert Pow2(23) == 0x80_0000;
    assert Pow2(26) == 0x400_0000;
    assert Pow2(29) == 0x2000_0000;
  }

  /** `1...1` with n ones */
  lemma {:induction false} BitOnes(n: nat, j: nat)
    ensures Pow2(n) > 0 && Bit(Pow2(n) - 1, j) == (j < n)
  {
    if n > 0 {
      BitOnes(n - 1, if j == 0 then 0 else j - 1);
    } else {
      NoHighBits(0, 0, j);
    }
  }

  /** `v << k` */
  lemma {:induction false} BitShl(v: nat, k: nat, j: nat)
    requires v < WORD && j < 32
    ensures Shl(v, k) < WORD && Bit(Shl(v, k), j) == (j >= k && Bit(v, j - k))
  {
    PowWord();
    if k > 0 {
      BitShl(v, k - 1, if j == 0 then 0 else j - 1);
      BitMod(Shl(v, k - 1) * 2, 32, j);
      BitShift(Shl(v, k - 1), 0, 1, j);
      NoHighBits(0, 0, j);
    }
  }

  /** `(v << k) | b` */
  lemma BitOr(v: nat, b: nat, k: nat, j: nat)
    requires b < Pow2(k) && j < 32 && Pow2(32) == WORD
    ensures Bit((v * Pow2(k) + b) % WORD, j) == ((j >= k && Bit(v, j - k)) || Bit(b, j))
  {
    BitMod(v * Pow2(k) + b, 32, j);
    BitShift(v, b, k, j);
    if j >= k {
      NoHighBits(b, k, j);
    }
  }

  lemma ShiftStaysAligned(v: nat, b: nat)
    ensures b < 256 ==> v * 256 % WORD + b == (v * 256 + b) % WORD
    ensures b < 32 ==> v * 32 % WORD + b == (v * 32 + b) % WORD
  {
    var q := v * 256 / WORD;
    assert v * 256 == q * WORD + v * 256 % WORD;
    var p := v * 32 / WORD;
    assert v * 32 == p * WORD + v * 32 % WORD;
  }

  /**
   * The operators on words do to each bit what they should: shifts move bits and fill with zeros,
   * `|` and `&` combine bit by bit. BitsInjective adds that 32 bits determine a word.
   */
  lemma WordOperations(v: nat, b: nat, k: nat, j: nat)
    requires v < WORD && j < 32
    ensures Bit(Shl(v, k), j) == (j >= k && Bit(v, j - k))
    ensures Bit(Shr(v, k), j) == (j + k < 32 && Bit(v, j + k))
    ensures b < 256 ==> Bit(v * 256 % WORD + b, j) == ((j >= 8 && Bit(v, j - 8)) || Bit(b, j))
    ensures b < 32 ==> Bit(v * 32 % WORD + b, j) == ((j >= 5 && Bit(v, j - 5)) || Bit(b, j))
    ensures Bit(v % 32, j) == (Bit(v, j) && Bit(31, j))
    ensures Bit(v % 256, j) == (Bit(v, j) && Bit(255, j))
  {
    PowWord();
    BitShl(v, k, j);
    BitShr(v, k, j);
    if j + k >= 32 {
      NoHighBits(v, 32, j + k);
    }
    ShiftStaysAligned(v, b);
    if b < 256 {
      BitOr(v, b, 8, j);
    }
    if b < 32 {
      BitOr(v, b, 5, j);
    }
    BitMod(v, 5, j);
    BitOnes(5, j);
    BitMod(v, 8, j);
    BitOnes(8, j);
  }

  // ------------------------------------------------------------------ shifting and splitting words

  lemma ShrTwo(v: nat, k: nat)
    ensures Shr(v, k + 2) == Shr(v / 4, k)
  {
    assert Shr(v, k + 2) == Shr(v / 2, k + 1);
    assert v / 2 / 2 == v / 4;
  }

  lemma ShrFour(v: nat, k: nat)
    ensures Shr(v, k + 4) == Shr(v / 16, k)
  {
    ShrTwo(v, k + 2);
    ShrTwo(v / 4, k);
  }

  lemma ShrByte(v: nat)
    ensures Shr(v, 8) == v / 256
  {
    ShrFour(v, 4);
    ShrFour(v / 16, 0);
  }

  lemma ShrDigit(v: nat)
    ensures Shr(v, 5) == v / 32
  {
    ShrFour(v, 1);
    assert Shr(v / 16, 1) == v / 16 / 2;
  }

  // ------------------------------------------------------------------ the accumulator

  lemma {:induction false} PowDivides(n: nat, m: nat) returns (q: nat)
    requires n <= m
    ensures Pow2(m) == q * Pow2(n)
  {
    if n == m {
      q := 1;
    } else {
      q := PowDivides(n, m - 1);
      q := 2 * q;
    }
  }

  lemma PowByte()
    ensures Pow2(8) == 256 && Pow2(5) == 32
  {
    assert Pow2(3) == 8;
    assert Pow2(6) == 64;
  }

  /** Bits lost at or above the eighth do not show in at most eight low bits. */
  lemma LowIgnoresBytes(v: nat, c: nat, n: nat)
    requires n <= 8
    ensures Low(v + c * 256, n) == Low(v, n)
  {
    var q := PowDivides(n, 8);
    PowByte();
    assert c * 256 == c * (q * Pow2(n)) == (c * q) * Pow2(n);
    LowIgnoresHigh(v, c * q, n);
  }

  /** Shifting a byte in appends its bits to the pending ones, whatever the stale bits hold. */
  lemma ShiftInByte(v: nat, b: nat, n: nat)
    requires n <= 8 && b < 256
    ensures Low(v * 256 % WORD + b, n + 8) == Low(v, n) + Low(b, 8)
  {
    var lo, hi := v % 0x100_0000, v / 0x100_0000;
    var w := v * 256 % WORD + b;
    assert w == lo * 256 + b;
    LowSplit(w, n, 8);
    ShrByte(w);
    assert w / 256 == lo;
    LowIgnoresBytes(b, lo, 8);
    LowIgnoresBytes(lo, hi * 0x1_0000, n);
  }

  /** The same for a five-bit digit. */
  lemma ShiftInDigit(v: nat, d: nat, n: nat)
    requires n <= 8 && d < 32
    ensures Low(v * 32 % WORD + d, n + 5) == Low(v, n) + Low(d, 5)
  {
    var lo, hi := v % 0x800_0000, v / 0x800_0000;
    var w := v * 32 % WORD + d;
    assert w == lo * 32 + d;
    LowSplit(w, n, 5);
    ShrDigit(w);
    assert w / 32 == lo;
    PowByte();
    LowIgnoresHigh(d, lo, 5);
    LowIgnoresBytes(lo, hi * 0x8_0000, n);
  }

  lemma LowDigit(x: nat)
    ensures Low(x % 32, 5) == Low(x, 5)
  {
    PowByte();
    assert x % 32 + (x / 32) * Pow2(5) == x;
    LowIgnoresHigh(x % 32, x / 32, 5);
  }

  /** Taking the top five of `n` pending bits off leaves the rest pending. */
  lemma TakeDigit(v: nat, n: nat)
    requires n >= 5
    ensures Low(v, n) == Low(Shr(v, n - 5) % 32, 5) + Low(v, n - 5)
  {
    LowSplit(v, 5, n - 5);
    LowDigit(Shr(v, n - 5));
  }

  lemma TakeByte(v: nat, n: nat)
    requires n >= 8
    ensures Low(v, n) == Low(Shr(v, n - 8) % 256, 8) + Low(v, n - 8)
  {
    var x := Shr(v, n - 8);
    LowSplit(v, 8, n - 8);
    LowIgnoresBytes(x % 256, x / 256, 8);
  }

  function Zeros(n: nat): (r: seq<bool>)
    ensures |r| == n
  {
    seq(n, _ => false)
  }

  /** Shifting left pads with zeros. */
  lemma {:induction false} ShlPads(v: nat, n: nat, k: nat, m: nat)
    requires m == n + k <= 8
    ensures Low(Shl(v, k), m) == Low(v, n) + Zeros(k)
  {
    if k > 0 {
      ShlPads(v, n, k - 1, m - 1);
      DoublePads(Shl(v, k - 1), m - 1);
      assert Low(v, n) + Zeros(k) == Low(v, n) + Zeros(k - 1) + [false];
    }
  }

  lemma DoublePads(x: nat, n: nat)
    requires n <= 8
    ensures Low(x * 2 % WORD, n + 1) == Low(x, n) + [false]
  {
    var lo, c := x % 0x8000_0000, (x / 0x8000_0000) * 0x80_0000;
    assert x * 2 % WORD == lo * 2 && x == lo + c * 256;
    LowIgnoresBytes(lo, c, n);
    LowDouble(lo, n);
  }

  lemma LowDouble(v: nat, n: nat)
    ensures Low(v * 2, n + 1) == Low(v, n) + [false]
  {
    assert v * 2 / 2 == v;
    assert forall j: nat :: Bit(v * 2, j + 1) == Bit(v, j);
  }

  /** The last, zero-padded digit. */
  lemma PadDigit(v: nat, n: nat, k: nat, x: nat)
    requires n + k == 5 && x == Shl(v, k)
    ensures Low(x % 32, 5) == Low(v, n) + Zeros(k)
  {
    ShlPads(v, n, k, 5);
    LowDigit(x);
  }

  // ------------------------------------------------------------------ text

  type Byte = b: nat | b < 256

  /** alphabet[d]: the letters A to Z, then the digits 2 to 7. */
  function Symbol(d: nat): char
    requires d < 32
  {
    if d < 26 then 'A' + d as char else '2' + (d - 26) as char
  }

  /** alphabet.indexOf(c), None for -1. */
  function IndexOf(c: char): Option<nat> {
    if 'A' <= c <= 'Z' then Some((c - 'A') as nat)
    else if '2' <= c <= '7' then Some((c - '2') as nat + 26)
    else None
  }

  /** The digits a text carries; any other character is passed over. */
  function Digits(text: string): seq<nat>
  {
    if text == [] then []
    else Digits(text[..|text| - 1]) + (match IndexOf(text[|text| - 1]) case Some(d) => [d] case None => [])
  }

  function BitsOfDigits(digits: seq<nat>): (r: seq<bool>)
    ensures |r| == 5 * |digits|
  {
    if digits == [] then [] else BitsOfDigits(digits[..|digits| - 1]) + Low(digits[|digits| - 1], 5)
  }

  function BitsOfBytes(bytes: seq<Byte>): (r: seq<bool>)
    ensures |r| == 8 * |bytes|
  {
    if bytes == [] then [] else BitsOfBytes(bytes[..|bytes| - 1]) + Low(bytes[|bytes| - 1], 8)
  }

  /** Only characters of the alphabet. */
  ghost predicate Plain(text: string) {
    |Digits(text)| == |text|
  }

  lemma DigitsSnoc(text: string, c: char)
    ensures Digits(text + [c]) == Digits(text) + (match IndexOf(c) case Some(d) => [d] case None => [])
  {
    assert (text + [c])[..|text|] == text;
  }

  lemma DigitBitsSnoc(digits: seq<nat>, d: nat)
    ensures BitsOfDigits(digits + [d]) == BitsOfDigits(digits) + Low(d, 5)
  {
    assert (digits + [d])[..|digits|] == digits;
  }

  lemma ByteBitsSnoc(bytes: seq<Byte>, b: Byte)
    ensures BitsOfBytes(bytes + [b]) == BitsOfBytes(bytes) + Low(b, 8)
  {
    assert (bytes + [b])[..|bytes|] == bytes;
  }

  // ------------------------------------------------------------------ encoding

  /** Section 6 of RFC 4648 without padding: the bits in groups of five, the last one zero-filled. */
  ghost predicate IsEncoding(buf: seq<Byte>, text: string) {
    && Plain(text)
    && |text| == (8 * |buf| + 4) / 5
    && BitsOfDigits(Digits(text)) == BitsOfBytes(buf) + Zeros(5 * |text| - 8 * |buf|)
  }

  /** The encoder's state: what is written plus what is pending spells the input so far. */
  ghost predicate Encoding(done: seq<bool>, output: string, value: nat, bits: nat) {
    && Plain(output)
    && done == BitsOfDigits(Digits(output)) + Low(value, bits)
  }

  lemma WriteSymbol(output: string, d: nat)
    requires d < 32 && Plain(output)
    ensures Plain(output + [Symbol(d)])
    ensures BitsOfDigits(Digits(output + [Symbol(d)])) == BitsOfDigits(Digits(output)) + Low(d, 5)
  {
    SymbolIndex(d);
    DigitsSnoc(output, Symbol(d));
    DigitBitsSnoc(Digits(output), d);
    assert Digits(output + [Symbol(d)]) == Digits(output) + [d];
  }

  lemma SymbolIndex(d: nat)
    requires d < 32
    ensures IndexOf(Symbol(d)) == Some(d)
  {
  }

  lemma EmitDigit(done: seq<bool>, output: string, value: nat, bits: nat)
    requires bits >= 5 && Encoding(done, output, value, bits)
    ensures Encoding(done, output + [Symbol(Shr(value, bits - 5) % 32)], value, bits - 5)
  {
    TakeDigit(value, bits);
    WriteSymbol(output, Shr(value, bits - 5) % 32);
  }

  lemma LoadByte(buf: seq<Byte>, i: nat, output: string, value: nat, bits: nat)
    requires i < |buf| && bits < 5 && Encoding(BitsOfBytes(buf[..i]), output, value, bits)
    ensures Encoding(BitsOfBytes(buf[..i + 1]), output, value * 256 % WORD + buf[i], bits + 8)
  {
    assert buf[..i + 1] == buf[..i] + [buf[i]];
    ByteBitsSnoc(buf[..i], buf[i]);
    ShiftInByte(value, buf[i], bits);
  }

  lemma EmitLast(buf: seq<Byte>, output: string, value: nat, bits: nat)
    requires 0 < bits < 5 && Encoding(BitsOfBytes(buf), output, value, bits)
    ensures IsEncoding(buf, output + [Symbol(Shl(value, 5 - bits) % 32)])
  {
    var d := Shl(value, 5 - bits) % 32;
    PadDigit(value, bits, 5 - bits, Shl(value, 5 - bits));
    WriteSymbol(output, d);
    assert |BitsOfBytes(buf)| == 5 * |output| + bits;
  }

  /** base32Encode */
  method Encode(buf: seq<Byte>) returns (output: string)
    ensures IsEncoding(buf, output)
  {
    var bits: nat, value: nat := 0, 0;
    output := "";
    for i := 0 to |buf|
      invariant bits < 5 && Encoding(BitsOfBytes(buf[..i]), output, value, bits)
    {
      LoadByte(buf, i, output, value, bits);
      value := value * 256 % WORD + buf[i];
      bits := bits + 8;
      while bits >= 5
        invariant Encoding(BitsOfBytes(buf[..i + 1]), output, value, bits)
      {
        EmitDigit(BitsOfBytes(buf[..i + 1]), output, value, bits);
        output := output + [Symbol(Shr(value, bits - 5) % 32)];
        bits := bits - 5;
      }
    }
    assert buf[..|buf|] == buf;
    if bits > 0 {
      EmitLast(buf, output, value, bits);
      output := output + [Symbol(Shl(value, 5 - bits) % 32)];
    } else {
      assert |BitsOfBytes(buf)| == 5 * |output|;
      assert Zeros(0) == [];
    }
  }

  // ------------------------------------------------------------------ decoding

  function UpperChar(c: char): char {
    if 'a' <= c <= 'z' then c - 'a' + 'A' else c
  }

  function Upper(s: string): (r: string)
    ensures |r| == |s|
  {
    seq(|s|, i requires 0 <= i < |s| => UpperChar(s[i]))
  }

  function StripPadding(s: string): string {
    if s != "" && s[|s| - 1] == '=' then StripPadding(s[..|s| - 1]) else s
  }

  predicate IsSeparator(c: char) { c == ' ' || '\t' <= c <= '\r' || c == '-' }

  function RemoveSeparators(s: string): string {
    if s == "" then ""
    else RemoveSeparators(s[..|s| - 1]) + (if IsSeparator(s[|s| - 1]) then "" else [s[|s| - 1]])
  }

  function Cleaned(input: string): string {
    RemoveSeparators(Upper(StripPadding(input)))
  }

  /** Cleaning changes nothing but the case: what it removes would have been passed over. */
  lemma {:induction false} CleaningIsCase(input: string)
    ensures Digits(Cleaned(input)) == Digits(Upper(input))
  {
    if input != "" && input[|input| - 1] == '=' {
      var front := input[..|input| - 1];
      CleaningIsCase(front);
      assert Upper(input)[..|front|] == Upper(front);
    } else {
      SeparatorsCarryNothing(Upper(input));
    }
  }

  lemma {:induction false} SeparatorsCarryNothing(s: string)
    ensures Digits(RemoveSeparators(s)) == Digits(s)
  {
    if s != "" {
      var front, c := s[..|s| - 1], s[|s| - 1];
      SeparatorsCarryNothing(front);
      if IsSeparator(c) {
        assert RemoveSeparators(s) == RemoveSeparators(front);
      } else {
        DigitsSnoc(RemoveSeparators(front), c);
      }
    }
  }

  /** The bytes are the digits' bits, less an incomplete last byte. */
  ghost predicate IsDecoding(text: string, out: seq<Byte>) {
    var bits := BitsOfDigits(Digits(Upper(text)));
    |out| == |bits| / 8 && BitsOfBytes(out) == bits[..8 * |out|]
  }

  /** The decoder's state: what is written plus what is pending spells the digits read. */
  ghost predicate Decoding(digits: seq<nat>, out: seq<Byte>, value: nat, bits: nat) {
    BitsOfDigits(digits) == BitsOfBytes(out) + Low(value, bits)
  }

  lemma LoadDigit(digits: seq<nat>, d: nat, out: seq<Byte>, value: nat, bits: nat, w: nat)
    requires bits < 8 && d < 32 && w == value * 32 % WORD + d
    requires Decoding(digits, out, value, bits)
    ensures Decoding(digits + [d], out, w, bits + 5)
  {
    DigitBitsSnoc(digits, d);
    ShiftInDigit(value, d, bits);
  }

  /** `(value >>> (bits - 8)) & 0xff` */
  function TopByte(value: nat, bits: nat): Byte
    requires bits >= 8
  {
    Shr(value, bits - 8) % 256
  }

  /** `(value << 5) | idx` */
  function Push(value: nat, d: nat): nat {
    value * 32 % WORD + d
  }

  lemma EmitByte(digits: seq<nat>, out: seq<Byte>, value: nat, bits: nat)
    requires bits >= 8 && Decoding(digits, out, value, bits)
    ensures Decoding(digits, out + [TopByte(value, bits)], value, bits - 8)
  {
    TakeByte(value, bits);
    ByteBitsSnoc(out, TopByte(value, bits));
  }

  /** base32Decode */
  method Decode(input: string) returns (out: seq<Byte>)
    ensures IsDecoding(input, out)
  {
    var cleaned := Cleaned(input);
    var bits: nat, value: nat := 0, 0;
    ghost var digits := [];
    out := [];
    for i := 0 to |cleaned|
      invariant bits < 8 && digits == Digits(cleaned[..i]) && Decoding(digits, out, value, bits)
    {
      assert cleaned[..i + 1] == cleaned[..i] + [cleaned[i]];
      DigitsSnoc(cleaned[..i], cleaned[i]);
      var idx := IndexOf(cleaned[i]);
      if idx.None? { continue; }
      LoadDigit(digits, idx.value, out, value, bits, Push(value, idx.value));
      digits := digits + [idx.value];
      value := Push(value, idx.value);
      bits := bits + 5;
      if bits >= 8 {
        EmitByte(digits, out, value, bits);
        out := out + [TopByte(value, bits)];
        bits := bits - 8;
      }
    }
    assert cleaned[..|cleaned|] == cleaned;
    CleaningIsCase(input);
  }

  // ------------------------------------------------------------------ consequences

  /** Bytes are determined by their bits. */
  lemma {:induction false} BytesInjective(a: seq<Byte>, b: seq<Byte>)
    requires BitsOfBytes(a) == BitsOfBytes(b)
    ensures a == b
  {
    if a == [] || b == [] {
      assert |a| == |b|;
    } else {
      assert |a| == |b|;
      var x, y := a[|a| - 1], b[|b| - 1];
      var s := BitsOfBytes(a);
      assert s[..|s| - 8] == BitsOfBytes(a[..|a| - 1]) == BitsOfBytes(b[..|b| - 1]);
      assert s[|s| - 8..] == Low(x, 8) == Low(y, 8);
      PowByte();
      LowInjective(x, y, 8);
      BytesInjective(a[..|a| - 1], b[..|b| - 1]);
    }
  }

  lemma {:induction false} PlainIsUpper(text: string)
    requires Plain(text)
    ensures Upper(text) == text
  {
    if text != "" {
      var front := text[..|text| - 1];
      DigitsAtMost(front);
      PlainIsUpper(front);
      assert Upper(text) == Upper(front) + [UpperChar(text[|front|])];
    }
  }

  lemma {:induction false} DigitsAtMost(text: string)
    ensures |Digits(text)| <= |text|
  {
    if text != "" {
      DigitsAtMost(text[..|text| - 1]);
    }
  }

  /**
   * Decoding an encoded secret gives the bytes back, for every byte string, and just as well
   * after a user has changed its case or put in spaces, dashes, padding or other characters.
   */
  lemma RoundTrip(buf: seq<Byte>, text: string, typed: string, out: seq<Byte>)
    requires IsEncoding(buf, text)
    requires typed == text || Digits(Upper(typed)) == Digits(text)
    requires IsDecoding(typed, out)
    ensures out == buf
  {
    PlainIsUpper(text);
    SameBits(BitsOfDigits(Digits(text)), buf, out);
  }

  lemma SameBits(bits: seq<bool>, buf: seq<Byte>, out: seq<Byte>)
    requires BitsOfBytes(buf) <= bits && |bits| / 8 == |buf|
    requires |out| == |buf| && BitsOfBytes(out) == bits[..8 * |out|]
    ensures out == buf
  {
    BytesInjective(out, buf);
  }

  // ------------------------------------------------------------------ the alphabet, and what users type

  /** The alphabet of Table 3 of RFC 4648, in both directions. */
  lemma AlphabetIs(d: nat)
    requires d < 32
    ensures Symbol(d) == "ABCDEFGHIJKLMNOPQRSTUVWXYZ234567"[d]
    ensures IndexOf("ABCDEFGHIJKLMNOPQRSTUVWXYZ234567"[d]) == Some(d)
  {
  }

  lemma NoOtherSymbols(c: char)
    requires IndexOf(c).Some?
    ensures IndexOf(c).value < 32 && "ABCDEFGHIJKLMNOPQRSTUVWXYZ234567"[IndexOf(c).value] == c
  {
    AlphabetIs(IndexOf(c).value);
  }

  /** Letters may be typed in lower case. */
  lemma LowerCaseDecodes(buf: seq<Byte>, text: string, typed: string, out: seq<Byte>)
    requires IsEncoding(buf, text) && IsDecoding(typed, out) && |typed| == |text|
    requires forall i :: 0 <= i < |text| ==>
               typed[i] == text[i] || ('A' <= text[i] <= 'Z' && typed[i] as int == text[i] as int + 32)
    ensures out == buf
  {
    assert Upper(typed) == Upper(text);
    PlainIsUpper(text);
    RoundTrip(buf, text, typed, out);
  }

  lemma {:induction false} DigitsAppend(a: string, b: string)
    ensures Digits(a + b) == Digits(a) + Digits(b)
  {
    if b == "" {
      assert a + b == a;
    } else {
      assert (a + b)[..|a + b| - 1] == a + b[..|b| - 1];
      DigitsAppend(a, b[..|b| - 1]);
    }
  }

  /** A character that is neither a letter nor one of 2 to 7 may stand anywhere. */
  lemma OthersAreIgnored(a: string, c: char, b: string, out: seq<Byte>)
    requires !('a' <= c <= 'z' || 'A' <= c <= 'Z' || '2' <= c <= '7')
    ensures IsDecoding(a + [c] + b, out) <==> IsDecoding(a + b, out)
  {
    assert Upper(a + [c] + b) == Upper(a) + [c] + Upper(b) && Upper(a + b) == Upper(a) + Upper(b);
    DigitsAppend(Upper(a) + [c], Upper(b));
    DigitsAppend(Upper(a), Upper(b));
    DigitsSnoc(Upper(a), c);
    assert Digits(Upper(a) + [c]) == Digits(Upper(a));
    assert Digits(Upper(a + [c] + b)) == Digits(Upper(a + b));
  }
}
