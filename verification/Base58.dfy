/** Base58 with the Bitcoin alphabet (draft-msporny-base58, sections 2 to 4), which the `bs58` crate implements. */
module Base58 {
  import opened Wrappers

  type Byte = b: int | 0 <= b < 256

  // ----- Positional notation, most significant digit first -----

  function Digits(v: nat, base: nat): (ds: seq<nat>)
    requires base >= 2
    ensures ds != [] ==> ds[0] != 0
    ensures forall i :: 0 <= i < |ds| ==> ds[i] < base
    decreases v
  {
    if v == 0 then []
    else
      QuotientShrinks(v, base);
      Digits(v / base, base) + [v % base]
  }

  function Value(ds: seq<nat>, base: nat): nat {
    if ds == [] then 0 else Value(ds[..|ds| - 1], base) * base + ds[|ds| - 1]
  }

  lemma AtLeast(k: int, base: int)
    requires base >= 0
    ensures k >= 1 ==> k * base >= base
    ensures k <= -1 ==> k * base <= -base
  {
    assert k * base == base + (k - 1) * base;
    assert k * base == -base + (k + 1) * base;
  }

  lemma {:induction false} AtLeastTwice(q: nat, base: nat)
    requires base >= 2
    ensures q * base >= q + q
  {
    if q > 0 {
      AtLeastTwice(q - 1, base);
      assert q * base == (q - 1) * base + base;
    }
  }

  lemma Shrinks(v: int, q: int, r: int, base: nat)
    requires v > 0 && base >= 2 && v == q * base + r && 0 <= r < base
    ensures 0 <= q < v
  {
    if q < 0 {
      AtLeast(q, base);
    } else {
      AtLeastTwice(q, base);
    }
  }

  lemma QuotientShrinks(v: int, base: int)
    requires v > 0 && base >= 2
    ensures 0 <= v / base < v && v / base * base + v % base == v
  {
    Shrinks(v, v / base, v % base, base);
  }

  lemma Distribute(q: int, p: int, base: int)
    ensures (q - p) * base == q * base - p * base
  {
  }

  lemma Quotient(q: nat, r: nat, base: nat)
    requires r < base
    ensures (q * base + r) / base == q && (q * base + r) % base == r
  {
    var n := q * base + r;
    Divided(n, base, n / base, n % base, q, r);
  }

  lemma Divided(n: int, base: nat, q: int, r: int, p: int, s: int)
    requires n == q * base + r && n == p * base + s && 0 <= r < base && 0 <= s < base
    ensures q == p && r == s
  {
    Distribute(q, p, base);
    AtLeast(q - p, base);
  }

  lemma ValueOfAppend(ds: seq<nat>, d: nat, base: nat)
    ensures Value(ds + [d], base) == Value(ds, base) * base + d
  {
    assert (ds + [d])[..|ds|] == ds;
  }

  lemma {:induction false} ValueOfDigits(v: nat, base: nat)
    requires base >= 2
    ensures Value(Digits(v, base), base) == v
    decreases v
  {
    if v != 0 {
      QuotientShrinks(v, base);
      ValueOfDigits(v / base, base);
      ValueOfAppend(Digits(v / base, base), v % base, base);
    }
  }

  predicate AreDigits(ds: seq<nat>, base: nat) {
    forall i :: 0 <= i < |ds| ==> ds[i] < base
  }

  lemma {:induction false} ValueIsPositive(ds: seq<nat>, base: nat)
    requires ds != [] && ds[0] != 0 && base >= 2
    ensures Value(ds, base) > 0
  {
    if |ds| > 1 {
      ValueIsPositive(ds[..|ds| - 1], base);
      assert Value(ds[..|ds| - 1], base) * base > 0;
    }
  }

  lemma {:induction false} DigitsOfValue(ds: seq<nat>, base: nat)
    requires base >= 2 && AreDigits(ds, base) && (ds != [] ==> ds[0] != 0)
    ensures Digits(Value(ds, base), base) == ds
  {
    if ds != [] {
      var head, last := ds[..|ds| - 1], ds[|ds| - 1];
      DigitsOfValue(head, base);
      ValueIsPositive(ds, base);
      Quotient(Value(head, base), last, base);
      assert ds == head + [last];
    }
  }

  // ----- Leading zeros: each leading zero byte is a leading '1' -----

  function LeadingZeros(ds: seq<nat>): (n: nat)
    ensures n <= |ds| && forall i :: 0 <= i < n ==> ds[i] == 0
    ensures n < |ds| ==> ds[n] != 0
  {
    if ds != [] && ds[0] == 0 then 1 + LeadingZeros(ds[1..]) else 0
  }

  function Zeros(n: nat): (ds: seq<nat>)
    ensures |ds| == n && forall i :: 0 <= i < n ==> ds[i] == 0
  {
    seq(n, _ => 0)
  }

  /** Another radix for the number, the same number of leading zeros. */
  function Rebased(ds: seq<nat>, from: nat, to: nat): seq<nat>
    requires to >= 2
  {
    var n := LeadingZeros(ds);
    Zeros(n) + Digits(Value(ds[n..], from), to)
  }

  lemma {:induction false} LeadingZerosIs(ds: seq<nat>, n: nat)
    requires n <= |ds| && (forall i :: 0 <= i < n ==> ds[i] == 0) && (n < |ds| ==> ds[n] != 0)
    ensures LeadingZeros(ds) == n
  {
    if n > 0 {
      LeadingZerosIs(ds[1..], n - 1);
    }
  }

  lemma StripZeros(n: nat, ds: seq<nat>)
    requires ds != [] ==> ds[0] != 0
    ensures LeadingZeros(Zeros(n) + ds) == n && (Zeros(n) + ds)[n..] == ds
  {
    LeadingZerosIs(Zeros(n) + ds, n);
  }

  /** Changing the radix and back loses nothing, leading zeros included. */
  lemma RebaseRoundTrip(ds: seq<nat>, from: nat, to: nat)
    requires from >= 2 && to >= 2 && AreDigits(ds, from)
    ensures AreDigits(Rebased(ds, from, to), to)
    ensures Rebased(Rebased(ds, from, to), to, from) == ds
  {
    hide Digits, Value, LeadingZeros;
    var n := LeadingZeros(ds);
    var tail := ds[n..];
    var out := Digits(Value(tail, from), to);
    ValueOfDigits(Value(tail, from), to);
    DigitsOfValue(tail, from);
    StripZeros(n, out);
    assert Zeros(n) == ds[..n];
    assert ds[..n] + tail == ds;
  }

  // ----- The alphabet: 1-9, A-Z without I and O, a-z without l -----

  function CharOf(d: nat): char
    requires d < 58
  {
    if d < 9 then ('1' as int + d) as char
    else if d < 17 then ('A' as int + (d - 9)) as char
    else if d < 22 then ('J' as int + (d - 17)) as char
    else if d < 33 then ('P' as int + (d - 22)) as char
    else if d < 44 then ('a' as int + (d - 33)) as char
    else ('m' as int + (d - 44)) as char
  }

  predicate InAlphabet(c: char) {
    '1' <= c <= '9' || ('A' <= c <= 'Z' && c != 'I' && c != 'O') || ('a' <= c <= 'z' && c != 'l')
  }

  function DigitOf(c: char): (d: nat)
    requires InAlphabet(c)
    ensures d < 58 && CharOf(d) == c
  {
    if c <= '9' then c as int - '1' as int
    else if c <= 'H' then c as int - 'A' as int + 9
    else if c <= 'N' then c as int - 'J' as int + 17
    else if c <= 'Z' then c as int - 'P' as int + 22
    else if c <= 'k' then c as int - 'a' as int + 33
    else c as int - 'm' as int + 44
  }

  lemma DigitOfChar(d: nat)
    requires d < 58
    ensures InAlphabet(CharOf(d)) && DigitOf(CharOf(d)) == d
  {
  }

  /** The alphabet, written out. */
  const ALPHABET := "123456789" + "ABCDEFGH" + "JKLMN" + "PQRSTUVWXYZ" + "abcdefghijk" + "mnopqrstuvwxyz"

  lemma AlphabetIs(d: nat)
    requires d < 58
    ensures ALPHABET == "123456789" + "ABCDEFGH" + "JKLMN" + "PQRSTUVWXYZ" + "abcdefghijk" + "mnopqrstuvwxyz"
    ensures |ALPHABET| == 58 && CharOf(d) == ALPHABET[d]
  {
  }

  lemma InAlphabetIff(c: char)
    ensures InAlphabet(c) <==> c in ALPHABET
  {
    if InAlphabet(c) {
      var d := DigitOf(c);
      AlphabetIs(d);
      assert ALPHABET[d] == c;
    }
    if c in ALPHABET {
      AlphabetIs(0);
      var d :| 0 <= d < |ALPHABET| && ALPHABET[d] == c;
      AlphabetIs(d);
      DigitOfChar(d);
      assert CharOf(d) == c;
    }
  }

  function Encode(bytes: seq<Byte>): string {
    RebasedBytes(bytes);
    var digits := Rebased(bytes, 256, 58);
    seq(|digits|, i requires 0 <= i < |digits| => CharOf(digits[i]))
  }

  lemma RebasedBytes(bytes: seq<Byte>)
    ensures AreDigits(Rebased(bytes, 256, 58), 58)
  {
    RebaseRoundTrip(bytes, 256, 58);
  }

  predicate IsBase58(s: string) {
    forall i :: 0 <= i < |s| ==> InAlphabet(s[i])
  }

  function DigitsOf(s: string): (ds: seq<nat>)
    requires IsBase58(s)
    ensures |ds| == |s| && AreDigits(ds, 58)
  {
    seq(|s|, i requires 0 <= i < |s| => DigitOf(s[i]))
  }

  function AsBytes(ds: seq<nat>): seq<Byte>
    requires AreDigits(ds, 256)
  {
    seq(|ds|, i requires 0 <= i < |ds| => ds[i])
  }

  datatype DecodeError = InvalidCharacter

  function Decode(s: string): Result<seq<Byte>, DecodeError> {
    if IsBase58(s) then
      RebaseRoundTrip(DigitsOf(s), 58, 256);
      Ok(AsBytes(Rebased(DigitsOf(s), 58, 256)))
    else Err(InvalidCharacter)
  }

  /** Decoding undoes encoding, for every byte string. */
  lemma DecodeOfEncode(bytes: seq<Byte>)
    ensures Decode(Encode(bytes)) == Ok(bytes)
  {
    var digits := Rebased(bytes, 256, 58);
    RebaseRoundTrip(bytes, 256, 58);
    forall i | 0 <= i < |digits|
      ensures InAlphabet(Encode(bytes)[i]) && DigitOf(Encode(bytes)[i]) == digits[i]
    {
      DigitOfChar(digits[i]);
    }
    assert DigitsOf(Encode(bytes)) == digits;
    assert AsBytes(bytes) == bytes;
  }

  /** What the letters stand for. */
  ghost predicate Spells(s: string, digits: seq<nat>) {
    |s| == |digits| && forall i :: 0 <= i < |s| ==> digits[i] < 58 && s[i] == ALPHABET[digits[i]]
  }

  /** The encoding is the one of the alphabet: as many leading ones as there are leading zero bytes, and then the number
      that the bytes are, both with the most significant digit first. */
  lemma EncodeIs(bytes: seq<Byte>)
    ensures var n := LeadingZeros(bytes);
      exists digits ::
        && Spells(Encode(bytes), digits) && n <= |digits|
        && (forall i :: 0 <= i < n ==> digits[i] == 0) && (n < |digits| ==> digits[n] != 0)
        && Value(digits[n..], 58) == Value(bytes[n..], 256)
  {
    hide Digits, Value;
    var n, digits := LeadingZeros(bytes), Rebased(bytes, 256, 58);
    RebasedBytes(bytes);
    forall i | 0 <= i < |digits| ensures CharOf(digits[i]) == ALPHABET[digits[i]] {
      AlphabetIs(digits[i]);
    }
    var tail := Digits(Value(bytes[n..], 256), 58);
    ValueOfDigits(Value(bytes[n..], 256), 58);
    assert digits == Zeros(n) + tail && digits[n..] == tail;
    assert Spells(Encode(bytes), digits);
  }

  /** ... and encoding undoes decoding, for every string over the alphabet. */
  lemma EncodeOfDecode(s: string)
    requires Decode(s).Ok?
    ensures Encode(Decode(s).value) == s
  {
    RebaseRoundTrip(DigitsOf(s), 58, 256);
    var bytes := Decode(s).value;
    assert bytes == Rebased(DigitsOf(s), 58, 256);
    assert Rebased(bytes, 256, 58) == DigitsOf(s);
    assert Encode(bytes) == s;
  }
}
