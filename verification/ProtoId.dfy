/** `marshaling::id_marshaling`: database ids as base58 strings of 4 or 8 little-endian bytes. */
module ProtoId {
  import opened Base58
  import opened Wrappers

  const OFFSET := 7
  const TWO32 := 0x1_0000_0000
  const TWO64 := 0x1_0000_0000_0000_0000
  const I32_MIN := -0x8000_0000
  const I32_MAX := 0x7FFF_FFFF
  const I64_MIN := -0x8000_0000_0000_0000
  const I64_MAX := 0x7FFF_FFFF_FFFF_FFFF

  /** Arithmetic that overflows panics in a debug build and wraps around in a release build. */
  datatype Build = Debug | Release

  predicate IsI32(x: int) { I32_MIN <= x <= I32_MAX }

  predicate IsI64(x: int) { I64_MIN <= x <= I64_MAX }

  function WrapI32(x: int): (y: int)
    ensures IsI32(y) && (IsI32(x) ==> y == x)
  {
    (x - I32_MIN) % TWO32 + I32_MIN
  }

  function WrapI64(x: int): (y: int)
    ensures IsI64(y) && (IsI64(x) ==> y == x)
  {
    (x - I64_MIN) % TWO64 + I64_MIN
  }

  datatype Checked<T> = Panic | Returns(value: T)

  function AddI32(x: int, y: int, build: Build): Checked<int> {
    if IsI32(x + y) || build.Release? then Returns(WrapI32(x + y)) else Panic
  }

  function AddI64(x: int, y: int, build: Build): Checked<int> {
    if IsI64(x + y) || build.Release? then Returns(WrapI64(x + y)) else Panic
  }

  // ----- Little-endian bytes -----

  function LeBytes(v: nat, n: nat): (bytes: seq<Byte>)
    ensures |bytes| == n
  {
    if n == 0 then [] else [v % 256] + LeBytes(v / 256, n - 1)
  }

  function FromLe(bytes: seq<Byte>): nat {
    if bytes == [] then 0 else bytes[0] + 256 * FromLe(bytes[1..])
  }

  function Pow256(n: nat): nat {
    if n == 0 then 1 else 256 * Pow256(n - 1)
  }

  lemma {:induction false} FromLeOfLeBytes(v: nat, n: nat)
    requires v < Pow256(n)
    ensures FromLe(LeBytes(v, n)) == v
  {
    if n > 0 {
      FromLeOfLeBytes(v / 256, n - 1);
    }
  }

  lemma {:induction false} LeBytesOfFromLe(bytes: seq<Byte>)
    ensures FromLe(bytes) < Pow256(|bytes|)
    ensures LeBytes(FromLe(bytes), |bytes|) == bytes
  {
    if bytes != [] {
      LeBytesOfFromLe(bytes[1..]);
      assert FromLe(bytes) / 256 == FromLe(bytes[1..]) && FromLe(bytes) % 256 == bytes[0];
    }
  }

  lemma WordSizes()
    ensures Pow256(4) == TWO32 && Pow256(8) == TWO64
  {
    assert Pow256(1) == 256 && Pow256(2) == 65536 && Pow256(3) == 0x100_0000 && Pow256(4) == TWO32;
    assert Pow256(5) == 256 * TWO32 && Pow256(6) == 65536 * TWO32 && Pow256(7) == 0x100_0000 * TWO32;
  }

  /** `to_le_bytes` and `from_le_bytes` of a two's complement word of `n` bytes. */
  function ToLeBytes(x: int, n: nat, modulus: nat): (bytes: seq<Byte>)
    requires modulus > 0
    ensures |bytes| == n
  {
    LeBytes(x % modulus, n)
  }

  function FromLeBytes(bytes: seq<Byte>, modulus: nat): int {
    var v := FromLe(bytes);
    if v < modulus / 2 then v else v - modulus
  }

  lemma Residue(x: int, modulus: int)
    requires modulus > 0 && -modulus <= x < modulus
    ensures x % modulus == if x < 0 then x + modulus else x
  {
    Divided(x, modulus, x / modulus, x % modulus, if x < 0 then -1 else 0, if x < 0 then x + modulus else x);
  }

  lemma WordRoundTrip(x: int, n: nat, modulus: nat)
    requires modulus == Pow256(n) && modulus % 2 == 0 && modulus > 0
    requires -(modulus / 2) <= x < modulus / 2
    ensures FromLeBytes(ToLeBytes(x, n, modulus), modulus) == x
  {
    hide LeBytes, FromLe, Pow256;
    Residue(x, modulus);
    FromLeOfLeBytes(x % modulus, n);
  }

  lemma BytesRoundTrip(bytes: seq<Byte>, modulus: nat)
    requires modulus == Pow256(|bytes|) && modulus % 2 == 0 && modulus > 0
    ensures -(modulus / 2) <= FromLeBytes(bytes, modulus) < modulus / 2
    ensures ToLeBytes(FromLeBytes(bytes, modulus), |bytes|, modulus) == bytes
  {
    hide LeBytes, FromLe, Pow256;
    LeBytesOfFromLe(bytes);
    Residue(FromLeBytes(bytes, modulus), modulus);
  }

  // ----- The conversions -----

  function I32ToProtoId(x: int, build: Build): Checked<string> {
    match AddI32(x, OFFSET, build)
    case Panic => Panic
    case Returns(offsetValue) => Returns(Encode(ToLeBytes(offsetValue, 4, TWO32)))
  }

  function I64ToProtoId(x: int, build: Build): Checked<string> {
    match AddI64(x, OFFSET, build)
    case Panic => Panic
    case Returns(offsetValue) =>
      if offsetValue <= I32_MAX then I32ToProtoId(WrapI32(x), build)
      else Returns(Encode(ToLeBytes(offsetValue, 8, TWO64)))
  }

  datatype IdDecodingError = NotBase58 | InvalidLength(length: nat) | Id0

  /** The stored number behind a string, before the offset is taken off. */
  function StoredId(s: string): Result<int, IdDecodingError> {
    match Decode(s)
    case Err(_) => Err(NotBase58)
    case Ok(bytes) =>
      if |bytes| == 4 then Ok(FromLeBytes(bytes, TWO32))
      else if |bytes| == 8 then Ok(FromLeBytes(bytes, TWO64))
      else Err(InvalidLength(|bytes|))
  }

  function ToDbId(s: string, build: Build): Checked<Result<int, IdDecodingError>> {
    match StoredId(s)
    case Err(e) => Returns(Err(e))
    case Ok(id) =>
      if id == 0 then Returns(Err(Id0))
      else
        match AddI64(id, -OFFSET, build)
        case Panic => Panic
        case Returns(x) => Returns(Ok(x))
  }

  // ----- What the strings are -----

  /** The number in four bytes from the i-th on, least significant first. */
  function FourBytes(b: seq<int>, i: nat): int
    requires i + 4 <= |b|
  {
    b[i] + 0x100 * b[i + 1] + 0x1_0000 * b[i + 2] + 0x100_0000 * b[i + 3]
  }

  lemma LeSum(b: seq<Byte>)
    ensures |b| == 4 ==> FromLe(b) == FourBytes(b, 0)
    ensures |b| == 8 ==> FromLe(b) == FourBytes(b, 0) + 0x1_0000_0000 * FourBytes(b, 4)
  {
    if |b| == 4 {
      FromLeOfFour(b);
    }
    if |b| == 8 {
      FromLeOfFour(b[4..]);
      assert b[1..][1..] == b[2..] && FromLe(b[1..]) == b[1] as int + 256 * FromLe(b[2..]);
      assert b[2..][1..] == b[3..] && FromLe(b[2..]) == b[2] as int + 256 * FromLe(b[3..]);
      assert b[3..][1..] == b[4..] && FromLe(b[3..]) == b[3] as int + 256 * FromLe(b[4..]);
    }
  }

  lemma FromLeOfFour(b: seq<Byte>)
    requires |b| == 4
    ensures FromLe(b) == FourBytes(b, 0)
  {
    assert b[1..][1..] == b[2..] && b[2..][1..] == b[3..] && b[3..][1..] == [];
    assert FromLe(b[3..]) == b[3];
    assert FromLe(b[2..]) == b[2] as int + 256 * FromLe(b[3..]);
    assert FromLe(b[1..]) == b[1] as int + 256 * FromLe(b[2..]);
  }

  /** `b` is the number `v` in its four or eight bytes, little-endian. */
  predicate HasBytes(b: seq<Byte>, v: int) {
    if |b| == 4 then
      FourBytes(b, 0) == v % 0x1_0000_0000
    else
      |b| == 8 && FourBytes(b, 0) + 0x1_0000_0000 * FourBytes(b, 4) == v % 0x1_0000_0000_0000_0000
  }

  lemma BytesOf(y: int, n: nat, modulus: nat)
    requires (n == 4 && modulus == TWO32) || (n == 8 && modulus == TWO64)
    ensures HasBytes(ToLeBytes(y, n, modulus), y)
  {
    hide LeBytes, FromLe, Pow256, FourBytes;
    WordSizes();
    FromLeOfLeBytes(y % modulus, n);
    LeSum(ToLeBytes(y, n, modulus));
  }

  /** The string of an id is base58 for the id plus seven: in eight bytes if that is beyond an i32 and fits into an i64,
      and in four otherwise, where wrapping around may lose the rest of it. */
  lemma ProtoIdBytes(x: int, build: Build)
    requires IsI64(x) && I64ToProtoId(x, build).Returns?
    ensures Decode(I64ToProtoId(x, build).value).Ok?
    ensures var b := Decode(I64ToProtoId(x, build).value).value;
      && HasBytes(b, x + 7)
      && |b| == if 0x7FFF_FFFF < x + 7 <= 0x7FFF_FFFF_FFFF_FFFF then 8 else 4
  {
    hide Decode, Encode, ToLeBytes, HasBytes, FourBytes, I64ToProtoId, WrapI32, WrapI64;
    var w := WrapI32(WrapI32(x) + 7);
    ShownAs(x, build);
    if 0x7FFF_FFFF < x + 7 <= 0x7FFF_FFFF_FFFF_FFFF {
      BytesOf(x + 7, 8, TWO64);
      DecodeOfEncode(ToLeBytes(x + 7, 8, TWO64));
    } else {
      BytesOf(w, 4, TWO32);
      DecodeOfEncode(ToLeBytes(w, 4, TWO32));
      WrapsLow(x);
      SameBytes(ToLeBytes(w, 4, TWO32), w, x + 7);
    }
  }

  lemma ShownAs(x: int, build: Build)
    requires IsI64(x) && I64ToProtoId(x, build).Returns?
    ensures I64ToProtoId(x, build).value
         == if 0x7FFF_FFFF < x + 7 <= 0x7FFF_FFFF_FFFF_FFFF then Encode(ToLeBytes(x + 7, 8, TWO64))
            else Encode(ToLeBytes(WrapI32(WrapI32(x) + 7), 4, TWO32))
  {
    hide Encode, ToLeBytes, WrapI32, WrapI64;
    WrapsOver(x + 7);
  }

  lemma WrapsLow(x: int)
    ensures WrapI32(WrapI32(x) + 7) % 0x1_0000_0000 == (x + 7) % 0x1_0000_0000
  {
    hide WrapI32;
    WrapsModulo(x);
    SevenMore(WrapI32(x), x);
    WrapsModulo(WrapI32(x) + 7);
  }

  lemma WrapsModulo(x: int)
    ensures WrapI32(x) % 0x1_0000_0000 == x % 0x1_0000_0000
  {
  }

  lemma RemainderIs(n: int, q: int, r: int)
    requires n == 0x1_0000_0000 * q + r && 0 <= r < 0x1_0000_0000
    ensures n % 0x1_0000_0000 == r
  {
    hide *;
  }

  lemma SevenMore(x: int, y: int)
    requires x % 0x1_0000_0000 == y % 0x1_0000_0000
    ensures (x + 7) % 0x1_0000_0000 == (y + 7) % 0x1_0000_0000
  {
    hide *;
    var p, q, r := x / 0x1_0000_0000, y / 0x1_0000_0000, x % 0x1_0000_0000;
    if r + 7 < 0x1_0000_0000 {
      RemainderIs(x + 7, p, r + 7);
      RemainderIs(y + 7, q, r + 7);
    } else {
      RemainderIs(x + 7, p + 1, r + 7 - 0x1_0000_0000);
      RemainderIs(y + 7, q + 1, r + 7 - 0x1_0000_0000);
    }
  }

  lemma WrapsOver(y: int)
    requires IsI64(y - 7)
    ensures WrapI64(y) > I32_MAX <==> 0x7FFF_FFFF < y <= 0x7FFF_FFFF_FFFF_FFFF
    ensures WrapI64(y) > I32_MAX ==> WrapI64(y) == y
  {
  }

  lemma SameBytes(b: seq<Byte>, v: int, w: int)
    requires |b| == 4 && HasBytes(b, v) && v % 0x1_0000_0000 == w % 0x1_0000_0000
    ensures HasBytes(b, w)
  {
  }

  /** A debug build panics where the id plus seven does not fit, or its low 32 bits are so near the end of an i32. */
  lemma ShowingPanicsIff(x: int, build: Build)
    requires IsI64(x)
    ensures I64ToProtoId(x, build).Panic? <==>
      build.Debug?
      && (x + 7 > 0x7FFF_FFFF_FFFF_FFFF
          || (x + 7 <= 0x7FFF_FFFF && 0x7FFF_FFF9 <= x % 0x1_0000_0000 <= 0x7FFF_FFFF))
  {
    hide Encode, ToLeBytes;
  }

  /** Which strings are refused, and why. */
  lemma RefusedIff(s: string, build: Build)
    ensures ToDbId(s, build) == Returns(Err(NotBase58)) <==> exists c :: c in s && c !in ALPHABET
    ensures forall n :: ToDbId(s, build) == Returns(Err(InvalidLength(n))) <==>
      Decode(s).Ok? && |Decode(s).value| == n && n != 4 && n != 8
    ensures ToDbId(s, build) == Returns(Err(Id0)) <==>
      Decode(s).Ok? && (|Decode(s).value| == 4 || |Decode(s).value| == 8) && forall b <- Decode(s).value :: b == 0
  {
    forall c ensures InAlphabet(c) <==> c in ALPHABET {
      InAlphabetIff(c);
    }
    assert Decode(s).Ok? <==> IsBase58(s);
    hide Decode, FromLeBytes, InAlphabet;
    if Decode(s).Ok? && (|Decode(s).value| == 4 || |Decode(s).value| == 8) {
      ZeroIff(Decode(s).value);
    }
  }

  lemma ZeroIff(b: seq<Byte>)
    requires |b| == 4 || |b| == 8
    ensures FromLeBytes(b, if |b| == 4 then TWO32 else TWO64) == 0 <==> forall x <- b :: x == 0
  {
    hide FromLe, Pow256, FourBytes;
    LeSum(b);
    WordSizes();
    LeBytesOfFromLe(b);
    FourZeros(b, 0);
    if |b| == 8 {
      FourZeros(b, 4);
    }
    if forall i :: 0 <= i < |b| ==> b[i] == 0 {
    } else {
      var i :| 0 <= i < |b| && b[i] != 0;
      assert b[i] in b;
    }
  }

  lemma FourZeros(b: seq<Byte>, i: nat)
    requires i + 4 <= |b|
    ensures FourBytes(b, i) >= 0
    ensures FourBytes(b, i) == 0 <==> b[i] == 0 && b[i + 1] == 0 && b[i + 2] == 0 && b[i + 3] == 0
  {
  }

  /** The first id. */
  lemma FirstId(build: Build)
    ensures I64ToProtoId(1, build) == Returns("CruFm")
  {
    hide Encode, LeBytes;
    FirstBytes();
    FirstDigits();
  }

  lemma FirstBytes()
    ensures ToLeBytes(8, 4, TWO32) == [8, 0, 0, 0]
  {
    assert LeBytes(0, 1) == [0] + LeBytes(0, 0);
    assert LeBytes(0, 2) == [0] + LeBytes(0, 1);
    assert LeBytes(0, 3) == [0] + LeBytes(0, 2);
  }

  lemma FirstDigits()
    ensures Encode([8, 0, 0, 0]) == "CruFm"
  {
    hide Digits, Value;
    var digits := [11, 49, 52, 14, 44];
    ValueOfFirst();
    DigitsOfValue(digits, 58);
    var bytes: seq<Byte> := [8, 0, 0, 0];
    assert LeadingZeros(bytes) == 0 && bytes[0..] == bytes;
    assert Rebased(bytes, 256, 58) == digits;
  }

  lemma ValueOfFirst()
    ensures Value([8, 0, 0, 0], 256) == 134217728 == Value([11, 49, 52, 14, 44], 58)
  {
    hide Value;
    EmptyValue(256);
    EmptyValue(58);
    ValueOfAppend([], 8, 256);
    ValueOfAppend([8], 0, 256);
    ValueOfAppend([8, 0], 0, 256);
    ValueOfAppend([8, 0, 0], 0, 256);
    assert [] + [8] == [8] && [8] + [0] == [8, 0] && [8, 0] + [0] == [8, 0, 0] && [8, 0, 0] + [0] == [8, 0, 0, 0];
    ValueOfAppend([], 11, 58);
    ValueOfAppend([11], 49, 58);
    ValueOfAppend([11, 49], 52, 58);
    ValueOfAppend([11, 49, 52], 14, 58);
    ValueOfAppend([11, 49, 52, 14], 44, 58);
    assert [] + [11] == [11] && [11] + [49] == [11, 49] && [11, 49] + [52] == [11, 49, 52];
    assert [11, 49, 52] + [14] == [11, 49, 52, 14] && [11, 49, 52, 14] + [44] == [11, 49, 52, 14, 44];
  }

  lemma EmptyValue(base: nat)
    ensures Value([], base) == 0
  {
  }

  // ----- Round trips -----

  lemma StoredI32(y: int)
    requires IsI32(y)
    ensures StoredId(Encode(ToLeBytes(y, 4, TWO32))) == Ok(y)
  {
    WordSizes();
    DecodeOfEncode(ToLeBytes(y, 4, TWO32));
    WordRoundTrip(y, 4, TWO32);
  }

  lemma StoredI64(y: int)
    requires IsI64(y)
    ensures StoredId(Encode(ToLeBytes(y, 8, TWO64))) == Ok(y)
  {
    WordSizes();
    DecodeOfEncode(ToLeBytes(y, 8, TWO64));
    WordRoundTrip(y, 8, TWO64);
  }

  ghost predicate RoundTrips(x: int, build: Build) {
    I64ToProtoId(x, build).Returns?
    && ToDbId(I64ToProtoId(x, build).value, build) == Returns(Ok(x))
  }

  /** The smallest id that survives: wrapping around twice lets a release build keep seven more. */
  function Lowest(build: Build): int {
    match build
    case Debug => I32_MIN
    case Release => I32_MIN - OFFSET
  }

  /** Which ids survive being shown to a client, for every i64. */
  lemma RoundTripsIff(x: int, build: Build)
    requires IsI64(x)
    ensures RoundTrips(x, build) <==> Lowest(build) <= x <= I64_MAX - OFFSET && x != -OFFSET
  {
    hide Encode, StoredId, ToLeBytes;
    match AddI64(x, OFFSET, build)
    case Panic =>
    case Returns(v) =>
      if v <= I32_MAX {
        match AddI32(WrapI32(x), OFFSET, build)
        case Panic =>
        case Returns(w) => StoredI32(w);
      } else {
        StoredI64(v);
      }
  }

  /** Inside that range, different ids have different strings, across the 4- and the 8-byte form. */
  lemma ProtoIdsAreDistinct(x: int, y: int, build: Build)
    requires IsI64(x) && IsI64(y) && RoundTrips(x, build) && RoundTrips(y, build)
    ensures I64ToProtoId(x, build) == I64ToProtoId(y, build) ==> x == y
  {
    assert I64ToProtoId(x, build) == I64ToProtoId(y, build)
           ==> ToDbId(I64ToProtoId(x, build).value, build) == ToDbId(I64ToProtoId(y, build).value, build);
  }

  /** The string is the one that the id it decodes to is shown as. */
  ghost predicate IsCanonical(s: string, build: Build) {
    && ToDbId(s, build).Returns? && ToDbId(s, build).value.Ok?
    && I64ToProtoId(ToDbId(s, build).value.value, build) == Returns(s)
  }

  /** The least stored number that a four-byte string may have: a checked build panics on showing smaller ones. */
  function LowestStored(build: Build): int {
    match build
    case Debug => I32_MIN + OFFSET
    case Release => I32_MIN
  }

  /** The other way round: a decodable string is the one its id is shown as, unless it spells out in eight
      bytes a number that fits into four, or showing that id panics. */
  lemma CanonicalIff(s: string, build: Build)
    requires StoredId(s).Ok? && StoredId(s).value != 0
    ensures IsCanonical(s, build) <==>
      if |Decode(s).value| == 4 then StoredId(s).value >= LowestStored(build) else StoredId(s).value > I32_MAX
  {
    hide IsCanonical;
    if |Decode(s).value| == 4 {
      FourBytesCanonicalIff(s, build);
    } else {
      EightBytesCanonicalIff(s, build);
    }
  }

  lemma FourBytesCanonicalIff(s: string, build: Build)
    requires StoredId(s).Ok? && StoredId(s).value != 0 && |Decode(s).value| == 4
    ensures ToDbId(s, build) == Returns(Ok(StoredId(s).value - OFFSET))
    ensures IsCanonical(s, build) <==> StoredId(s).value >= LowestStored(build)
  {
    hide Decode, Encode, ToLeBytes, FromLeBytes, Pow256;
    WordSizes();
    EncodeOfDecode(s);
    BytesRoundTrip(Decode(s).value, TWO32);
    WrapTwice(StoredId(s).value);
  }

  lemma EightBytesCanonicalIff(s: string, build: Build)
    requires StoredId(s).Ok? && StoredId(s).value != 0 && |Decode(s).value| == 8
    ensures ToDbId(s, build).Panic? <==> build.Debug? && StoredId(s).value < I64_MIN + OFFSET
    ensures ToDbId(s, build).Returns? ==> ToDbId(s, build).value == Ok(WrapI64(StoredId(s).value - OFFSET))
    ensures IsCanonical(s, build) <==> StoredId(s).value > I32_MAX
  {
    hide Decode, Encode, ToLeBytes, FromLeBytes, Pow256;
    WordSizes();
    EncodeOfDecode(s);
    var id := StoredId(s).value;
    BytesRoundTrip(Decode(s).value, TWO64);
    WrapI64Back(id);
    if id <= I32_MAX {
      var w := WrapI32(WrapI32(WrapI64(id - OFFSET)) + OFFSET);
      DecodeOfEncode(ToLeBytes(w, 4, TWO32));
    }
  }

  lemma WrapTwice(id: int)
    requires IsI32(id)
    ensures WrapI32(WrapI32(id - OFFSET) + OFFSET) == id
  {
  }

  lemma WrapI64Back(id: int)
    requires IsI64(id)
    ensures WrapI64(WrapI64(id - OFFSET) + OFFSET) == id
  {
  }
}
