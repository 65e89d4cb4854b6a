/**
 The hex codec of auxfunctions.c on byte buffers.  iptask.c decodes a string onto itself.
 */
module HexCodec {

  type byte = n: int | 0 <= n < 256

  // ---------------------------------------------------------------- decoding

  predicate IsHex(c: byte) {
    '0' as int <= c <= '9' as int || 'A' as int <= c <= 'F' as int || 'a' as int <= c <= 'f' as int
  }

  function DigitOf(c: byte): (d: int)
    requires IsHex(c)
    ensures 0 <= d < 16
  {
    if c <= '9' as int then c - '0' as int
    else if c <= 'F' as int then c - 'A' as int + 10
    else c - 'a' as int + 10
  }

  /** value = (value << 4) + digit in an unsigned char; any other character is passed over. */
  function Shift(value: byte, c: byte): byte {
    if IsHex(c) then (value * 16 + DigitOf(c)) % 256 else value
  }

  function Pair(a: byte, b: byte): byte {
    Shift(Shift(0, a), b)
  }

  /** The length is kept in an unsigned char. */
  function DecodedLength(n: nat): nat {
    n / 2 % 256
  }

  function Decode(s: seq<byte>): seq<byte> {
    seq(DecodedLength(|s|), j requires 0 <= j < DecodedLength(|s|) => Pair(s[2 * j], s[2 * j + 1]))
  }

  /** The byte that two characters stand for: hex digits count, any other character is passed over. */
  ghost predicate Means(a: byte, b: byte, value: byte) {
    && (IsHex(a) && IsHex(b) ==> value == 16 * DigitOf(a) + DigitOf(b))
    && (IsHex(a) && !IsHex(b) ==> value == DigitOf(a))
    && (!IsHex(a) && IsHex(b) ==> value == DigitOf(b))
    && (!IsHex(a) && !IsHex(b) ==> value == 0)
  }

  lemma DecodedMeans(s: seq<byte>, j: nat)
    requires j < |Decode(s)|
    ensures 2 * j + 1 < |s| && Means(s[2 * j], s[2 * j + 1], Decode(s)[j])
  {
    DecodeAt(s, j);
    hide Decode, Means, Pair;
    PairMeans(s[2 * j], s[2 * j + 1]);
  }

  lemma PairMeans(a: byte, b: byte)
    ensures Means(a, b, Pair(a, b))
  {
    hide IsHex, DigitOf;
  }

  function Strlen(s: seq<byte>): (n: nat)
    ensures n <= |s| && (n < |s| ==> s[n] == 0) && forall i | 0 <= i < n :: s[i] != 0
  {
    if s == [] || s[0] == 0 then 0 else 1 + Strlen(s[1..])
  }

  /**
   hexbinary_to_binary from input+i0 to output+o0.  The buffers may be the same one as long as the
   output does not run ahead of the input: what is decoded is the string that was there before.
   */
  method HexToBinary(input: array<byte>, i0: nat, output: array<byte>, o0: nat) returns (length: nat)
    requires i0 <= input.Length && i0 + Strlen(input[i0..]) < input.Length
    requires o0 + DecodedLength(Strlen(input[i0..])) < output.Length
    requires input == output ==> o0 <= i0 + 1
    modifies output
    ensures length == DecodedLength(old(Strlen(input[i0..])))
    ensures output[o0..o0 + length] == Decode(old(input[i0..i0 + Strlen(input[i0..])]))
    ensures forall j | 0 <= j < length :: Means(old(input[i0 + 2 * j]), old(input[i0 + 2 * j + 1]), output[o0 + j])
    ensures output[o0 + length] == 0
    ensures forall k | 0 <= k < output.Length && !(o0 <= k <= o0 + length) :: output[k] == old(output[k])
  {
    ghost var s := input[i0..i0 + Strlen(input[i0..])];
    length := DecodedLength(Strlen(input[i0..]));
    assert 2 * length <= |s| && |Decode(s)| == length;
    hide Strlen, Decode, DecodedLength, Means;
    DecodeLoop(input, i0, output, o0, length, s);
    forall j | 0 <= j < length
      ensures Means(old(input[i0 + 2 * j]), old(input[i0 + 2 * j + 1]), output[o0 + j])
    {
      DecodedMeans(s, j);
      assert output[o0..o0 + length][j] == output[o0 + j];
    }
  }

  /** j bytes are decoded, the rest of the input string is still there, and nothing else has changed since all. */
  ghost predicate Decoding(input: array<byte>, i0: nat, output: array<byte>, o0: nat, s: seq<byte>, d: seq<byte>,
                           all: seq<byte>, j: nat)
    reads input, output
  {
    && i0 + |s| <= input.Length && o0 + |d| < output.Length == |all| && j <= |d| && 2 * |d| <= |s|
    && (forall k | i0 + 2 * j <= k < i0 + |s| :: input[k] == s[k - i0])
    && (forall k | o0 <= k < o0 + j :: output[k] == d[k - o0])
    && forall k | 0 <= k < output.Length && !(o0 <= k < o0 + j) :: output[k] == all[k]
  }

  /** The loop of hexbinary_to_binary and its terminator. */
  method DecodeLoop(input: array<byte>, i0: nat, output: array<byte>, o0: nat, length: nat, ghost s: seq<byte>)
    requires i0 + |s| <= input.Length && s == input[i0..i0 + |s|] && length == DecodedLength(|s|)
    requires o0 + length < output.Length && (input == output ==> o0 <= i0 + 1)
    modifies output
    ensures output[o0..o0 + length] == Decode(s) && output[o0 + length] == 0
    ensures forall k | 0 <= k < output.Length && !(o0 <= k <= o0 + length) :: output[k] == old(output[k])
  {
    hide Pair, Shift;
    assert forall k | i0 <= k < i0 + |s| :: input[k] == s[k - i0];
    ghost var all, d := output[..], Decode(s);
    assert Decoding(input, i0, output, o0, s, d, all, 0);
    var j, p := 0, i0;
    while j < length
      invariant j <= length == |d| && p == i0 + 2 * j && Decoding(input, i0, output, o0, s, d, all, j)
    {
      hide Decode, DecodedLength;
      p := DecodeStep(input, i0, output, o0, s, all, j, p);
      j := j + 1;
    }
    hide Decode, DecodedLength;
    output[o0 + j] := 0;
    assert output[o0..o0 + length] == d;
  }

  method DecodeStep(input: array<byte>, i0: nat, output: array<byte>, o0: nat, ghost s: seq<byte>, ghost all: seq<byte>,
                    j: nat, p: nat)
    returns (p': nat)
    requires Decoding(input, i0, output, o0, s, Decode(s), all, j) && j < |Decode(s)| && p == i0 + 2 * j
    requires input == output ==> o0 <= i0 + 1
    modifies output
    ensures Decoding(input, i0, output, o0, s, Decode(s), all, j + 1) && p' == p + 2
  {
    DecodeAt(s, j);
    hide Pair, Shift, Decode, DecodedLength;
    p' := DecodeByte(input, p, output, o0 + j);
  }

  lemma DecodeAt(s: seq<byte>, j: nat)
    requires j < |Decode(s)|
    ensures 2 * j + 1 < |s| && Decode(s)[j] == Pair(s[2 * j], s[2 * j + 1])
  {
  }

  /** Two characters at p become the byte at q. */
  method DecodeByte(input: array<byte>, p: nat, output: array<byte>, q: nat) returns (p': nat)
    requires p + 1 < input.Length && q < output.Length
    modifies output
    ensures p' == p + 2 && output[q] == Pair(old(input[p]), old(input[p + 1]))
    ensures forall k | 0 <= k < output.Length && k != q :: output[k] == old(output[k])
  {
    var value: byte := 0;
    p' := p;
    value := Shift(value, input[p']);
    p' := p' + 1;
    value := Shift(value, input[p']);
    p' := p' + 1;
    output[q] := value;
  }

  // ---------------------------------------------------------------- encoding

  function HexChar(v: int): byte
    requires 0 <= v < 16
  {
    if v < 10 then v + '0' as int else v + 55
  }

  function Encode(b: seq<byte>): (s: seq<byte>)
    ensures |s| == 2 * |b|
  {
    seq(2 * |b|, k requires 0 <= k < 2 * |b| => HexChar(if k % 2 == 0 then b[k / 2] / 16 else b[k / 2] % 16))
  }

  /**
   binary_to_hexbinary.  The counter is an unsigned char, so more than 255 bytes would never end; the
   returned length is truncated to one; and the terminator lands n bytes beyond the digits, so that as a C
   string the buffer holds just the digits only when it already had a NUL behind them, or n is 0.
   */
  method BinaryToHex(input: array<byte>, i0: nat, output: array<byte>, o0: nat, n: nat) returns (length: nat)
    requires n <= 255 && i0 + n <= input.Length && o0 + 3 * n < output.Length && input != output
    modifies output
    ensures output[o0..o0 + 2 * n] == Encode(input[i0..i0 + n])
    ensures output[o0 + 3 * n] == 0
    ensures forall k | 0 <= k < output.Length && !(o0 <= k < o0 + 2 * n) && k != o0 + 3 * n ::
              output[k] == old(output[k])
    ensures length == 2 * n % 256
    ensures Strlen(output[o0..]) == 2 * n <==> n == 0 || old(output[o0 + 2 * n]) == 0
  {
    hide Encode, Strlen;
    EncodeLoop(input, i0, output, o0, n);
    length := 2 * n % 256;
    EncodedStringIff(input[i0..i0 + n], output[o0 + 2 * n..]);
    assert output[o0..] == output[o0..o0 + 2 * n] + output[o0 + 2 * n..];
  }

  /** The loop of binary_to_hexbinary and its terminator. */
  method EncodeLoop(input: array<byte>, i0: nat, output: array<byte>, o0: nat, n: nat)
    requires n <= 255 && i0 + n <= input.Length && o0 + 3 * n < output.Length && input != output
    modifies output
    ensures output[o0..o0 + 2 * n] == Encode(input[i0..i0 + n])
    ensures output[o0 + 3 * n] == 0
    ensures forall k | 0 <= k < output.Length && !(o0 <= k < o0 + 2 * n) && k != o0 + 3 * n ::
              output[k] == old(output[k])
  {
    ghost var b, all := input[i0..i0 + n], output[..];
    var j, p := 0, o0;
    while j < n
      invariant j <= n && p == o0 + 2 * j
      invariant forall k | o0 <= k < p :: output[k] == Encode(b)[k - o0]
      invariant forall k | 0 <= k < output.Length && !(o0 <= k < p) :: output[k] == all[k]
    {
      var value := input[i0 + j];
      EncodeAt(b, j);
      output[p] := HexChar(value / 16);
      p := p + 1;
      output[p] := HexChar(value % 16);
      p := p + 1;
      j := j + 1;
    }
    output[p + j] := 0;
  }

  lemma EncodeAt(b: seq<byte>, j: nat)
    requires j < |b|
    ensures Encode(b)[2 * j] == HexChar(b[j] / 16) && Encode(b)[2 * j + 1] == HexChar(b[j] % 16)
  {
    assert (2 * j) / 2 == j && (2 * j + 1) / 2 == j;
  }

  // ---------------------------------------------------------------- the two directions

  lemma PairOfDigits(a: byte, b: byte)
    requires IsHex(a) && IsHex(b)
    ensures Pair(a, b) == DigitOf(a) * 16 + DigitOf(b)
    ensures Pair(a, b) / 16 == DigitOf(a) && Pair(a, b) % 16 == DigitOf(b)
  {
    hide IsHex, DigitOf;
    assert Shift(0, a) == DigitOf(a);
  }

  lemma DigitOfChar(v: int)
    requires 0 <= v < 16
    ensures IsHex(HexChar(v)) && DigitOf(HexChar(v)) == v
  {
  }

  lemma PairOfChars(v: byte)
    ensures Pair(HexChar(v / 16), HexChar(v % 16)) == v
  {
    DigitOfChar(v / 16);
    DigitOfChar(v % 16);
    PairOfDigits(HexChar(v / 16), HexChar(v % 16));
  }

  /** Decoding an encoding gives back the bytes exactly when there are at most 255 of them. */
  lemma DecodeEncode(b: seq<byte>)
    ensures Decode(Encode(b)) == b <==> |b| < 256
  {
    if |b| < 256 {
      assert |Decode(Encode(b))| == |b|;
      hide Decode, Encode;
      forall j | 0 <= j < |b| ensures Decode(Encode(b))[j] == b[j] {
        DecodedByte(b, j);
      }
    } else {
      assert |Decode(Encode(b))| < 256;
    }
  }

  lemma DecodedByte(b: seq<byte>, j: nat)
    requires j < |b| < 256
    ensures j < |Decode(Encode(b))| && Decode(Encode(b))[j] == b[j]
  {
    EncodeAt(b, j);
    DecodeAt(Encode(b), j);
    PairOfChars(b[j]);
  }

  /**
   As a C string the buffer holds the digits exactly when a NUL stands right behind them, which is not
   where binary_to_hexbinary writes it.
   */
  lemma {:induction false} EncodedStringIff(b: seq<byte>, rest: seq<byte>)
    requires rest != []
    ensures Strlen(Encode(b) + rest) == 2 * |b| <==> rest[0] == 0
    ensures rest[0] == 0 ==> (Encode(b) + rest)[..Strlen(Encode(b) + rest)] == Encode(b)
  {
    StringGoesOn(b, rest);
  }

  /** The text the encoder's caller gets by the length it returns. */
  function ByLength(text: seq<byte>): seq<byte> {
    text[..|text| % 256]
  }

  /** The text a buffer holds as a C string. */
  function AsString(buffer: seq<byte>): seq<byte> {
    buffer[..Strlen(buffer)]
  }

  /** Decoding what the returned length delimits gives back the bytes exactly when there are at most 127. */
  lemma DecodeByLengthIff(b: seq<byte>)
    ensures Decode(ByLength(Encode(b))) == b <==> |b| <= 127
  {
    ShortText(ByLength(Encode(b)));
    hide Encode, Decode;
    if |b| <= 127 {
      assert ByLength(Encode(b)) == Encode(b);
      DecodeEncode(b);
    }
  }

  lemma ShortText(text: seq<byte>)
    requires |text| < 256
    ensures |Decode(text)| == |text| / 2
  {
  }

  /** A string without NULs goes on up to the first NUL behind it. */
  lemma {:induction false} StrlenGoesOn(a: seq<byte>, rest: seq<byte>)
    requires forall k | 0 <= k < |a| :: a[k] != 0
    ensures Strlen(a + rest) == |a| + Strlen(rest)
  {
    if a == [] {
      assert a + rest == rest;
    } else {
      assert (a + rest)[0] == a[0] && (a + rest)[1..] == a[1..] + rest;
      StrlenGoesOn(a[1..], rest);
    }
  }

  lemma {:induction false} StringGoesOn(b: seq<byte>, rest: seq<byte>)
    ensures Strlen(Encode(b) + rest) == 2 * |b| + Strlen(rest)
    ensures AsString(Encode(b) + rest) == Encode(b) + AsString(rest)
  {
    StrlenGoesOn(Encode(b), rest);
  }

  /** A digit more than an encoding is passed over. */
  lemma OddDigit(b: seq<byte>, more: seq<byte>)
    requires |b| < 256 && |more| <= 1
    ensures Decode(Encode(b) + more) == b
  {
    var t := Encode(b) + more;
    assert |Decode(t)| == |b|;
    hide Encode;
    forall j | 0 <= j < |b| ensures Decode(t)[j] == b[j] {
      assert t[2 * j] == Encode(b)[2 * j] && t[2 * j + 1] == Encode(b)[2 * j + 1];
      EncodeAt(b, j);
      PairOfChars(b[j]);
    }
  }

  /**
   The encoder leaves its digits, then what was in the buffer, and a NUL n bytes on.  Decoding that as a C
   string gives back the bytes exactly when there is at most one, or one of the two bytes behind the digits
   was a NUL before.
   */
  lemma DecodeByStringIff(b: seq<byte>, rest: seq<byte>)
    requires |b| <= 255 && |b| < |rest| && rest[|b|] == 0
    ensures Decode(AsString(Encode(b) + rest)) == b <==> |b| <= 1 || rest[0] == 0 || rest[1] == 0
  {
    FirstNul(rest, |b|);
    StringGoesOn(b, rest);
    var z, text := Strlen(rest), Encode(b) + AsString(rest);
    assert |text| == 2 * |b| + z;
    if z <= 1 {
      OddDigit(b, AsString(rest));
    } else {
      DecodedSize(text, |b|, z);
    }
    hide Encode, Decode, Strlen, AsString;
  }

  /** The first NUL comes no later than any NUL, and is among the first two characters exactly when one of them is. */
  lemma {:induction false} FirstNul(rest: seq<byte>, n: nat)
    requires n < |rest| && rest[n] == 0
    ensures Strlen(rest) <= n && (Strlen(rest) <= 1 <==> n <= 1 || rest[0] == 0 || rest[1] == 0)
  {
    var z := Strlen(rest);
    assert z <= n;
  }

  /** More than one character too many is a byte too many, even modulo 256. */
  lemma DecodedSize(text: seq<byte>, n: nat, z: nat)
    requires |text| == 2 * n + z && 1 < z <= n <= 255
    ensures |Decode(text)| != n
  {
    assert (2 * n + z) / 2 == n + z / 2;
  }

  /** Two bytes come back as three, and 128 as none. */
  lemma RoundTripsFail(a: byte, b: byte, many: seq<byte>)
    requires |many| == 128
    ensures |Decode(AsString(Encode([a, b]) + ['0' as int, '0' as int, 0]))| == 3
    ensures Decode(ByLength(Encode(many))) == []
  {
    var rest: seq<byte> := ['0' as int, '0' as int, 0];
    StringGoesOn([a, b], rest);
    assert Strlen(rest[2..]) == 0 && Strlen(rest[1..]) == 1 && Strlen(rest) == 2;
  }

  function UpperChar(c: byte): byte {
    if 'a' as int <= c <= 'z' as int then c - 32 else c
  }

  function Upper(s: seq<byte>): seq<byte> {
    seq(|s|, i requires 0 <= i < |s| => UpperChar(s[i]))
  }

  predicate AllHex(s: seq<byte>) {
    forall i | 0 <= i < |s| :: IsHex(s[i])
  }

  lemma CharsOfPair(a: byte, b: byte)
    requires IsHex(a) && IsHex(b)
    ensures HexChar(Pair(a, b) / 16) == UpperChar(a) && HexChar(Pair(a, b) % 16) == UpperChar(b)
  {
    PairOfDigits(a, b);
    CharOfDigit(a);
    CharOfDigit(b);
  }

  lemma CharOfDigit(c: byte)
    requires IsHex(c)
    ensures HexChar(DigitOf(c)) == UpperChar(c)
  {
  }

  lemma UpperIsHex(v: int, c: byte)
    requires 0 <= v < 16 && HexChar(v) == UpperChar(c)
    ensures IsHex(c)
  {
  }

  /** Encoding what was decoded gives the string in upper case exactly for an even number of hex digits below 512. */
  lemma EncodeDecode(s: seq<byte>)
    ensures Encode(Decode(s)) == Upper(s) <==> |s| < 512 && |s| % 2 == 0 && AllHex(s)
  {
    var d := Decode(s);
    var e := Encode(d);
    if |s| >= 512 {
      assert |e| < 512;
    } else if |s| % 2 == 0 && AllHex(s) {
      forall k | 0 <= k < |s| ensures e[k] == Upper(s)[k] {
        CharsOfPair(s[2 * (k / 2)], s[2 * (k / 2) + 1]);
      }
    } else if |s| % 2 == 0 && e == Upper(s) {
      forall k | 0 <= k < |s| ensures IsHex(s[k]) {
        assert e[k] == UpperChar(s[k]);
        UpperIsHex(if k % 2 == 0 then d[k / 2] / 16 else d[k / 2] % 16, s[k]);
      }
    }
  }

  /** With the length the encoder returns, that holds exactly below 256 digits. */
  lemma EncodeByLengthIff(s: seq<byte>)
    ensures ByLength(Encode(Decode(s))) == Upper(s) <==> |s| < 256 && |s| % 2 == 0 && AllHex(s)
  {
    if |s| < 256 {
      assert |Encode(Decode(s))| < 256 && ByLength(Encode(Decode(s))) == Encode(Decode(s));
      EncodeDecode(s);
    } else {
      assert |ByLength(Encode(Decode(s)))| < 256;
    }
  }

  // ---------------------------------------------------------------- the two functions in a row

  /** What the encoder has made of a buffer with its digits from t0 on. */
  ghost predicate Encoded(text: seq<byte>, before: seq<byte>, t0: nat, b: seq<byte>) {
    && |text| == |before| && t0 + 3 * |b| < |text|
    && text[t0..t0 + 2 * |b|] == Encode(b) && text[t0 + 3 * |b|] == 0
    && forall k | 0 <= k < |text| && !(t0 <= k < t0 + 2 * |b|) && k != t0 + 3 * |b| :: text[k] == before[k]
  }

  /** What the decoder makes of it. */
  lemma EncodedDecodes(text: seq<byte>, before: seq<byte>, t0: nat, b: seq<byte>)
    requires Encoded(text, before, t0, b) && |b| <= 255
    ensures t0 + Strlen(text[t0..]) < |text| && DecodedLength(Strlen(text[t0..])) <= 255
    ensures Decode(AsString(text[t0..])) == b
            <==> |b| <= 1 || before[t0 + 2 * |b|] == 0 || before[t0 + 2 * |b| + 1] == 0
  {
    hide Encode, Decode, Strlen;
    var rest := text[t0 + 2 * |b|..];
    assert text[t0..] == Encode(b) + rest && rest[|b|] == 0;
    DecodeByStringIff(b, rest);
    StringGoesOn(b, rest);
  }

  /** A text without NULs is what a NUL behind it leaves of it. */
  lemma {:induction false} StringOf(s: seq<byte>)
    requires forall k | 0 <= k < |s| :: s[k] != 0
    ensures Strlen(s + [0]) == |s|
  {
    assert (s + [0])[|s|] == 0;
  }

  method EncodeInto(bytes: array<byte>, i0: nat, n: nat, text: array<byte>, t0: nat)
    requires n <= 255 && i0 + n <= bytes.Length && t0 + 3 * n < text.Length && bytes != text
    modifies text
    ensures Encoded(text[..], old(text[..]), t0, old(bytes[i0..i0 + n]))
  {
    hide Encode, Strlen;
    var returned := BinaryToHex(bytes, i0, text, t0, n);
    assert text[..][t0..t0 + 2 * n] == text[t0..t0 + 2 * n];
  }

  /** Encoding into a buffer and decoding that buffer, as a C string. */
  method EncodeThenDecode(bytes: array<byte>, i0: nat, n: nat, text: array<byte>, t0: nat, back: array<byte>, r0: nat)
    returns (length: nat)
    requires n <= 255 && i0 + n <= bytes.Length && t0 + 3 * n < text.Length && r0 + 255 < back.Length
    requires bytes != text && text != back
    modifies text, back
    ensures r0 + length <= back.Length
    ensures back[r0..r0 + length] == old(bytes[i0..i0 + n])
            <==> n <= 1 || old(text[t0 + 2 * n]) == 0 || old(text[t0 + 2 * n + 1]) == 0
  {
    ghost var b, before := bytes[i0..i0 + n], text[..];
    hide Encode, Decode, Strlen, Encoded, AsString, DecodedLength;
    EncodeInto(bytes, i0, n, text, t0);
    EncodedDecodes(text[..], before, t0, b);
    length := DecodeString(text, t0, back, r0);
  }

  /** hexbinary_to_binary into another buffer. */
  method DecodeString(text: array<byte>, t0: nat, back: array<byte>, r0: nat) returns (length: nat)
    requires t0 <= text.Length && t0 + Strlen(text[..][t0..]) < text.Length && text != back
    requires r0 + DecodedLength(Strlen(text[..][t0..])) < back.Length
    modifies back
    ensures length == DecodedLength(Strlen(old(text[..])[t0..]))
    ensures back[r0..r0 + length] == Decode(AsString(old(text[..])[t0..]))
  {
    assert text[t0..] == text[..][t0..];
    hide Strlen, Decode;
    ghost var n := Strlen(text[t0..]);
    assert text[t0..t0 + n] == text[t0..][..n];
    length := HexToBinary(text, t0, back, r0);
  }

  /** The receiver of length bytes keeps them as a string and decodes it. */
  method DecodeReceived(text: array<byte>, t0: nat, length: nat, back: array<byte>, r0: nat) returns (n: nat)
    requires t0 + length <= text.Length && r0 + 255 < back.Length
    requires forall k | t0 <= k < t0 + length :: text[k] != 0
    modifies back
    ensures n <= 255 && back[r0..r0 + n] == Decode(old(text[t0..t0 + length]))
  {
    ghost var s := text[t0..t0 + length];
    var received := new byte[length + 1];
    var k := 0;
    while k < length
      invariant k <= length && received[..k] == s[..k] && text[t0..t0 + length] == s
      modifies received
    {
      received[k] := text[t0 + k];
      k := k + 1;
    }
    received[length] := 0;
    assert received[..][0..] == received[..] == s + [0];
    StringOf(s);
    assert AsString(received[..]) == s;
    hide Strlen, AsString, Decode;
    n := DecodeString(received, 0, back, r0);
  }

  /** Encoding, sending as many characters as the encoder returned, and decoding them there. */
  method EncodeSendDecode(bytes: array<byte>, i0: nat, n: nat, text: array<byte>, t0: nat, back: array<byte>, r0: nat)
    returns (length: nat)
    requires n <= 255 && i0 + n <= bytes.Length && t0 + 3 * n < text.Length && r0 + 255 < back.Length
    requires bytes != text
    modifies text, back
    ensures r0 + length <= back.Length
    ensures back[r0..r0 + length] == old(bytes[i0..i0 + n]) <==> n <= 127
  {
    ghost var b := bytes[i0..i0 + n];
    var returned := BinaryToHex(bytes, i0, text, t0, n);
    ReturnedText(text[..], t0, b, returned);
    DecodeByLengthIff(b);
    assert text[..][t0..t0 + returned] == text[t0..t0 + returned];
    hide Encode, Decode, Strlen, ByLength;
    length := DecodeReceived(text, t0, returned, back, r0);
  }

  /** The first returned characters of the digits, none of them a NUL. */
  lemma ReturnedText(text: seq<byte>, t0: nat, b: seq<byte>, returned: nat)
    requires t0 + 2 * |b| <= |text| && text[t0..t0 + 2 * |b|] == Encode(b) && returned == 2 * |b| % 256
    ensures text[t0..t0 + returned] == ByLength(Encode(b))
    ensures forall k | t0 <= k < t0 + returned :: text[k] != 0
  {
    var e := text[t0..t0 + 2 * |b|];
    forall k | t0 <= k < t0 + returned ensures text[k] != 0 {
      assert text[k] == e[k - t0] == Encode(b)[k - t0];
    }
  }

  /** Decoding a string, encoding the bytes, and taking as many characters as the encoder returned. */
  method DecodeThenEncode(input: array<byte>, i0: nat, bytes: array<byte>, b0: nat, text: array<byte>, t0: nat)
    returns (length: nat)
    requires i0 <= input.Length && i0 + Strlen(input[..][i0..]) < input.Length && input != bytes && bytes != text
    requires b0 + DecodedLength(Strlen(input[..][i0..])) < bytes.Length
    requires t0 + 3 * DecodedLength(Strlen(input[..][i0..])) < text.Length
    modifies bytes, text
    ensures t0 + length <= text.Length
    ensures var s := AsString(old(input[..])[i0..]);
            text[t0..t0 + length] == Upper(s) <==> |s| < 256 && |s| % 2 == 0 && AllHex(s)
  {
    ghost var s := AsString(input[..][i0..]);
    hide Encode, Decode, Strlen, AsString, Upper, AllHex, ByLength;
    var n := DecodeString(input, i0, bytes, b0);
    length := BinaryToHex(bytes, b0, text, t0, n);
    ReturnedText(text[..], t0, Decode(s), length);
    EncodeByLengthIff(s);
    assert text[..][t0..t0 + length] == text[t0..t0 + length];
  }
}
