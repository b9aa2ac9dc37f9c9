/**
 * The price-oracle client: hand-written Solidity ABI calldata for
 * `precios(string)` and the hand-written decoder of the oracle's static
 * ten-word answer (eight amounts with two implied decimals, an address,
 * a bool). Hex text throughout, as on the JSON-RPC wire.
 */
module PriceClient {
  import opened Types
  import opened Hex
  import opened JsString

  type Byte = b: int | 0 <= b < 256

  /** Function selector of the oracle call. */
  const PreciosSelector: string := "0x1002aa9d"
  /** `10n ** DECIMALS` with two decimals. */
  const Divisor: nat := 100
  /** One 32-byte ABI word in hex characters. */
  const WordSize: nat := 64
  /** An address is 20 bytes. */
  const AddressLength: nat := 40
  /** Characters before the data section: selector, offset word, length word. */
  const HeadLength: nat := 138

  // ---------------------------------------------------------------------
  // Calldata encoding

  /** `value.padStart(size, '0')` */
  function PadHex(value: string, size: nat): (r: string)
    ensures |r| == if |value| < size then size else |value|
    ensures r[|r| - |value|..] == value
    ensures AllZeroDigits(r[..|r| - |value|])
  {
    if |value| < size then Zeros(size - |value|) + value else value
  }

  /** Padding on the left keeps the digits' value. */
  lemma PadHexValue(s: string, size: nat)
    requires IsHex(s)
    ensures IsHex(PadHex(s, size)) && HexValue(PadHex(s, size)) == HexValue(s)
    ensures IsLowerHex(s) ==> IsLowerHex(PadHex(s, size))
  {
    if |s| < size {
      HexValueLeadingZeros(size - |s|, s);
    }
  }

  /** `value.padEnd(size, '0')` */
  function PadEnd(value: string, size: nat): (r: string)
    ensures |r| == if |value| < size then size else |value|
    ensures r[..|value|] == value
    ensures AllZeroDigits(r[|value|..])
  {
    if |value| < size then value + Zeros(size - |value|) else value
  }

  /** A number that fits in `size` digits is written with exactly `size`. */
  lemma PaddedWord(n: nat, size: nat)
    requires |ToHex(n)| <= size
    ensures |PadHex(ToHex(n), size)| == size
    ensures IsLowerHex(PadHex(ToHex(n), size)) && IsHex(PadHex(ToHex(n), size))
    ensures HexValue(PadHex(ToHex(n), size)) == n
  {
    PadHexValue(ToHex(n), size);
  }

  /** Every count a JavaScript array can hold (below 2^32) fits in eight
      digits, a fortiori in one word. */
  lemma ArrayLengthFitsWord(n: nat)
    requires n < 0x1_0000_0000
    ensures |ToHex(n)| <= 8 < WordSize
  {
    assert Pow16(8) == 0x1_0000_0000;
    ToHexLength(n, 8);
  }

  /** `byte.toString(16).padStart(2, '0')`: two lower-case digits worth the
      byte (see `ByteHexIsPadded`). */
  function ByteHex(b: Byte): (r: string)
    ensures |r| == 2 && IsLowerHex(r) && IsHex(r)
    ensures DigitValue(r[0]) * 16 + DigitValue(r[1]) == b
  {
    [DigitChar(b / 16), DigitChar(b % 16)]
  }

  /** The two digits are the byte's `toString(16)` padded to two, and read
      as a hex number they are worth the byte. */
  lemma ByteHexIsPadded(b: Byte)
    ensures ByteHex(b) == PadHex(ToHex(b), 2)
    ensures HexValue(ByteHex(b)) == b
  {
    HexValueTwoDigits(ByteHex(b));
    if b < 16 {
      assert ToHex(b) == [DigitChar(b)];
      assert DigitChar(0) == '0';
      assert Zeros(1) == ['0'];
    } else {
      assert ToHex(b / 16) == [DigitChar(b / 16)];
    }
  }

  /** `bytes.map(ByteHex).join('')` */
  function BytesHex(bytes: seq<Byte>): (r: string)
    ensures |r| == 2 * |bytes| && IsLowerHex(r) && IsHex(r)
  {
    if bytes == [] then [] else ByteHex(bytes[0]) + BytesHex(bytes[1..])
  }

  /** Byte `i` is written by characters 2i and 2i+1 of the hex text. */
  lemma {:induction false} BytesHexAt(bytes: seq<Byte>, i: nat)
    requires i < |bytes|
    ensures BytesHex(bytes)[2 * i] == ByteHex(bytes[i])[0]
    ensures BytesHex(bytes)[2 * i + 1] == ByteHex(bytes[i])[1]
  {
    var h := ByteHex(bytes[0]);
    var t := BytesHex(bytes[1..]);
    assert BytesHex(bytes) == h + t;
    if i > 0 {
      BytesHexAt(bytes[1..], i - 1);
      assert bytes[1..][i - 1] == bytes[i];
    }
  }

  /** `Math.ceil(n / 32) * 32`: the byte count rounded up to whole words. */
  function PaddedLength(n: nat): (p: nat)
    ensures n <= p < n + 32 && p % 32 == 0
  {
    (n + 31) / 32 * 32
  }

  /** Calldata for `precios(value)`, where `bytes` is the UTF-8 encoding of
      `value`: the selector, a head word holding the offset 32, a word holding
      the byte count, the bytes as hex right-padded with '0' to whole words. */
  function EncodeStringArgument(bytes: seq<Byte>): (r: string)
    ensures |r| >= 10 && r[..10] == PreciosSelector
  {
    var lengthHex := PadHex(ToHex(|bytes|), WordSize);
    var dataHex := PadEnd(BytesHex(bytes), PaddedLength(|bytes|) * 2);
    var offsetHex := PadHex(ToHex(32), WordSize);
    var r := PreciosSelector + offsetHex + lengthHex + dataHex;
    assert |PreciosSelector| == 10;
    assert r[..10] == PreciosSelector;
    r
  }

  /** Cutting the four parts of the calldata back out of their concatenation. */
  lemma CallParts(a: string, b: string, c: string, d: string)
    requires |a| == 10 && |b| == WordSize && |c| == WordSize
    ensures (a + b + c + d)[..10] == a
    ensures (a + b + c + d)[10..74] == b && (a + b + c + d)[74..HeadLength] == c
    ensures (a + b + c + d)[HeadLength..] == d && (a + b + c + d)[10..] == b + c + d
  {
    assert a + b + c + d == a + (b + c + d);
  }

  lemma IsLowerHexConcat(a: string, b: string)
    requires IsLowerHex(a) && IsLowerHex(b)
    ensures IsLowerHex(a + b)
  {
  }

  lemma PadEndZeros(v: string, size: nat)
    requires |v| <= size
    ensures PadEnd(v, size) == v + Zeros(size - |v|)
  {
    if |v| == size {
      assert v + Zeros(0) == v;
    }
  }

  /** The data section: the bytes' digits, then '0' up to whole words. */
  lemma DataSection(bytes: seq<Byte>)
    ensures PadEnd(BytesHex(bytes), PaddedLength(|bytes|) * 2)
      == BytesHex(bytes) + Zeros(2 * (PaddedLength(|bytes|) - |bytes|))
  {
    var p := PaddedLength(|bytes|);
    PadEndZeros(BytesHex(bytes), p * 2);
    assert p * 2 - 2 * |bytes| == 2 * (p - |bytes|);
  }

  /** The layout of the calldata, for a byte count whose hex form fits in one
      word (see `ArrayLengthFitsWord`): selector, offset word worth 32, length
      word worth n, then the n bytes' digits followed by '0' up to whole words. */
  lemma EncodeLayout(bytes: seq<Byte>)
    requires |ToHex(|bytes|)| <= WordSize
    ensures var r, n := EncodeStringArgument(bytes), |bytes|;
      && |r| == HeadLength + 2 * PaddedLength(n)
      && r[..10] == PreciosSelector
      && IsLowerHex(r[10..]) && IsHex(r[10..])
      && HexValue(r[10..74]) == 32
      && HexValue(r[74..HeadLength]) == n
      && r[HeadLength..] == BytesHex(bytes) + Zeros(2 * (PaddedLength(n) - n))
  {
    var n := |bytes|;
    var lengthHex := PadHex(ToHex(n), WordSize);
    var dataHex := PadEnd(BytesHex(bytes), PaddedLength(n) * 2);
    var offsetHex := PadHex(ToHex(32), WordSize);
    var r := EncodeStringArgument(bytes);
    assert r == PreciosSelector + offsetHex + lengthHex + dataHex;
    PaddedWord(32, WordSize);
    PaddedWord(n, WordSize);
    DataSection(bytes);
    CallParts(PreciosSelector, offsetHex, lengthHex, dataHex);
    IsLowerHexConcat(offsetHex, lengthHex);
    IsLowerHexConcat(offsetHex + lengthHex, dataHex);
  }

  /** The byte written by digits 2i and 2i+1. */
  function ByteAt(data: string, i: nat): Byte
    requires 2 * i + 1 < |data| && IsHexDigit(data[2 * i]) && IsHexDigit(data[2 * i + 1])
  {
    DigitValue(data[2 * i]) * 16 + DigitValue(data[2 * i + 1])
  }

  /** Reads `n` bytes, two hex digits each. */
  function ReadBytes(data: string, n: nat): (r: seq<Byte>)
    requires IsHex(data) && |data| >= 2 * n
    ensures |r| == n
  {
    if n == 0 then [] else ReadBytes(data, n - 1) + [ByteAt(data, n - 1)]
  }

  lemma {:induction false} ReadBytesAt(data: string, n: nat, i: nat)
    requires IsHex(data) && |data| >= 2 * n && i < n
    ensures ReadBytes(data, n)[i] == ByteAt(data, i)
  {
    if i < n - 1 {
      ReadBytesAt(data, n - 1, i);
    }
  }

  lemma ReadBytesHex(bytes: seq<Byte>, pad: string)
    requires IsHex(pad)
    ensures IsHex(BytesHex(bytes) + pad)
    ensures ReadBytes(BytesHex(bytes) + pad, |bytes|) == bytes
  {
    var s := BytesHex(bytes) + pad;
    IsHexConcat(BytesHex(bytes), pad);
    var r := ReadBytes(s, |bytes|);
    forall i | 0 <= i < |bytes| ensures r[i] == bytes[i] {
      ReadBytesAt(s, |bytes|, i);
      BytesHexAt(bytes, i);
      assert s[2 * i] == BytesHex(bytes)[2 * i];
      assert s[2 * i + 1] == BytesHex(bytes)[2 * i + 1];
    }
  }

  /** How the receiving contract reads the calldata back: the selector, an
      offset word equal to 32, a length word n, then exactly the padded data
      section whose first 2n digits are the bytes and whose rest is '0'. */
  function DecodeStringArgument(call: string): (r: Option<seq<Byte>>)
    ensures r.Some? ==> |call| >= HeadLength && call[..10] == PreciosSelector
  {
    if |call| < HeadLength || call[..10] != PreciosSelector || !IsHex(call[10..]) then None
    else
      assert call[10..][64..128] == call[74..HeadLength];
      if HexValue(call[10..74]) != 32 then None
      else
        var n := HexValue(call[74..HeadLength]);
        var data := call[HeadLength..];
        assert data == call[10..][128..];
        if |data| != 2 * PaddedLength(n) || !AllZeroDigits(data[2 * n..]) then None
        else Some(ReadBytes(data, n))
  }

  /** Round trip: the calldata carries exactly the argument's bytes. */
  lemma EncodeDecodeStringArgument(bytes: seq<Byte>)
    requires |ToHex(|bytes|)| <= WordSize
    ensures DecodeStringArgument(EncodeStringArgument(bytes)) == Some(bytes)
  {
    var n := |bytes|;
    var r := EncodeStringArgument(bytes);
    EncodeLayout(bytes);
    var pad := Zeros(2 * (PaddedLength(n) - n));
    var data := r[HeadLength..];
    assert data == r[10..][128..];
    assert data[2 * n..] == pad;
    ReadBytesHex(bytes, pad);
  }

  // ---------------------------------------------------------------------
  // UTF-8 (what `TextEncoder.encode` produces for a string of code points)

  function Utf8Char(c: char): (r: seq<Byte>)
    ensures 1 <= |r| <= 4
    ensures (c as int < 0x80) <==> |r| == 1
  {
    var n := c as int;
    if n < 0x80 then [n]
    else if n < 0x800 then [0xC0 + n / 0x40, 0x80 + n % 0x40]
    else if n < 0x1_0000 then [0xE0 + n / 0x1000, 0x80 + n / 0x40 % 0x40, 0x80 + n % 0x40]
    else [0xF0 + n / 0x4_0000, 0x80 + n / 0x1000 % 0x40, 0x80 + n / 0x40 % 0x40, 0x80 + n % 0x40]
  }

  function Utf8Encode(s: string): (r: seq<Byte>)
    ensures |s| <= |r| <= 4 * |s|
  {
    if s == [] then [] else Utf8Char(s[0]) + Utf8Encode(s[1..])
  }

  // ---------------------------------------------------------------------
  // Decoding the answer

  /** Whole and hundredths of a fixed-point amount. */
  datatype Amount = Amount(whole: nat, fraction: nat)

  /** `value / divisor` and `value % divisor` of a non-negative value. */
  function FormatWithDecimals(value: nat): (a: Amount)
    ensures a.whole * Divisor + a.fraction == value
    ensures 0 <= a.fraction < Divisor
  {
    Amount(value / Divisor, value % Divisor)
  }

  /** The exact number the pair denotes (the floating-point conversion of the
      source is not modelled). */
  function AmountNumber(a: Amount): (n: real)
    ensures a.whole as real <= n
    ensures a.fraction < Divisor ==> n < (a.whole + 1) as real
  {
    a.whole as real + a.fraction as real / Divisor as real
  }

  lemma AmountNumberExact(value: nat)
    ensures AmountNumber(FormatWithDecimals(value)) == value as real / 100.0
  {
    var a := FormatWithDecimals(value);
    assert value as real == (a.whole * 100) as real + a.fraction as real;
  }

  /** `hexToBigInt`: 0 for the empty string, otherwise `BigInt('0x' + hex)`,
      which throws (None) unless every character is a hex digit. */
  function HexToBigInt(hex: string): (r: Option<nat>)
    ensures hex == [] ==> r == Some(0)
    ensures hex != [] ==> (r.Some? <==> IsHex(hex))
    ensures r.Some? ==> IsHex(hex) && r.value == HexValue(hex) && r.value < Pow16(|hex|)
  {
    if hex == [] then Some(0)
    else if IsHex(hex) then
      HexValueBound(hex);
      Some(HexValue(hex))
    else None
  }

  /** What the decoder gives back: `null`, a thrown error (a word that
      `BigInt` rejects), or a price record. */
  datatype Decoded = NoPrice | Throws | Price(price: TokenPrice)

  /** The answer without an optional `0x` prefix. */
  function Body(hex: string): (b: string)
    ensures |b| <= |hex|
    ensures |hex| >= 2 && hex[..2] == "0x" ==> hex == "0x" + b
    ensures !(|hex| >= 2 && hex[..2] == "0x") ==> b == hex
  {
    if |hex| >= 2 && hex[..2] == "0x" then hex[2..] else hex
  }

  function Word(body: string, i: nat): (w: string)
    requires |body| >= WordSize * (i + 1)
    ensures |w| == WordSize
    ensures forall j :: 0 <= j < WordSize ==> w[j] == body[WordSize * i + j]
  {
    body[WordSize * i..WordSize * i + WordSize]
  }

  /** The words that go through `BigInt`: the eight amounts and the status. */
  predicate WordsAreHex(body: string): (ok: bool)
    requires |body| >= WordSize * 10
    ensures ok <==> (forall i :: 0 <= i < 8 ==> HexToBigInt(Word(body, i)).Some?)
                    && HexToBigInt(Word(body, 9)).Some?
  {
    (forall i :: 0 <= i < 8 ==> IsHex(Word(body, i))) && IsHex(Word(body, 9))
  }

  /** `walletChunk.slice(-ADDRESS_LENGTH)` */
  function SliceLast(s: string, k: nat): (r: string)
    ensures |r| == if |s| < k then |s| else k
    ensures r == s[|s| - |r|..]
  {
    if |s| <= k then s else s[|s| - k..]
  }

  /** A count of hundredths as a number. */
  function Hundredths(v: nat): (r: Num)
    ensures r.Finite? && r.value * 100.0 == v as real
  {
    Finite(v as real / 100.0)
  }

  /** An amount word read as hundredths. */
  function DecodeAmount(word: string): (r: Num)
    requires IsHex(word)
    ensures r == Hundredths(HexValue(word))
  {
    var value := HexToBigInt(word);
    assert value == Some(HexValue(word)) by { if word == [] { assert HexValue(word) == 0; } }
    AmountNumberExact(value.value);
    Finite(AmountNumber(FormatWithDecimals(value.value)))
  }

  /** The wallet: the last 40 digits of word 8, zero-padded on the left, behind
      `0x`, lower-cased. */
  function DecodeWallet(word: string): (r: string)
    requires |word| == WordSize
    ensures |r| == 42 && r[..2] == "0x" && r[2..] == ToLower(word[24..])
    ensures NoUpperAscii(r)
  {
    var walletHex := PadHex(SliceLast(word, AddressLength), AddressLength);
    assert walletHex == word[24..];
    var r := ToLower("0x" + walletHex);
    ToLowerHasNoUpper("0x" + walletHex);
    assert r[2..] == ToLower(walletHex);
    r
  }

  /** The status: `BigInt('0x' + word) !== 0n`, i.e. some digit is not '0'. */
  function DecodeStatus(word: string): (r: bool)
    requires IsHex(word)
    ensures r <==> !AllZeroDigits(word)
  {
    HexValueZeroIff(word);
    assert word == [] ==> AllZeroDigits(word);
    HexToBigInt(word).value != 0
  }

  /** `decodePriceResult` */
  function DecodePriceResult(hex: string): (r: Decoded)
    ensures r.NoPrice? <==> |Body(hex)| < WordSize * 10
    ensures r.Throws? <==> |Body(hex)| >= WordSize * 10 && !WordsAreHex(Body(hex))
  {
    if hex == [] || hex == "0x" then NoPrice
    else
      var clean := Body(hex);
      if |clean| < WordSize * 10 then NoPrice
      else if !WordsAreHex(clean) then Throws
      else
        Price(TokenPrice(
          cop := DecodeAmount(Word(clean, 0)),
          usd := DecodeAmount(Word(clean, 1)),
          gbp := DecodeAmount(Word(clean, 2)),
          cny := DecodeAmount(Word(clean, 3)),
          jpy := DecodeAmount(Word(clean, 4)),
          eur := DecodeAmount(Word(clean, 5)),
          brl := DecodeAmount(Word(clean, 6)),
          btc := DecodeAmount(Word(clean, 7)),
          wallet := DecodeWallet(Word(clean, 8)),
          status := DecodeStatus(Word(clean, 9))))
  }

  /** Where each field comes from: the amounts from words 0 to 7 in the
      order cop, usd, gbp, cny, jpy, eur, brl, btc (see `DecodeAmount`); the wallet from the last 40 digits
      of word 8, lower-cased behind `0x`; the status from whether word 9 has
      a nonzero digit. Anything after word 9 is ignored. */
  lemma DecodeFieldPlacement(hex: string)
    requires DecodePriceResult(hex).Price?
    ensures var body, p := Body(hex), DecodePriceResult(hex).price;
      && |body| >= WordSize * 10 && WordsAreHex(body)
      && p.cop == DecodeAmount(Word(body, 0)) && p.usd == DecodeAmount(Word(body, 1))
      && p.gbp == DecodeAmount(Word(body, 2)) && p.cny == DecodeAmount(Word(body, 3))
      && p.jpy == DecodeAmount(Word(body, 4)) && p.eur == DecodeAmount(Word(body, 5))
      && p.brl == DecodeAmount(Word(body, 6)) && p.btc == DecodeAmount(Word(body, 7))
      && |p.wallet| == 42 && p.wallet[..2] == "0x"
      && p.wallet[2..] == ToLower(Word(body, 8)[24..])
      && NoUpperAscii(p.wallet)
      && (p.status <==> !AllZeroDigits(Word(body, 9)))
  {
  }

  // ---------------------------------------------------------------------
  // The answer as the oracle writes it (the decoder's inverse)

  function Concat(words: seq<string>): (s: string)
    ensures (forall j :: 0 <= j < |words| ==> |words[j]| == WordSize) ==> |s| == WordSize * |words|
  {
    if words == [] then [] else words[0] + Concat(words[1..])
  }

  lemma {:induction false} ConcatWordAt(words: seq<string>, i: nat)
    requires forall j :: 0 <= j < |words| ==> |words[j]| == WordSize
    requires i < |words|
    ensures Word(Concat(words), i) == words[i]
  {
    if i > 0 {
      ConcatWordAt(words[1..], i - 1);
      assert Concat(words) == words[0] + Concat(words[1..]);
    }
  }

  /** One ABI word holding an unsigned amount. */
  function AmountWord(v: nat): string {
    PadHex(ToHex(v), WordSize)
  }

  lemma AmountWordValue(v: nat)
    requires |ToHex(v)| <= WordSize
    ensures |AmountWord(v)| == WordSize && IsHex(AmountWord(v))
    ensures DecodeAmount(AmountWord(v)) == Hundredths(v)
    ensures AllZeroDigits(AmountWord(v)) <==> v == 0
  {
    PaddedWord(v, WordSize);
    HexValueZeroIff(AmountWord(v));
  }

  function AmountWords(amounts: seq<nat>): (ws: seq<string>)
    ensures |ws| == |amounts| && forall i :: 0 <= i < |amounts| ==> ws[i] == AmountWord(amounts[i])
  {
    if amounts == [] then [] else [AmountWord(amounts[0])] + AmountWords(amounts[1..])
  }

  /** The ten words of an answer: the amounts in the order cop, usd, gbp,
      cny, jpy, eur, brl, btc, the wallet left-padded to a word, the status. */
  function PriceWords(amounts: seq<nat>, wallet: string, status: bool): (ws: seq<string>)
    requires |amounts| == 8
    ensures |ws| == 10 && ws[8] == Zeros(24) + wallet
    ensures forall i :: 0 <= i < 8 ==> ws[i] == AmountWord(amounts[i])
    ensures ws[9] == AmountWord(if status then 1 else 0)
  {
    AmountWords(amounts) + [Zeros(24) + wallet, AmountWord(if status then 1 else 0)]
  }

  /** The answer as the oracle writes it, behind `0x`. */
  function EncodePriceResult(amounts: seq<nat>, wallet: string, status: bool): (r: string)
    requires |amounts| == 8
    ensures |r| >= 2 && r[..2] == "0x" && Body(r) == Concat(PriceWords(amounts, wallet, status))
  {
    var r := "0x" + Concat(PriceWords(amounts, wallet, status));
    assert r[..2] == "0x" && r[2..] == Concat(PriceWords(amounts, wallet, status));
    r
  }

  /** Reading the words back out of the oracle's answer. */
  lemma EncodedWords(amounts: seq<nat>, wallet: string, status: bool)
    requires |amounts| == 8 && forall i :: 0 <= i < 8 ==> |ToHex(amounts[i])| <= WordSize
    requires |wallet| == AddressLength
    ensures var body, ws := Body(EncodePriceResult(amounts, wallet, status)),
                           PriceWords(amounts, wallet, status);
      && |body| == WordSize * 10
      && (forall j :: 0 <= j < 10 ==> Word(body, j) == ws[j])
      && (forall j :: 0 <= j < 10 && j != 8 ==> IsHex(ws[j]))
  {
    var ws := PriceWords(amounts, wallet, status);
    forall j | 0 <= j < 10 ensures |ws[j]| == WordSize && (j != 8 ==> IsHex(ws[j])) {
      if j < 8 { AmountWordValue(amounts[j]); }
      else if j == 9 { AmountWordValue(if status then 1 else 0); }
    }
    forall j | 0 <= j < 10 ensures Word(Concat(ws), j) == ws[j] {
      ConcatWordAt(ws, j);
    }
  }

  lemma LowerHexHasNoUpper(s: string)
    requires IsLowerHex(s)
    ensures NoUpperAscii(s)
  {
    forall i | 0 <= i < |s| ensures !('A' <= s[i] <= 'Z') {
      assert s[i] in s;
    }
  }

  /** Round trip: decoding the oracle's answer gives back every amount as
      hundredths, the wallet behind `0x` and the status. */
  lemma DecodeEncodedPrice(amounts: seq<nat>, wallet: string, status: bool)
    requires |amounts| == 8 && forall i :: 0 <= i < 8 ==> |ToHex(amounts[i])| <= WordSize
    requires |wallet| == AddressLength && IsLowerHex(wallet)
    ensures DecodePriceResult(EncodePriceResult(amounts, wallet, status))
      == Price(TokenPrice(
           Hundredths(amounts[0]), Hundredths(amounts[1]), Hundredths(amounts[2]),
           Hundredths(amounts[3]), Hundredths(amounts[4]), Hundredths(amounts[5]),
           Hundredths(amounts[6]), Hundredths(amounts[7]),
           "0x" + wallet, status))
  {
    var hex := EncodePriceResult(amounts, wallet, status);
    var body, ws := Body(hex), PriceWords(amounts, wallet, status);
    EncodedWords(amounts, wallet, status);
    assert WordsAreHex(body);
    var p := DecodePriceResult(hex).price;
    DecodeFieldPlacement(hex);
    forall i | 0 <= i < 8 ensures DecodeAmount(Word(body, i)) == Hundredths(amounts[i]) {
      AmountWordValue(amounts[i]);
    }
    AmountWordValue(if status then 1 else 0);
    assert Word(body, 8)[24..] == wallet;
    LowerHexHasNoUpper(wallet);
    ToLowerOfLower(wallet);
    assert p.wallet[2..] == wallet;
    HexPrefixed(p.wallet, wallet);
  }

  lemma HexPrefixed(w: string, digits: string)
    requires |w| >= 2 && w[..2] == "0x" && w[2..] == digits
    ensures w == "0x" + digits
  {
    assert w == w[..2] + w[2..];
  }

  // ---------------------------------------------------------------------
  // The checks `fetchOnChainPrice` makes before any network traffic

  datatype FetchStart = MissingConfig | NoName | Call(data: string)

  /** Missing contract address or RPC URL throws; a blank name gives `null`
      without a request; otherwise the request carries the calldata for the
      trimmed name. */
  function FetchGuard(contractAddress: string, rpcUrl: string, tokenName: string): (r: FetchStart)
    ensures r.MissingConfig? <==> contractAddress == [] || rpcUrl == []
    ensures r.NoName? <==> contractAddress != [] && rpcUrl != [] && AllWhitespace(tokenName)
    ensures r.Call? && |ToHex(|Utf8Encode(Trim(tokenName))|)| <= WordSize
      ==> DecodeStringArgument(r.data) == Some(Utf8Encode(Trim(tokenName)))
    ensures r.Call? ==> r.data == EncodeStringArgument(Utf8Encode(Trim(tokenName)))
  {
    TrimEmptyIff(tokenName);
    if contractAddress == [] || rpcUrl == [] then MissingConfig
    else
      var normalizedName := Trim(tokenName);
      if normalizedName == [] then NoName
      else
        var bytes := Utf8Encode(normalizedName);
        assert |ToHex(|bytes|)| <= WordSize ==>
          DecodeStringArgument(EncodeStringArgument(bytes)) == Some(bytes) by {
          if |ToHex(|bytes|)| <= WordSize { EncodeDecodeStringArgument(bytes); }
        }
        Call(EncodeStringArgument(bytes))
  }
}
