/**
 * The hand-written helpers of the quiz contract client: the function-selector
 * table `encodeFunction`, and the decoders `decodeUintArray`, `decodeString`
 * and `decodeSubmission` that read the hex strings returned by `eth_call`.
 *
 * Words of the Ethereum contract ABI are 32 bytes, written as 64 hex digits.
 * Their values are exact naturals here (the code's `parseInt` loses precision
 * above 2^53).
 */
module ContractCodec {
  import opened JsRuntime

  const WordDigits: nat := 64

  // ---------------------------------------------------------------------------
  // encodeFunction

  /** The six known selectors. */
  function Selectors(): map<string, string>
  {
    map[
      "getRandomBatch" := "0x8b7afe2e",
      "getQuestionsIpfsHash" := "0xc0f152b1",
      "setQuestionsIpfsHash" := "0xabcdef12",
      "submitAnswers" := "0x1234abcd",
      "getUserSubmissions" := "0x5678efgh",
      "getSubmission" := "0x9abc1234"
    ]
  }

  /** `encodeFunction`: the selector of a known name, "0x" for any other; the
      call parameters play no part. */
  function EncodeFunction(functionName: string): (r: string)
    ensures functionName in Selectors() ==> r == Selectors()[functionName]
    ensures functionName !in Selectors() ==> r == "0x"
  {
    if functionName in Selectors() then Selectors()[functionName] else "0x"
  }

  /** Every selector is "0x" and eight characters. */
  lemma SelectorShapes()
    ensures forall n :: n in Selectors() ==> |EncodeFunction(n)| == 10 && EncodeFunction(n)[..2] == "0x"
  {
  }

  /** No two names share a selector. */
  lemma SelectorsDistinct()
    ensures forall n, m :: n in Selectors() && m in Selectors() && n != m ==> EncodeFunction(n) != EncodeFunction(m)
  {
  }

  /** All selectors but the one for `getUserSubmissions` are hex; that one
      holds `g` and `h`. */
  lemma SelectorsHex()
    ensures forall n :: n in Selectors() && n != "getUserSubmissions" ==> AllHex(EncodeFunction(n)[2..])
    ensures !AllHex(EncodeFunction("getUserSubmissions")[2..])
  {
    assert !IsHexDigit(EncodeFunction("getUserSubmissions")[8]);
  }

  /** A name outside the table encodes to the bare prefix, which no known
      name does. */
  lemma UnknownNameIsBarePrefix(functionName: string)
    ensures EncodeFunction(functionName) == "0x" <==> functionName !in Selectors()
  {
  }

  // ---------------------------------------------------------------------------
  // Words

  /** The complete 64-digit chunks of `hex`, in order; a trailing partial
      chunk is dropped. */
  function Chunks(hex: string): (cs: seq<string>)
    ensures |cs| == |hex| / WordDigits
    ensures forall i :: 0 <= i < |cs| ==> |cs[i]| == WordDigits
    decreases |hex|
  {
    if |hex| < WordDigits then [] else [hex[..WordDigits]] + Chunks(hex[WordDigits..])
  }

  /** The words of a hex string, each chunk read with `parseInt(_, 16)`. */
  function Words(hex: string): seq<Num>
  {
    Map(ParseHex, Chunks(hex))
  }

  /** The values of the list that are numbers greater than 0 (`filter(n => n > 0)`). */
  function Positives(ns: seq<Num>): (r: seq<int>)
    ensures |r| <= |ns|
    ensures forall i :: 0 <= i < |r| ==> r[i] > 0
  {
    if ns == [] then []
    else if ns[0].Int? && ns[0].value > 0 then [ns[0].value] + Positives(ns[1..])
    else Positives(ns[1..])
  }

  function Min(a: int, b: int): int
  {
    if a <= b then a else b
  }

  /** `decodeUintArray`: skip two characters, parse each complete 64-digit
      chunk, keep the positive values. */
  method DecodeUintArray(data: string) returns (r: seq<int>)
    ensures r == Positives(Words(SliceFrom(data, 2)))
  {
    var numbers := ReadChunks(SliceFrom(data, 2), ParseHex);
    r := Positives(numbers);
  }

  /** The chunk loop of `decodeUintArray`: `hex.slice(i, i + 64)` for i = 0,
      64, 128, ..., each complete chunk read with `read`. */
  method ReadChunks<B>(hex: string, read: string -> B) returns (values: seq<B>)
    ensures values == Map(read, Chunks(hex))
  {
    values := [];
    var i := 0;
    while i < |hex|
      invariant 0 <= i <= |hex| + WordDigits && i % WordDigits == 0
      invariant values == Map(read, Chunks(hex[..Min(i, |hex|)]))
      decreases |hex| - i
    {
      var chunk := Slice(hex, i, i + WordDigits);
      assert chunk == hex[i..Min(i + WordDigits, |hex|)];
      if |chunk| == WordDigits {
        assert hex[..i + WordDigits] == hex[..i] + chunk;
        ChunksSnoc(hex[..i], chunk);
        MapSnoc(read, Chunks(hex[..i]), chunk);
        values := values + [read(chunk)];
      } else {
        assert hex[..i] + hex[i..] == hex;
        ChunksIgnoreTail(hex[..i], hex[i..]);
        assert hex[..|hex|] == hex;
      }
      i := i + WordDigits;
    }
    assert hex[..|hex|] == hex;
  }

  /** One more complete chunk adds one word at the end. */
  lemma {:induction false} ChunksSnoc(p: string, c: string)
    requires |p| % WordDigits == 0 && |c| == WordDigits
    ensures Chunks(p + c) == Chunks(p) + [c]
    decreases |p|
  {
    if p == [] {
      assert p + c == c + [];
      ChunksPrefix(c, []);
    } else {
      var w := p[..WordDigits];
      assert p == w + p[WordDigits..];
      assert p + c == w + (p[WordDigits..] + c);
      ChunksPrefix(w, p[WordDigits..] + c);
      ChunksPrefix(w, p[WordDigits..]);
      ChunksSnoc(p[WordDigits..], c);
    }
  }

  /** The decoder yields no more values than there are complete words. */
  lemma DecodedCountBound(data: string)
    ensures |Positives(Words(SliceFrom(data, 2)))| <= if |data| < 2 then 0 else (|data| - 2) / WordDigits
  {
  }

  lemma ChunksPrefix(w: string, rest: string)
    requires |w| == WordDigits
    ensures Chunks(w + rest) == [w] + Chunks(rest)
  {
    assert (w + rest)[..WordDigits] == w;
    assert (w + rest)[WordDigits..] == rest;
  }

  /** A trailing partial chunk changes nothing. */
  lemma {:induction false} ChunksIgnoreTail(hex: string, tail: string)
    requires |hex| % WordDigits == 0 && |tail| < WordDigits
    ensures Chunks(hex + tail) == Chunks(hex)
    decreases |hex|
  {
    if |hex| == 0 {
      assert hex + tail == tail;
    } else {
      var w := hex[..WordDigits];
      assert hex == w + hex[WordDigits..];
      assert hex + tail == w + (hex[WordDigits..] + tail);
      ChunksPrefix(w, hex[WordDigits..] + tail);
      ChunksPrefix(w, hex[WordDigits..]);
      ChunksIgnoreTail(hex[WordDigits..], tail);
    }
  }

  /** So the decoder ignores a trailing partial chunk. */
  lemma WordsIgnoreTail(hex: string, tail: string)
    requires |hex| % WordDigits == 0 && |tail| < WordDigits
    ensures Words(hex + tail) == Words(hex)
  {
    ChunksIgnoreTail(hex, tail);
  }

  // ---------------------------------------------------------------------------
  // Writing words, for the round trips

  function Zeros(n: nat): (z: string)
    ensures |z| == n && AllHex(z)
  {
    seq(n, _ => '0')
  }

  /** 16^2, 16^8 and 16^64 are large enough for a byte, a uint32 and a 32. */
  lemma SmallPowers()
    ensures Pow16(2) == 256 && Pow16(8) == 0x1_0000_0000
  {
  }

  /** 16^64 = 2^256, one more than the largest word value. */
  const WordLimit: nat := 0x1_0000_0000_0000_0000_0000_0000_0000_0000_0000_0000_0000_0000_0000_0000_0000_0000

  lemma WordLimitIsPower()
    ensures Pow16(WordDigits) == WordLimit
  {
    SmallPowers();
    Pow16Add(8, 8);
    assert Pow16(16) == 0x1_0000_0000_0000_0000;
    Pow16Add(16, 16);
    assert Pow16(32) == 0x1_0000_0000_0000_0000_0000_0000_0000_0000;
    Pow16Add(32, 32);
  }

  lemma {:induction false} Pow16Add(a: nat, b: nat)
    ensures Pow16(a + b) == Pow16(a) * Pow16(b)
    decreases b
  {
    if b > 0 {
      Pow16Add(a, b - 1);
      assert Pow16(a + b) == 16 * Pow16(a + b - 1);
    }
  }

  /** A word of 64 hex digits is read back as its value. */
  lemma ParseWord(v: nat, width: nat)
    requires 0 < width && v < Pow16(width)
    ensures ParseHex(ToHex(v, width)) == Int(v)
  {
    ParseHexOfDigits(ToHex(v, width));
    HexValueOfToHex(v, width);
  }

  /** The same for a whole word. */
  lemma ParseFullWord(v: nat)
    requires v < WordLimit
    ensures ParseHex(ToHex(v, WordDigits)) == Int(v)
  {
    WordLimitIsPower();
    ParseWord(v, WordDigits);
  }

  lemma {:induction false} ToHexOfZero(w: nat)
    ensures ToHex(0, w) == Zeros(w)
  {
    if w > 0 {
      ToHexOfZero(w - 1);
      assert Zeros(w) == Zeros(w - 1) + ['0'];
    }
  }

  /** A value that fits in k digits is written in w >= k digits as w - k
      zeros and its k-digit form. */
  lemma {:induction false} ToHexLeadingZeros(n: nat, k: nat, w: nat)
    requires k <= w && n < Pow16(k)
    ensures ToHex(n, w) == Zeros(w - k) + ToHex(n, k)
    decreases k
  {
    if k == 0 {
      ToHexOfZero(w);
    } else {
      assert n / 16 < Pow16(k - 1);
      ToHexLeadingZeros(n / 16, k - 1, w - 1);
      assert ToHex(n, w) == (Zeros(w - k) + ToHex(n / 16, k - 1)) + [HexChar(n % 16)];
    }
  }

  predicate AllWords(vs: seq<nat>)
  {
    forall i :: 0 <= i < |vs| ==> vs[i] < WordLimit
  }

  /** The values written one word each. */
  function EncodeWords(vs: seq<nat>): (hex: string)
    ensures |hex| == WordDigits * |vs|
  {
    if vs == [] then "" else ToHex(vs[0], WordDigits) + EncodeWords(vs[1..])
  }

  function AsNums(vs: seq<nat>): (ns: seq<Num>)
    ensures |ns| == |vs| && forall i :: 0 <= i < |vs| ==> ns[i] == Int(vs[i])
  {
    seq(|vs|, i requires 0 <= i < |vs| => Int(vs[i]))
  }

  lemma {:induction false} ChunksOfEncoded(vs: seq<nat>)
    ensures Chunks(EncodeWords(vs)) == seq(|vs|, i requires 0 <= i < |vs| => ToHex(vs[i], WordDigits))
  {
    if vs != [] {
      ChunksPrefix(ToHex(vs[0], WordDigits), EncodeWords(vs[1..]));
      ChunksOfEncoded(vs[1..]);
    }
  }

  lemma WordsOfEncoded(vs: seq<nat>)
    requires AllWords(vs)
    ensures Words(EncodeWords(vs)) == AsNums(vs)
  {
    ChunksOfEncoded(vs);
    forall i | 0 <= i < |vs|
      ensures Words(EncodeWords(vs))[i] == Int(vs[i])
    {
      ParseFullWord(vs[i]);
    }
  }

  lemma {:induction false} PositivesOfPositive(vs: seq<nat>)
    requires forall i :: 0 <= i < |vs| ==> vs[i] > 0
    ensures Positives(AsNums(vs)) == vs
  {
    if vs != [] {
      assert AsNums(vs)[1..] == AsNums(vs[1..]);
      PositivesOfPositive(vs[1..]);
    }
  }

  /** Positive values written as "0x" and one word each are read back
      exactly. */
  lemma DecodeUintArrayRoundTrip(vs: seq<nat>)
    requires AllWords(vs)
    requires forall i :: 0 <= i < |vs| ==> vs[i] > 0
    ensures Positives(Words(SliceFrom("0x" + EncodeWords(vs), 2))) == vs
  {
    AfterPrefix(EncodeWords(vs));
    WordsOfEncoded(vs);
    PositivesOfPositive(vs);
  }

  // ---------------------------------------------------------------------------
  // The ABI layout of a returned uint256[] and the decoder that follows it

  /** How a function returning `uint256[]` answers: a head word with the
      offset of the array (32 bytes), then its length word, then its
      elements. */
  function AbiUintArray(vs: seq<nat>): string
  {
    "0x" + (ToHex(32, WordDigits) + ToHex(|vs|, WordDigits) + EncodeWords(vs))
  }

  /** `slice(2)` drops the "0x". */
  lemma AfterPrefix(body: string)
    ensures SliceFrom("0x" + body, 2) == body
  {
    assert ("0x" + body)[2..] == body;
  }

  /** The chunks of an ABI `uint256[]` answer: offset, length, elements. */
  lemma ChunksOfAbiUintArray(vs: seq<nat>)
    ensures Chunks(SliceFrom(AbiUintArray(vs), 2))
      == [ToHex(32, WordDigits)] + ([ToHex(|vs|, WordDigits)] + Chunks(EncodeWords(vs)))
  {
    var a := ToHex(32, WordDigits);
    var b := ToHex(|vs|, WordDigits);
    AfterPrefix(a + b + EncodeWords(vs));
    ChunksOfTwoWords(a, b, EncodeWords(vs));
  }

  lemma ChunksOfTwoWords(a: string, b: string, rest: string)
    requires |a| == WordDigits && |b| == WordDigits
    ensures Chunks(a + b + rest) == [a] + ([b] + Chunks(rest))
  {
    assert a + b + rest == a + (b + rest);
    ChunksPrefix(a, b + rest);
    ChunksPrefix(b, rest);
  }

  /** The words of an ABI `uint256[]` answer: offset, length, elements. */
  lemma WordsOfAbiUintArray(vs: seq<nat>)
    requires AllWords(vs) && |vs| < WordLimit
    ensures Words(SliceFrom(AbiUintArray(vs), 2)) == [Int(32)] + ([Int(|vs|)] + AsNums(vs))
  {
    var a := ToHex(32, WordDigits);
    var b := ToHex(|vs|, WordDigits);
    ChunksOfAbiUintArray(vs);
    MapCons(ParseHex, a, [b] + Chunks(EncodeWords(vs)));
    MapCons(ParseHex, b, Chunks(EncodeWords(vs)));
    ParseFullWord(32);
    ParseFullWord(|vs|);
    WordsOfEncoded(vs);
  }

  /** On a genuine ABI answer with positive ids, the hand-written decoder
      returns the offset word 32 and the length word before the ids. */
  lemma DecodeUintArrayReadsHeader(vs: seq<nat>)
    requires AllWords(vs) && |vs| < WordLimit
    requires forall i :: 0 <= i < |vs| ==> vs[i] > 0
    ensures Positives(Words(SliceFrom(AbiUintArray(vs), 2))) == [32, |vs|] + vs || vs == []
    ensures vs == [] ==> Positives(Words(SliceFrom(AbiUintArray(vs), 2))) == [32]
  {
    WordsOfAbiUintArray(vs);
    PositivesOfHeader(vs);
  }

  /** Keeping the positive values of an offset word 32, a length word and
      positive elements. */
  lemma PositivesOfHeader(vs: seq<nat>)
    requires forall i :: 0 <= i < |vs| ==> vs[i] > 0
    ensures Positives([Int(32)] + ([Int(|vs|)] + AsNums(vs))) == (if vs == [] then [32] else [32, |vs|] + vs)
  {
    var ns := AsNums(vs);
    var inner := [Int(|vs|)] + ns;
    PositivesCons(Int(32), inner);
    PositivesCons(Int(|vs|), ns);
    PositivesOfPositive(vs);
    if vs != [] {
      assert [32] + ([|vs|] + vs) == [32, |vs|] + vs;
    }
  }

  /** `filter` on a list with a known head. */
  lemma PositivesCons(n: Num, ns: seq<Num>)
    ensures Positives([n] + ns) == (if n.Int? && n.value > 0 then [n.value] else []) + Positives(ns)
  {
    assert ([n] + ns)[1..] == ns;
  }

  /** The list of one submission id 7 decodes to [32, 1, 7]. */
  lemma DecodeUintArrayCounterexample()
    ensures Positives(Words(SliceFrom(AbiUintArray([7]), 2))) == [32, 1, 7]
  {
    SmallPowers();
    DecodeUintArrayReadsHeader([7]);
  }

  /** The word at hex position `at`, read as a natural number if it is one. */
  function WordAt(hex: string, at: int): Option<nat>
  {
    var w := ParseHex(Slice(hex, at, at + WordDigits));
    if w.Int? && w.value >= 0 then Some(w.value) else None
  }

  /** A decoder that follows the ABI layout: the head word gives the byte
      offset of the array, the word there its length, and that many words
      follow; a short or malformed answer gives None. */
  function DecodeUintArrayAbi(data: string): (r: Option<seq<nat>>)
    ensures r.Some? ==> |r.value| <= |data| / WordDigits
  {
    var hex := SliceFrom(data, 2);
    match WordAt(hex, 0)
    case None => None
    case Some(offset) =>
      match WordAt(hex, 2 * offset)
      case None => None
      case Some(n) => FirstNaturals(Words(SliceFrom(hex, 2 * offset + WordDigits)), n)
  }

  /** The first n words, if there are n and all are natural numbers. */
  function FirstNaturals(elements: seq<Num>, n: nat): (r: Option<seq<nat>>)
    ensures r.Some? ==> |r.value| == n
  {
    if n > |elements| then None
    else if forall i :: 0 <= i < n ==> elements[i].Int? && elements[i].value >= 0
    then Some(seq(n, i requires 0 <= i < n => elements[i].value as nat))
    else None
  }

  lemma FirstNaturalsOfNats(vs: seq<nat>)
    ensures FirstNaturals(AsNums(vs), |vs|) == Some(vs)
  {
    var elements := AsNums(vs);
    assert seq(|vs|, i requires 0 <= i < |vs| => elements[i].value as nat) == vs;
  }

  /** The ABI decoder reads back every list of word-sized values, zeros
      included. */
  lemma DecodeUintArrayAbiRoundTrip(vs: seq<nat>)
    requires AllWords(vs) && |vs| < WordLimit
    ensures DecodeUintArrayAbi(AbiUintArray(vs)) == Some(vs)
  {
    var a := ToHex(32, WordDigits);
    var b := ToHex(|vs|, WordDigits);
    var body := a + b + EncodeWords(vs);
    AfterPrefix(body);
    assert Slice(body, 0, WordDigits) == a;
    WordAtValue(body, 0, 32);
    assert Slice(body, 64, 128) == b;
    WordAtValue(body, 64, |vs|);
    assert SliceFrom(body, 128) == EncodeWords(vs);
    WordsOfEncoded(vs);
    FirstNaturalsOfNats(vs);
  }

  lemma WordAtValue(hex: string, at: int, v: nat)
    requires v < WordLimit && Slice(hex, at, at + WordDigits) == ToHex(v, WordDigits)
    ensures WordAt(hex, at) == Some(v)
  {
    ParseFullWord(v);
  }

  // ---------------------------------------------------------------------------
  // decodeString

  /** The character `String.fromCharCode(parseInt(pair, 16))`; a pair of at
      most two characters reads as a number in [-15, 255], so the code unit
      is a byte or one of the top 15 code units. */
  function CharOf(pair: string): (c: char)
    requires |pair| <= 2
    ensures c as int < 256 || c as int >= 0xFFF1
  {
    ParseHexShort(pair);
    var k := CodeUnit(ParseHex(pair));
    k as char
  }

  /** The hex string cut into pairs of characters, the last one possibly a
      single character (`substr(i, 2)`). */
  function Pairs(h: string): (ps: seq<string>)
    ensures |ps| == (|h| + 1) / 2
    ensures forall i :: 0 <= i < |ps| ==> 1 <= |ps[i]| <= 2
    decreases |h|
  {
    if h == [] then [] else [h[..Min(2, |h|)]] + Pairs(h[Min(2, |h|)..])
  }

  /** The text a hex string decodes to. */
  function DecodePairs(h: string): (s: string)
    ensures |s| == (|h| + 1) / 2
  {
    Map(CharOf, Pairs(h))
  }

  /** The hex of the string's bytes, after the "0x". */
  function PayloadHex(data: string): string
  {
    Payload(SliceFrom(data, 2))
  }

  /** The offset word, doubled: where the length word starts. */
  function DataOffset(hex: string): Num
  {
    MulNum(ParseHex(Slice(hex, 0, WordDigits)), 2)
  }

  /** The length word, read at the data offset. */
  function LengthWord(hex: string): Num
  {
    var dataOffset := DataOffset(hex);
    ParseHex(Slice(hex, IndexOf(dataOffset), IndexOf(AddNum(dataOffset, WordDigits))))
  }

  /** The bytes follow the length word. */
  function Payload(hex: string): string
  {
    PayloadWindow(hex, AddNum(DataOffset(hex), WordDigits), LengthWord(hex))
  }

  /** The characters from `start` to `start + length * 2`. */
  function PayloadWindow(hex: string, start: Num, length: Num): string
  {
    Slice(hex, IndexOf(start), IndexOf(AddNums(start, MulNum(length, 2))))
  }

  /** `decodeString`: "" for an empty answer or a bare "0x"; otherwise the
      payload decoded pair by pair. */
  method DecodeString(data: string) returns (s: string)
    ensures data == "" || data == "0x" ==> s == ""
    ensures data != "" && data != "0x" ==> s == DecodePairs(PayloadHex(data))
  {
    if data == "" || data == "0x" {
      return "";
    }
    s := ReadPairs(PayloadHex(data), CharOf);
  }

  /** The loop of `decodeString`: `substr(i, 2)` for i = 0, 2, 4, ..., each
      read with `read`. */
  method ReadPairs<B>(hexString: string, read: string --> B) returns (values: seq<B>)
    requires forall p: string :: |p| <= 2 ==> read.requires(p)
    ensures values == Map(read, Pairs(hexString))
  {
    values := [];
    var i := 0;
    while i < |hexString|
      invariant 0 <= i <= |hexString| + 1 && i % 2 == 0
      invariant values == Map(read, Pairs(hexString[..Min(i, |hexString|)]))
      decreases |hexString| - i
    {
      var pair := hexString[i..Min(i + 2, |hexString|)];
      PairsOfLongerPrefix(hexString, i);
      MapSnoc(read, Pairs(hexString[..i]), pair);
      values := values + [read(pair)];
      i := i + 2;
    }
    assert hexString[..|hexString|] == hexString;
  }

  /** Reading on from position i adds the pair that starts there. */
  lemma PairsOfLongerPrefix(h: string, i: nat)
    requires i < |h| && i % 2 == 0
    ensures Pairs(h[..Min(i + 2, |h|)]) == Pairs(h[..i]) + [h[i..Min(i + 2, |h|)]]
  {
    var end := Min(i + 2, |h|);
    assert h[..end] == h[..i] + h[i..end];
    PairsSnoc(h[..i], h[i..end]);
  }

  /** One more pair, or a last single character, adds one character at the
      end. */
  lemma {:induction false} PairsSnoc(p: string, c: string)
    requires |p| % 2 == 0 && 1 <= |c| <= 2
    ensures Pairs(p + c) == Pairs(p) + [c]
    decreases |p|
  {
    if p == [] {
      assert p + c == c;
      assert c[..Min(2, |c|)] == c;
      assert c[Min(2, |c|)..] == [];
    } else {
      var w := p[..2];
      assert p + c == w + (p[2..] + c);
      assert (p + c)[..2] == w && (p + c)[2..] == p[2..] + c;
      PairsSnoc(p[2..], c);
    }
  }

  /** The decoded text has at most as many characters as the length word
      says. */
  lemma DecodeStringLengthBound(data: string, length: nat)
    requires LengthWord(SliceFrom(data, 2)) == Int(length)
    ensures |DecodePairs(PayloadHex(data))| <= length
  {
    var hex := SliceFrom(data, 2);
    WindowBound(hex, AddNum(DataOffset(hex), WordDigits), length);
  }

  /** A window of `length * 2` positions holds at most that many
      characters. */
  lemma WindowBound(hex: string, start: Num, length: nat)
    ensures |PayloadWindow(hex, start, Int(length))| <= 2 * length
  {
  }

  /** The pairs of a hex string are runs of hex digits. */
  lemma {:induction false} PairsOfHex(h: string)
    requires AllHex(h)
    ensures forall i :: 0 <= i < |Pairs(h)| ==> AllHex(Pairs(h)[i])
    decreases |h|
  {
    if h != [] {
      PairsOfHex(h[Min(2, |h|)..]);
    }
  }

  /** A pair of hex digits decodes to a character below 256. */
  lemma CharOfHex(p: string)
    requires 1 <= |p| <= 2 && AllHex(p)
    ensures CharOf(p) as int == HexValue(p) < 256
  {
    ParseHexOfDigits(p);
    assert HexValue(p) < 256 by {
      Pow16Grows(|p|, 2);
      SmallPowers();
    }
    CodeUnitOfByte(ParseHex(p));
    CharOfIsCodeUnit(p);
  }

  lemma CodeUnitOfByte(n: Num)
    requires n.Int? && 0 <= n.value < 256
    ensures CodeUnit(n) == n.value
  {
  }

  lemma CharOfIsCodeUnit(p: string)
    requires |p| <= 2
    ensures CharOf(p) as int == CodeUnit(ParseHex(p))
  {
  }

  /** Decoding pairs of hex digits gives characters below 256. */
  lemma DecodePairsOfHexAreBytes(h: string)
    requires AllHex(h)
    ensures forall i :: 0 <= i < |DecodePairs(h)| ==> DecodePairs(h)[i] as int < 256
  {
    var ps := Pairs(h);
    PairsOfHex(h);
    forall i | 0 <= i < |ps|
      ensures DecodePairs(h)[i] as int < 256
    {
      CharOfHex(ps[i]);
    }
  }

  /** Every character of a string, two hex digits each. */
  function BytesHex(s: string): (h: string)
    requires forall i :: 0 <= i < |s| ==> s[i] as int < 256
    ensures |h| == 2 * |s|
  {
    if s == [] then "" else ToHex(s[0] as int, 2) + BytesHex(s[1..])
  }

  /** The zero digits that pad `n` digits to a whole number of words. */
  function PadTo(n: nat): nat
  {
    (WordDigits - n % WordDigits) % WordDigits
  }

  /** How a function returning `string` answers: the offset word 32, the
      length word, the bytes, zero padding to a whole word. */
  function AbiString(s: string): string
    requires forall i :: 0 <= i < |s| ==> s[i] as int < 256
  {
    "0x" + (ToHex(32, WordDigits) + ToHex(|s|, WordDigits) + BytesHex(s) + Zeros(PadTo(2 * |s|)))
  }

  lemma PairsPrefix(p: string, rest: string)
    requires |p| == 2
    ensures Pairs(p + rest) == [p] + Pairs(rest)
  {
    assert (p + rest)[..2] == p;
    assert (p + rest)[2..] == rest;
  }

  /** The pairs of `BytesHex(s)` are the two-digit forms of its characters. */
  lemma {:induction false} PairsOfBytes(s: string)
    requires forall i :: 0 <= i < |s| ==> s[i] as int < 256
    ensures Pairs(BytesHex(s)) == seq(|s|, i requires 0 <= i < |s| => ToHex(s[i] as int, 2))
  {
    if s != [] {
      PairsPrefix(ToHex(s[0] as int, 2), BytesHex(s[1..]));
      PairsOfBytes(s[1..]);
    }
  }

  lemma DecodePairsOfBytes(s: string)
    requires forall i :: 0 <= i < |s| ==> s[i] as int < 256
    ensures DecodePairs(BytesHex(s)) == s
  {
    PairsOfBytes(s);
    forall i | 0 <= i < |s|
      ensures DecodePairs(BytesHex(s))[i] == s[i]
    {
      CharOfByteHex(s[i]);
    }
  }

  /** A character below 256, written as two hex digits, decodes to itself. */
  lemma CharOfByteHex(c: char)
    requires c as int < 256
    ensures CharOf(ToHex(c as int, 2)) == c
  {
    var p := ToHex(c as int, 2);
    SmallPowers();
    ParseWord(c as int, 2);
    CodeUnitOfByte(ParseHex(p));
    CharOfIsCodeUnit(p);
  }

  /** A string of byte-sized characters, ABI-encoded, decodes to itself. */
  lemma DecodeStringRoundTrip(s: string)
    requires forall i :: 0 <= i < |s| ==> s[i] as int < 256
    requires |s| < WordLimit
    ensures DecodePairs(PayloadHex(AbiString(s))) == s
    ensures AbiString(s) != "" && AbiString(s) != "0x"
  {
    SmallPowers();
    ParseFullWord(32);
    ParseFullWord(|s|);
    PayloadOfLayout(ToHex(32, WordDigits), ToHex(|s|, WordDigits), BytesHex(s), Zeros(PadTo(2 * |s|)), |s|);
    DecodePairsOfBytes(s);
  }

  /** With an offset word reading 32 and a length word reading n, the payload
      is the 2n digits after the two words, whatever follows them. */
  lemma PayloadOfLayout(a: string, b: string, bytes: string, pad: string, n: nat)
    requires |a| == WordDigits && |b| == WordDigits && |bytes| == 2 * n
    requires ParseHex(a) == Int(32) && ParseHex(b) == Int(n)
    ensures PayloadHex("0x" + (a + b + bytes + pad)) == bytes
  {
    var hex := a + b + bytes + pad;
    AfterPrefix(hex);
    LayoutSlices(a, b, bytes, pad);
    assert DataOffset(hex) == Int(64);
    LengthWordAt(hex);
    assert Payload(hex) == bytes;
  }

  lemma LayoutSlices(a: string, b: string, bytes: string, pad: string)
    requires |a| == WordDigits && |b| == WordDigits
    ensures var hex := a + b + bytes + pad;
      && Slice(hex, 0, WordDigits) == a
      && Slice(hex, 64, 128) == b
      && Slice(hex, 128, 128 + |bytes|) == bytes
  {
    var hex := a + b + bytes + pad;
    assert hex[..64] == a;
    assert hex[64..128] == b;
    assert hex[128..128 + |bytes|] == bytes;
  }

  lemma LengthWordAt(hex: string)
    requires DataOffset(hex) == Int(64)
    ensures LengthWord(hex) == ParseHex(Slice(hex, 64, 128))
  {
    assert IndexOf(DataOffset(hex)) == 64;
    assert IndexOf(AddNum(DataOffset(hex), WordDigits)) == 128;
  }

  // ---------------------------------------------------------------------------
  // decodeSubmission

  datatype Submission = Submission(
    user: string,
    batchId: Num,
    score: Num,
    timestamp: Num,
    answers: seq<string>)

  const NoAnswers: seq<string> := ["", "", "", "", ""]

  /** `decodeSubmission` as written: the address from the first word, and
      batch id, score and timestamp from the hex positions 66..68, 68..70
      and 70..78; five empty answers. */
  function DecodeSubmission(data: string): (r: Submission)
    ensures r.user == "0x" + Slice(data, 26, 66) && r.answers == NoAnswers
    ensures |data| >= 78 ==>
      r.batchId == ParseHex(data[66..68]) && r.score == ParseHex(data[68..70]) && r.timestamp == ParseHex(data[70..78])
  {
    Submission(
      "0x" + Slice(data, 26, 66),
      ParseHex(Slice(data, 66, 68)),
      ParseHex(Slice(data, 68, 70)),
      ParseHex(Slice(data, 70, 78)),
      NoAnswers)
  }

  /** The head of a `getSubmission` answer: the address word (24 zero digits
      and 40 address digits), then the batch id, score and timestamp words,
      then the rest. */
  function AbiSubmissionHead(userHex: string, batchId: nat, score: nat, timestamp: nat, rest: string): string
  {
    "0x" + Zeros(24) + userHex + ToHex(batchId, WordDigits) + ToHex(score, WordDigits)
      + ToHex(timestamp, WordDigits) + rest
  }

  /** As written, the three numbers come from the leading zero digits of the
      batch id word, so they read 0 whatever was submitted. */
  lemma DecodeSubmissionReadsZeros(userHex: string, batchId: nat, score: nat, timestamp: nat, rest: string)
    requires |userHex| == 40
    requires batchId < 256 && score < 256 && timestamp < 0x1_0000_0000
    ensures var r := DecodeSubmission(AbiSubmissionHead(userHex, batchId, score, timestamp, rest));
      r.user == "0x" + userHex && r.batchId == Int(0) && r.score == Int(0) && r.timestamp == Int(0)
  {
    SubmissionHeadLayout(userHex, batchId, score, timestamp, rest);
    DecodeSubmissionOfZeros(AbiSubmissionHead(userHex, batchId, score, timestamp, rest));
  }

  /** In the head of a `getSubmission` answer, the address sits at 26..66 and
      a batch id below 256 leaves zero digits at 66..78. */
  lemma SubmissionHeadLayout(userHex: string, batchId: nat, score: nat, timestamp: nat, rest: string)
    requires |userHex| == 40 && batchId < 256
    ensures var data := AbiSubmissionHead(userHex, batchId, score, timestamp, rest);
      && |data| >= 78 && data[26..66] == userHex
      && AllZero(data[66..68]) && AllZero(data[68..70]) && AllZero(data[70..78])
  {
    ByteWordLeadingZeros(batchId);
    HeadSlices(Zeros(24), userHex, ToHex(batchId, WordDigits), ToHex(score, WordDigits),
      ToHex(timestamp, WordDigits), rest);
  }

  /** Where the pieces of a head land, whatever their digits. */
  lemma HeadSlices(z: string, u: string, wb: string, ws: string, wt: string, rest: string)
    requires |z| == 24 && |u| == 40 && |wb| == 64 && |ws| == 64 && |wt| == 64
    ensures var data := "0x" + z + u + wb + ws + wt + rest;
      && |data| >= 258 && data[26..66] == u
      && data[66..68] == wb[..2] && data[68..70] == wb[2..4] && data[70..78] == wb[4..12]
      && data[66..130] == wb && data[130..194] == ws && data[194..258] == wt
  {
    var data := "0x" + z + u + wb + ws + wt + rest;
    var head := "0x" + z + u;
    assert data == head + wb + ws + wt + rest;
    assert data[26..66] == head[26..66];
    assert data[66..68] == wb[..2] && data[68..70] == wb[2..4] && data[70..78] == wb[4..12];
    assert data[66..130] == wb && data[130..194] == ws && data[194..258] == wt;
  }

  predicate AllZero(s: string)
  {
    s == Zeros(|s|)
  }

  /** A byte written as a 64-digit word starts with (at least) 12 zero digits. */
  lemma ByteWordLeadingZeros(b: nat)
    requires b < 256
    ensures var w := ToHex(b, WordDigits);
      |w| == WordDigits && AllZero(w[..2]) && AllZero(w[2..4]) && AllZero(w[4..12])
  {
    SmallPowers();
    ToHexLeadingZeros(b, 2, WordDigits);
    var w := ToHex(b, WordDigits);
    assert forall i :: 0 <= i < 12 ==> w[i] == '0';
    ZerosOfDigits(w[..2]);
    ZerosOfDigits(w[2..4]);
    ZerosOfDigits(w[4..12]);
  }

  lemma ZerosOfDigits(s: string)
    requires forall i :: 0 <= i < |s| ==> s[i] == '0'
    ensures AllZero(s)
  {
  }

  /** Zero digits at 66..78 read as three zeros. */
  lemma DecodeSubmissionOfZeros(data: string)
    requires |data| >= 78 && AllZero(data[66..68]) && AllZero(data[68..70]) && AllZero(data[70..78])
    ensures var r := DecodeSubmission(data);
      r.batchId == Int(0) && r.score == Int(0) && r.timestamp == Int(0)
  {
    ParseAllZero(data[66..68]);
    ParseAllZero(data[68..70]);
    ParseAllZero(data[70..78]);
  }

  /** A non-empty run of zero digits reads as 0. */
  lemma ParseAllZero(s: string)
    requires |s| > 0 && AllZero(s)
    ensures ParseHex(s) == Int(0)
  {
    ToHexOfZero(|s|);
    ParseWord(0, |s|);
  }

  /** A batch id of 7 is read as 0. */
  lemma DecodeSubmissionCounterexample(userHex: string)
    requires |userHex| == 40
    ensures DecodeSubmission(AbiSubmissionHead(userHex, 7, 80, 1700000000, "")).batchId == Int(0) != Int(7)
  {
    DecodeSubmissionReadsZeros(userHex, 7, 80, 1700000000, "");
  }

  /** The decoder that reads the three numbers from their own words, hex
      positions 66..130, 130..194 and 194..258. */
  function DecodeSubmissionWords(data: string): (r: Submission)
    ensures r.user == DecodeSubmission(data).user && r.answers == NoAnswers
  {
    Submission(
      "0x" + Slice(data, 26, 66),
      ParseHex(Slice(data, 66, 130)),
      ParseHex(Slice(data, 130, 194)),
      ParseHex(Slice(data, 194, 258)),
      NoAnswers)
  }

  /** Reading whole words gives back the address, batch id, score and
      timestamp that were encoded. */
  lemma DecodeSubmissionWordsRoundTrip(userHex: string, batchId: nat, score: nat, timestamp: nat, rest: string)
    requires |userHex| == 40
    requires batchId < 256 && score < 256 && timestamp < 0x1_0000_0000
    ensures DecodeSubmissionWords(AbiSubmissionHead(userHex, batchId, score, timestamp, rest))
      == Submission("0x" + userHex, Int(batchId), Int(score), Int(timestamp), NoAnswers)
  {
    HeadSlices(Zeros(24), userHex, ToHex(batchId, WordDigits), ToHex(score, WordDigits),
      ToHex(timestamp, WordDigits), rest);
    SmallPowers();
    ParseFullWord(batchId);
    ParseFullWord(score);
    ParseFullWord(timestamp);
  }
}
