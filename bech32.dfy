/**
 * Bech32 as the Nostr code uses it: `npub1...` keys are decoded to a 64-digit
 * hex public key, and hex keys are encoded back. There is no checksum: the
 * decoder regroups every data character's 5 bits into bytes and keeps the
 * first 32; the encoder writes 52 characters and no checksum.
 *
 * `DecodeSpec` and `EncodeSpec` state each operation on bit streams
 * (`BitGroups`); the methods `Decode` and `Encode` are the shift-and-mask loops
 * over a 32-bit accumulator, proved to compute the same results.
 */
module Bech32 {
  import opened Outcomes
  import opened Text
  import opened BitGroups

  /** The data characters; a character's index is its 5-bit value. */
  const Charset: string := "qpzry9x8gf2tvdw0s3jn54khce6mua7l"

  /**
   * `s.withIndex().associate { it.value to it.index }`: each character to its
   * index, a later occurrence replacing an earlier one.
   */
  function IndexMap(s: string): map<char, nat> {
    if s == [] then map[] else IndexMap(s[..|s| - 1])[s[|s| - 1] := |s| - 1]
  }

  /** `CHARSET_MAP` */
  const CharsetMap: map<char, nat> := IndexMap(Charset)

  datatype DecodeError = NoSeparator | InvalidCharacter(c: char) | InvalidDataLength

  /** The two ways `encode` fails: a wrong length, or a pair `toInt(16)` rejects. */
  datatype EncodeError = WrongHexLength | NotHex

  // ---- the alphabet ----

  /** A character's index in `CHARSET`, or -1; a proof device for `IndexMap(Charset)`. */
  ghost function Position(c: char): int {
    if c == 'q' then 0
    else if c == 'p' then 1
    else if c == 'z' then 2
    else if c == 'r' then 3
    else if c == 'y' then 4
    else if c == '9' then 5
    else if c == 'x' then 6
    else if c == '8' then 7
    else if c == 'g' then 8
    else if c == 'f' then 9
    else if c == '2' then 10
    else if c == 't' then 11
    else if c == 'v' then 12
    else if c == 'd' then 13
    else if c == 'w' then 14
    else if c == '0' then 15
    else if c == 's' then 16
    else if c == '3' then 17
    else if c == 'j' then 18
    else if c == 'n' then 19
    else if c == '5' then 20
    else if c == '4' then 21
    else if c == 'k' then 22
    else if c == 'h' then 23
    else if c == 'c' then 24
    else if c == 'e' then 25
    else if c == '6' then 26
    else if c == 'm' then 27
    else if c == 'u' then 28
    else if c == 'a' then 29
    else if c == '7' then 30
    else if c == 'l' then 31
    else -1
  }

  /** The keys of `IndexMap(s)` are the characters of `s`, each mapped to an index where it occurs. */
  lemma {:induction false} IndexMapKeys(s: string, c: char)
    ensures c in IndexMap(s) <==> c in s
    ensures c in IndexMap(s) ==> IndexMap(s)[c] < |s| && s[IndexMap(s)[c]] == c
  {
    if s != [] {
      var p := s[..|s| - 1];
      IndexMapKeys(p, c);
      assert s == p + [s[|s| - 1]];
    }
  }

  /** Over distinct characters, `IndexMap` inverts indexing. */
  lemma {:induction false} IndexMapInverts(s: string, i: nat)
    requires forall j, k :: 0 <= j < k < |s| ==> s[j] != s[k]
    requires i < |s|
    ensures s[i] in IndexMap(s) && IndexMap(s)[s[i]] == i
  {
    if i < |s| - 1 {
      var p := s[..|s| - 1];
      assert p[i] == s[i];
      IndexMapInverts(p, i);
    }
  }

  lemma PositionOfCharset0(g: nat)
    requires 0 <= g < 8
    ensures Position(Charset[g]) == g && Charset[g] != '1' && LowerChar(Charset[g]) == Charset[g]
  {
    if g == 0 { }
    else if g == 1 { }
    else if g == 2 { }
    else if g == 3 { }
    else if g == 4 { }
    else if g == 5 { }
    else if g == 6 { }
    else { assert g == 7; }
  }

  lemma PositionOfCharset1(g: nat)
    requires 8 <= g < 16
    ensures Position(Charset[g]) == g && Charset[g] != '1' && LowerChar(Charset[g]) == Charset[g]
  {
    if g == 8 { }
    else if g == 9 { }
    else if g == 10 { }
    else if g == 11 { }
    else if g == 12 { }
    else if g == 13 { }
    else if g == 14 { }
    else { assert g == 15; }
  }

  lemma PositionOfCharset2(g: nat)
    requires 16 <= g < 24
    ensures Position(Charset[g]) == g && Charset[g] != '1' && LowerChar(Charset[g]) == Charset[g]
  {
    if g == 16 { }
    else if g == 17 { }
    else if g == 18 { }
    else if g == 19 { }
    else if g == 20 { }
    else if g == 21 { }
    else if g == 22 { }
    else { assert g == 23; }
  }

  lemma PositionOfCharset3(g: nat)
    requires 24 <= g < 32
    ensures Position(Charset[g]) == g && Charset[g] != '1' && LowerChar(Charset[g]) == Charset[g]
  {
    if g == 24 { }
    else if g == 25 { }
    else if g == 26 { }
    else if g == 27 { }
    else if g == 28 { }
    else if g == 29 { }
    else if g == 30 { }
    else { assert g == 31; }
  }

  lemma PositionOfCharset(g: nat)
    requires g < 32
    ensures Position(Charset[g]) == g && Charset[g] != '1' && LowerChar(Charset[g]) == Charset[g]
  {
    if g < 8 { PositionOfCharset0(g); }
    else if g < 16 { PositionOfCharset1(g); }
    else if g < 24 { PositionOfCharset2(g); }
    else { PositionOfCharset3(g); }
  }

  /** The 32 data characters are distinct. */
  lemma CharsetDistinct()
    ensures forall j, k :: 0 <= j < k < |Charset| ==> Charset[j] != Charset[k]
  {
    forall j, k | 0 <= j < k < |Charset|
      ensures Charset[j] != Charset[k]
    {
      PositionOfCharset(j);
      PositionOfCharset(k);
    }
  }

  /** `CHARSET_MAP` inverts `CHARSET`, and no data character is `'1'` or upper case. */
  lemma CharsetMapInverts(g: nat)
    requires g < 32
    ensures Charset[g] in CharsetMap && CharsetMap[Charset[g]] == g
    ensures Charset[g] != '1' && LowerChar(Charset[g]) == Charset[g]
  {
    CharsetDistinct();
    IndexMapInverts(Charset, g);
    PositionOfCharset(g);
  }

  /** Every key of `CHARSET_MAP` sits in `CHARSET` at the index it maps to. */
  lemma CharsetMapKeys(c: char)
    requires c in CharsetMap
    ensures CharsetMap[c] < 32 && Charset[CharsetMap[c]] == c
  {
    IndexMapKeys(Charset, c);
  }

  /** The separator is not a data character. */
  lemma SeparatorNotInAlphabet()
    ensures '1' !in CharsetMap
  {
    if '1' in CharsetMap {
      CharsetMapKeys('1');
      PositionOfCharset(CharsetMap['1']);
    }
  }

  lemma Pow2Small()
    ensures Pow2(4) == 16 && Pow2(5) == 32 && Pow2(8) == 256
  {
    Pow2Add(4, 4);
  }

  /**
   * `data.map { CHARSET_MAP[it] ?: throw ... }`: the 5-bit values of the data
   * characters, or the first character that is not in the alphabet.
   */
  function DataValues(d: string): (r: Result<seq<nat>, char>)
    ensures r.Success? ==> |r.value| == |d| && AllBelow(r.value, 32)
  {
    if d == [] then Success([])
    else if d[0] !in CharsetMap then Failure(d[0])
    else
      match DataValues(d[1..])
      case Failure(c) => Failure(c)
      case Success(vs) =>
        CharsetMapKeys(d[0]);
        Success([CharsetMap[d[0]]] + vs)
  }

  /** The data characters of 5-bit values. */
  function ToChars(vals: seq<nat>): string
    requires AllBelow(vals, 32)
  {
    seq(|vals|, i requires 0 <= i < |vals| => Charset[vals[i]])
  }

  // ---- hex text ----

  predicate IsLowerHexDigit(c: char) {
    '0' <= c <= '9' || 'a' <= c <= 'f'
  }

  /** `Character.digit(c, 16)` on ASCII characters. */
  function HexDigitValue(c: char): (r: Option<nat>)
    ensures r.Some? ==> r.value < 16
  {
    if '0' <= c <= '9' then Some(c as int - '0' as int)
    else if 'a' <= c <= 'f' then Some(c as int - 'a' as int + 10)
    else if 'A' <= c <= 'F' then Some(c as int - 'A' as int + 10)
    else None
  }

  predicate AllHexDigits(s: string) {
    forall i :: 0 <= i < |s| ==> HexDigitValue(s[i]).Some?
  }

  /** The lower-case digit `Int.toString(16)` writes for a value below 16. */
  function HexDigit(d: nat): (r: char)
    requires d < 16
    ensures IsLowerHexDigit(r) && HexDigitValue(r) == Some(d)
  {
    if d < 10 then ('0' as int + d) as char else ('a' as int + d - 10) as char
  }

  /** `b.toString(16).padStart(2, '0')` for a byte value. */
  function HexByte(b: nat): string
    requires b < 256
  {
    [HexDigit(b / 16), HexDigit(b % 16)]
  }

  /** `joinToString("") { it.toString(16).padStart(2, '0') }` */
  function HexString(bytes: seq<nat>): (r: string)
    requires AllBelow(bytes, 256)
    ensures |r| == 2 * |bytes|
    ensures forall i :: 0 <= i < |r| ==> IsLowerHexDigit(r[i])
  {
    if bytes == [] then "" else HexByte(bytes[0]) + HexString(bytes[1..])
  }

  /**
   * `p.toInt(16)` for a chunk of at most two characters: an optional sign
   * (`+` or `-`) followed by at least one hex digit.
   */
  function HexToInt(p: string): (r: Option<int>)
    requires |p| <= 2
    ensures r.Some? ==> -16 < r.value < 256
  {
    if |p| == 0 then None
    else if p[0] == '-' || p[0] == '+' then
      if |p| == 1 || HexDigitValue(p[1]).None? then None
      else
        var d: int := HexDigitValue(p[1]).value;
        Some(if p[0] == '-' then -d else d)
    else if !AllHexDigits(p) then None
    else if |p| == 1 then Some(HexDigitValue(p[0]).value)
    else Some(16 * HexDigitValue(p[0]).value + HexDigitValue(p[1]).value)
  }

  /** `hex.chunked(2).map { it.toInt(16) }`; `None` when a chunk does not parse. */
  function ParsePairs(hex: string): (r: Option<seq<int>>)
    ensures r.Some? ==> |r.value| == (|hex| + 1) / 2
    ensures r.Some? ==> forall i :: 0 <= i < |r.value| ==> -16 < r.value[i] < 256
  {
    if hex == [] then Some([])
    else
      var n := if |hex| < 2 then |hex| else 2;
      match HexToInt(hex[..n])
      case None => None
      case Some(v) =>
        match ParsePairs(hex[n..])
        case None => None
        case Some(vs) => Some([v] + vs)
  }

  /** Every chunk that parses gives a value the accumulator can or in: none is negative. */
  predicate NoNegativePair(hex: string) {
    ParsePairs(hex).Some? ==> forall i :: 0 <= i < |ParsePairs(hex).value| ==> ParsePairs(hex).value[i] >= 0
  }

  function Naturals(vals: seq<int>): (r: seq<nat>)
    requires forall i :: 0 <= i < |vals| ==> vals[i] >= 0
    ensures |r| == |vals| && forall i :: 0 <= i < |vals| ==> r[i] == vals[i]
  {
    seq(|vals|, i requires 0 <= i < |vals| => vals[i] as nat)
  }

  // ---- the reference definitions ----

  /** The bytes the 5-bit values spell: complete octets of their bit stream. */
  function Unpack(vals: seq<nat>): (r: seq<nat>)
    ensures AllBelow(r, 256)
  {
    GroupsBelow(Stream(vals, 5), 8);
    Pow2Small();
    Groups(Stream(vals, 5), 8)
  }

  /** The 5-bit values that spell the bytes, the last one zero-padded. */
  function Pack(bytes: seq<nat>): (r: seq<nat>)
    ensures AllBelow(r, 32)
  {
    GroupsBelow(Padded(Stream(bytes, 8), 5), 5);
    Pow2Small();
    Groups(Padded(Stream(bytes, 8), 5), 5)
  }

  /** What `decode` makes of the text after the separator. */
  function DecodeData(d: string): Result<string, DecodeError> {
    match DataValues(Lower(d))
    case Failure(c) => Failure(InvalidCharacter(c))
    case Success(vals) =>
      var bytes := Unpack(vals);
      if |bytes| < 32 then Failure(InvalidDataLength)
      else Success(HexString(bytes[..32]))
  }

  /** `Bech32.decode`, on bit streams. */
  function DecodeSpec(bech32: string): Result<string, DecodeError> {
    var lastOne := LastIndexOf(bech32, '1');
    if lastOne <= 0 then Failure(NoSeparator) else DecodeData(bech32[lastOne + 1..])
  }

  /** `Bech32.encode`, on bit streams. */
  function EncodeSpec(prefix: string, hex: string): Result<string, EncodeError>
    requires |hex| == 64 ==> NoNegativePair(hex)
  {
    if |hex| != 64 then Failure(WrongHexLength)
    else
      match ParsePairs(hex)
      case None => Failure(NotHex)
      case Some(vals) => Success(prefix + "1" + ToChars(Pack(Naturals(vals))))
  }

  // ---- the loops ----

  /** The accumulator loop of `decode`: 5-bit values in, bytes out. */
  method UnpackBits(data: seq<nat>) returns (result: seq<nat>)
    requires AllBelow(data, 32)
    ensures result == Unpack(data)
  {
    Pow2Small();
    var acc: Int32 := 0;
    var bits: nat := 0;
    result := [];
    for i := 0 to |data|
      invariant bits < 8 && Regrouping(Stream(data[..i], 5), result, bits, acc, 8)
    {
      ghost var S' := Stream(data[..i + 1], 5);
      PushInto(data, i, result, bits, acc, 8, 5);
      assert Regrouping(S', result, bits + 5, Shl(acc, 5) + data[i], 8);
      acc, bits := Shl(acc, 5) + data[i], bits + 5;
      while bits >= 8
        invariant bits <= 12 && Regrouping(S', result, bits, acc, 8)
        decreases bits
      {
        EmitInto(S', result, bits, acc, 8);
        bits := bits - 8;
        result := result + [ShrMask(acc, bits, 8)];
      }
    }
    assert data[..|data|] == data;
    DropInto(Stream(data, 5), result, bits, acc, 8);
  }

  /** `Bech32.decode` */
  method Decode(bech32: string) returns (r: Result<string, DecodeError>)
    ensures r == DecodeSpec(bech32)
  {
    var lastOne := LastIndexOf(bech32, '1');
    if lastOne <= 0 {
      return Failure(NoSeparator);
    }
    var mapped := DataValues(Lower(bech32[lastOne + 1..]));
    if mapped.Failure? {
      return Failure(InvalidCharacter(mapped.error));
    }
    var result := UnpackBits(mapped.value);
    if |result| < 32 {
      return Failure(InvalidDataLength);
    }
    return Success(HexString(result[..32]));
  }

  /**
   * The accumulator loop of `encode`: bytes in, 5-bit values out, the pending
   * bits shifted up into a last value.
   */
  method PackBits(data: seq<nat>) returns (converted: seq<nat>)
    requires AllBelow(data, 256)
    ensures converted == Pack(data)
  {
    Pow2Small();
    var acc: Int32 := 0;
    var bits: nat := 0;
    converted := [];
    for i := 0 to |data|
      invariant bits < 5 && Regrouping(Stream(data[..i], 8), converted, bits, acc, 5)
    {
      ghost var S' := Stream(data[..i + 1], 8);
      PushInto(data, i, converted, bits, acc, 5, 8);
      assert Regrouping(S', converted, bits + 8, Shl(acc, 8) + data[i], 5);
      acc, bits := Shl(acc, 8) + data[i], bits + 8;
      while bits >= 5
        invariant bits <= 12 && Regrouping(S', converted, bits, acc, 5)
        decreases bits
      {
        EmitInto(S', converted, bits, acc, 5);
        bits := bits - 5;
        converted := converted + [ShrMask(acc, bits, 5)];
      }
    }
    assert data[..|data|] == data;
    PadInto(Stream(data, 8), converted, bits, acc);
    if bits > 0 {
      converted := converted + [Shl(acc, 5 - bits) % 32];
    }
  }

  /** `Bech32.encode` */
  method Encode(prefix: string, hex: string) returns (r: Result<string, EncodeError>)
    requires |hex| == 64 ==> NoNegativePair(hex)
    ensures r == EncodeSpec(prefix, hex)
  {
    if |hex| != 64 {
      return Failure(WrongHexLength);
    }
    var parsed := ParsePairs(hex);
    if parsed.None? {
      return Failure(NotHex);
    }
    var converted := PackBits(Naturals(parsed.value));
    var out := prefix + "1";
    for j := 0 to |converted|
      invariant out == prefix + "1" + ToChars(converted[..j])
    {
      assert converted[..j + 1] == converted[..j] + [converted[j]];
      out := out + [Charset[converted[j]]];
    }
    assert converted[..|converted|] == converted;
    return Success(out);
  }
}
