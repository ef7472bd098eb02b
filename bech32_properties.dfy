/**
 * What `Bech32.decode` and `Bech32.encode` promise, proved on the reference
 * definitions `DecodeSpec` and `EncodeSpec` (which the loops compute).
 */
module Bech32Properties {
  import opened Outcomes
  import opened Text
  import opened BitGroups
  import opened Bech32

  // ---- mapping characters to values ----

  /**
   * The character map succeeds exactly when every character is in the
   * alphabet, gives each character's index, and otherwise reports the first
   * character that is not.
   */
  lemma {:induction false} DataValuesCharacterised(d: string)
    ensures DataValues(d).Success? <==> forall i :: 0 <= i < |d| ==> d[i] in CharsetMap
    ensures DataValues(d).Success? ==> forall i :: 0 <= i < |d| ==> DataValues(d).value[i] == CharsetMap[d[i]]
    ensures DataValues(d).Failure? ==>
      exists i :: 0 <= i < |d| && d[i] == DataValues(d).error && d[i] !in CharsetMap &&
        forall j :: 0 <= j < i ==> d[j] in CharsetMap
  {
    if d != [] && d[0] in CharsetMap {
      var rest := DataValues(d[1..]);
      DataValuesCharacterised(d[1..]);
      if rest.Failure? {
        var k :| 0 <= k < |d| - 1 && d[1..][k] == rest.error && d[1..][k] !in CharsetMap &&
          forall j :: 0 <= j < k ==> d[1..][j] in CharsetMap;
        assert d[k + 1] == rest.error;
        forall j | 0 <= j < k + 1
          ensures d[j] in CharsetMap
        {
          if j > 0 {
            assert d[j] == d[1..][j - 1];
          }
        }
      } else {
        forall i | 0 <= i < |d|
          ensures d[i] in CharsetMap
        {
          if i > 0 {
            assert d[i] == d[1..][i - 1];
          }
        }
      }
    } else if d != [] {
      assert d[0] == DataValues(d).error;
    }
  }

  /** Every character written for a 5-bit value is a lower-case data character that maps back to the value. */
  lemma ToCharsInAlphabet(vals: seq<nat>)
    requires AllBelow(vals, 32)
    ensures forall i :: 0 <= i < |vals| ==>
      ToChars(vals)[i] in CharsetMap && CharsetMap[ToChars(vals)[i]] == vals[i] &&
      ToChars(vals)[i] != '1' && LowerChar(ToChars(vals)[i]) == ToChars(vals)[i]
  {
    forall i | 0 <= i < |vals|
      ensures ToChars(vals)[i] in CharsetMap && CharsetMap[ToChars(vals)[i]] == vals[i]
      ensures ToChars(vals)[i] != '1' && LowerChar(ToChars(vals)[i]) == ToChars(vals)[i]
    {
      CharsetMapInverts(vals[i]);
    }
  }

  /** Writing 5-bit values as characters and mapping them back gives the values. */
  lemma DataValuesOfToChars(vals: seq<nat>)
    requires AllBelow(vals, 32)
    ensures DataValues(ToChars(vals)) == Success(vals)
  {
    var d := ToChars(vals);
    ToCharsInAlphabet(vals);
    DataValuesCharacterised(d);
    assert DataValues(d).value == vals;
  }

  /** Mapping two texts whose characters are all valid maps their concatenation. */
  lemma {:induction false} DataValuesAppend(a: string, b: string)
    requires DataValues(a).Success? && DataValues(b).Success?
    ensures DataValues(a + b) == Success(DataValues(a).value + DataValues(b).value)
  {
    if a == [] {
      assert a + b == b;
      assert DataValues(a).value == [];
      assert [] + DataValues(b).value == DataValues(b).value;
    } else {
      assert (a + b)[0] == a[0] && (a + b)[1..] == a[1..] + b;
      var x := CharsetMap[a[0]];
      assert DataValues(a).value == [x] + DataValues(a[1..]).value;
      DataValuesAppend(a[1..], b);
      assert DataValues(a + b) == Success([x] + DataValues(a[1..] + b).value);
      assert [x] + (DataValues(a[1..]).value + DataValues(b).value)
          == ([x] + DataValues(a[1..]).value) + DataValues(b).value;
    }
  }

  lemma LowerOfLower(d: string)
    ensures Lower(Lower(d)) == Lower(d)
    ensures '1' in Lower(d) <==> '1' in d
  {
    assert forall i :: 0 <= i < |d| ==> (Lower(d)[i] == '1' <==> d[i] == '1');
  }

  lemma LowerAppend(a: string, b: string)
    ensures Lower(a + b) == Lower(a) + Lower(b)
  {
  }

  // ---- decode ----

  /** In `p + "1" + d` with no '1' in `d`, the last '1' is the one after `p`. */
  lemma SeparatorAt(p: string, d: string)
    requires '1' !in d
    ensures LastIndexOf(p + "1" + d, '1') == |p|
    ensures (p + "1" + d)[|p| + 1..] == d
  {
    var s := p + "1" + d;
    assert s[|p|] == '1';
    assert s[|p| + 1..] == d;
    assert forall i :: |p| < i < |s| ==> s[i] == d[i - |p| - 1];
    assert LastIndexOf(s, '1') >= |p|;
  }

  /**
   * `decode` fails for want of a separator exactly when no '1' follows the
   * first character.
   */
  lemma DecodeNoSeparator(s: string)
    ensures DecodeSpec(s) == Failure(NoSeparator) <==> forall i :: 0 < i < |s| ==> s[i] != '1'
  {
    var r := LastIndexOf(s, '1');
    if r <= 0 {
      assert forall i :: 0 < i < |s| ==> s[i] != '1';
    } else {
      assert s[r] == '1';
    }
  }

  /**
   * Only the text after the last '1' matters: the human-readable part is
   * neither checked nor compared (so an `nsec1...` decodes like an `npub1...`),
   * as long as it is not empty.
   */
  lemma DecodeReadsOnlyData(p: string, d: string)
    requires '1' !in d
    ensures DecodeSpec(p + "1" + d) == if p == [] then Failure(NoSeparator) else DecodeData(d)
  {
    SeparatorAt(p, d);
  }

  /** Upper- and lower-case data characters decode alike. */
  lemma DecodeCaseInsensitive(p: string, d: string)
    requires '1' !in d
    ensures DecodeSpec(p + "1" + Lower(d)) == DecodeSpec(p + "1" + d)
  {
    LowerOfLower(d);
    DecodeReadsOnlyData(p, d);
    DecodeReadsOnlyData(p, Lower(d));
  }

  /** A Kelvin sign in place of a data `k` lower-cases to `k`, so the key decodes alike. */
  lemma DecodeKelvinSign(p: string, d: string, i: nat)
    requires '1' !in d && i < |d| && d[i] == 'k'
    ensures DecodeSpec(p + "1" + d[i := KelvinSign]) == DecodeSpec(p + "1" + d)
  {
    var d' := d[i := KelvinSign];
    assert Lower(d') == Lower(d) by {
      forall j | 0 <= j < |d| ensures Lower(d')[j] == Lower(d)[j] {
        if j == i {
          assert LowerChar(d'[j]) == 'k' == LowerChar(d[j]);
        }
      }
    }
    assert '1' !in d' by {
      forall j | 0 <= j < |d'| ensures d'[j] != '1' {
        if j != i {
          assert d'[j] == d[j];
        }
      }
    }
    DecodeCaseInsensitive(p, d);
    DecodeCaseInsensitive(p, d');
  }

  /**
   * An invalid character is reported exactly when one of the lower-cased data
   * characters is outside the alphabet, and it is the first of them.
   */
  lemma DecodeInvalidCharacter(d: string)
    ensures DecodeData(d).Failure? && DecodeData(d).error.InvalidCharacter?
      <==> exists i :: 0 <= i < |d| && LowerChar(d[i]) !in CharsetMap
    ensures DecodeData(d).Failure? && DecodeData(d).error.InvalidCharacter? ==>
      exists i :: 0 <= i < |d| && LowerChar(d[i]) == DecodeData(d).error.c &&
        LowerChar(d[i]) !in CharsetMap && forall j :: 0 <= j < i ==> LowerChar(d[j]) in CharsetMap
  {
    var lower := Lower(d);
    DataValuesCharacterised(lower);
    if DataValues(lower).Failure? {
      var i :| 0 <= i < |lower| && lower[i] == DataValues(lower).error && lower[i] !in CharsetMap &&
        forall j :: 0 <= j < i ==> lower[j] in CharsetMap;
      assert LowerChar(d[i]) == lower[i];
      assert forall j :: 0 <= j < i ==> LowerChar(d[j]) == lower[j];
    } else {
      assert forall i :: 0 <= i < |d| ==> LowerChar(d[i]) == lower[i];
    }
  }

  /** Every character is a data character once lower-cased. */
  predicate DataChars(d: string) {
    forall i :: 0 <= i < |d| ==> LowerChar(d[i]) in CharsetMap
  }

  /** Every 8 data characters carry 5 bytes; a trailing partial byte is dropped. */
  lemma UnpackLength(vals: seq<nat>)
    ensures |Unpack(vals)| == 5 * |vals| / 8
  {
    StreamLength(vals, 5);
    GroupsLength(Stream(vals, 5), 8);
  }

  lemma FiveEighthsAtLeast32(n: nat)
    ensures 5 * n / 8 >= 32 <==> n >= 52
  {
    if n >= 52 {
      DivModUnique(5 * 52, 8, 32, 4);
      assert 5 * n >= 5 * 52;
    } else {
      DivModUnique(5 * 51, 8, 31, 7);
      assert 5 * n <= 5 * 51;
    }
  }

  /** Data characters, lower-cased, all map to values. */
  lemma LowerDataChars(d: string)
    requires DataChars(d)
    ensures DataValues(Lower(d)).Success? && |DataValues(Lower(d)).value| == |d|
  {
    var lower := Lower(d);
    DataValuesCharacterised(lower);
    assert forall i :: 0 <= i < |lower| ==> lower[i] in CharsetMap;
  }

  /**
   * With only valid characters, decoding succeeds exactly when there are at
   * least 52 of them (52 * 5 = 260 bits, the first with 32 whole bytes) and
   * fails on the data length otherwise.
   */
  lemma DecodeLength(d: string)
    requires DataChars(d)
    ensures DecodeData(d).Success? <==> |d| >= 52
    ensures DecodeData(d).Failure? ==> DecodeData(d).error == InvalidDataLength
  {
    LowerDataChars(d);
    var vals := DataValues(Lower(d)).value;
    UnpackLength(vals);
    FiveEighthsAtLeast32(|vals|);
  }

  /** A successful decode is always a 64-digit lower-case hex public key. */
  lemma DecodeOutput(s: string)
    requires DecodeSpec(s).Success?
    ensures |DecodeSpec(s).value| == 64
    ensures forall i :: 0 <= i < 64 ==> IsLowerHexDigit(DecodeSpec(s).value[i])
  {
  }

  /** Valid characters after data that decodes leave the 32 bytes unchanged. */
  lemma DataIgnoresTrailing(d: string, t: string)
    requires DecodeData(d).Success?
    requires DataValues(Lower(t)).Success?
    ensures DecodeData(d + t) == DecodeData(d)
  {
    LowerAppend(d, t);
    DataValuesAppend(Lower(d), Lower(t));
    var va, vb := DataValues(Lower(d)).value, DataValues(Lower(t)).value;
    StreamAppend(va, vb, 5);
    GroupsPrefix(Stream(va, 5), Stream(vb, 5), 8);
    assert Unpack(va) <= Unpack(va + vb);
    assert Unpack(va + vb)[..32] == Unpack(va)[..32];
  }

  /** Characters that lower-case into the alphabet include no separator. */
  lemma NoSeparatorInData(t: string)
    requires DataValues(Lower(t)).Success?
    ensures '1' !in t
  {
    var lower := Lower(t);
    DataValuesCharacterised(lower);
    SeparatorNotInAlphabet();
    forall i | 0 <= i < |t|
      ensures t[i] != '1'
    {
      assert lower[i] in CharsetMap && lower[i] == LowerChar(t[i]);
    }
  }

  lemma SuffixOfAppend(s: string, t: string, j: nat)
    requires j <= |s|
    ensures (s + t)[j..] == s[j..] + t
  {
  }

  /** With its last separator at `k`, a string decodes as the data after `k`. */
  lemma DecodeAt(s: string, k: int)
    requires k == LastIndexOf(s, '1') && k > 0
    ensures DecodeSpec(s) == DecodeData(s[k + 1..])
  {
  }

  /** Text without a separator appended after the data `d` is read as more data. */
  lemma DecodeAppendData(s: string, t: string) returns (d: string)
    requires LastIndexOf(s, '1') > 0 && '1' !in t
    ensures DecodeSpec(s) == DecodeData(d) && DecodeSpec(s + t) == DecodeData(d + t)
  {
    var k := LastIndexOf(s, '1');
    d := s[k + 1..];
    LastIndexOfAppend(s, t, '1');
    SuffixOfAppend(s, t, k + 1);
    DecodeAt(s, k);
    DecodeAt(s + t, k);
  }

  /**
   * Only the first 32 bytes are kept, and there is no checksum: valid data
   * characters appended to a decodable string do not change what it decodes to.
   */
  lemma DecodeIgnoresTrailing(s: string, t: string)
    requires DecodeSpec(s).Success?
    requires DataValues(Lower(t)).Success?
    ensures DecodeSpec(s + t) == DecodeSpec(s)
  {
    NoSeparatorInData(t);
    var d := DecodeAppendData(s, t);
    DataIgnoresTrailing(d, t);
  }

  // ---- hex ----

  lemma HexDigitOfValue(c: char)
    requires HexDigitValue(c).Some?
    ensures HexDigit(HexDigitValue(c).value) == LowerChar(c)
  {
  }

  /** Two hex digits parse as one byte, which prints as the same digits in lower case. */
  lemma HexPair(x: char, y: char)
    requires HexDigitValue(x).Some? && HexDigitValue(y).Some?
    ensures var v := 16 * HexDigitValue(x).value + HexDigitValue(y).value;
      HexToInt([x, y]) == Some(v) && v < 256 && HexByte(v) == [LowerChar(x), LowerChar(y)]
  {
    var a, b := HexDigitValue(x).value, HexDigitValue(y).value;
    assert AllHexDigits([x, y]);
    DivModUnique(16 * a + b, 16, a, b);
    HexDigitOfValue(x);
    HexDigitOfValue(y);
  }

  /** One chunk of two characters and the rest. */
  lemma ParsePairsStep(hex: string)
    requires |hex| >= 2
    ensures ParsePairs(hex) ==
      if HexToInt(hex[..2]).None? || ParsePairs(hex[2..]).None? then None
      else Some([HexToInt(hex[..2]).value] + ParsePairs(hex[2..]).value)
  {
  }

  lemma HexStringStep(v: nat, vs: seq<nat>)
    requires v < 256 && AllBelow(vs, 256)
    ensures AllBelow([v] + vs, 256) && HexString([v] + vs) == HexByte(v) + HexString(vs)
  {
    assert ([v] + vs)[1..] == vs;
  }

  lemma LowerSplit(hex: string)
    requires |hex| >= 2
    ensures Lower(hex) == [LowerChar(hex[0]), LowerChar(hex[1])] + Lower(hex[2..])
  {
    assert hex == [hex[0], hex[1]] + hex[2..];
    LowerAppend([hex[0], hex[1]], hex[2..]);
  }

  /**
   * `chunked(2).map { it.toInt(16) }` reads an even-length string of hex digits
   * as bytes (no chunk is negative) which print back as the same digits in
   * lower case.
   */
  lemma {:induction false} ParseHexDigits(hex: string)
    requires |hex| % 2 == 0 && AllHexDigits(hex)
    ensures ParsePairs(hex).Some? && NoNegativePair(hex)
    ensures HexString(Naturals(ParsePairs(hex).value)) == Lower(hex)
  {
    if hex != [] {
      var rest := hex[2..];
      assert hex[..2] == [hex[0], hex[1]];
      HexPair(hex[0], hex[1]);
      var v := 16 * HexDigitValue(hex[0]).value + HexDigitValue(hex[1]).value;
      assert AllHexDigits(rest);
      ParseHexDigits(rest);
      var vs := ParsePairs(rest).value;
      ParsePairsStep(hex);
      assert ParsePairs(hex) == Some([v] + vs);
      var ns := Naturals(vs);
      assert Naturals([v] + vs) == [v] + ns;
      HexStringStep(v, ns);
      LowerSplit(hex);
    }
  }

  /** A byte printed as two hex digits parses back as the byte. */
  lemma HexByteParses(b: nat)
    requires b < 256
    ensures HexToInt(HexByte(b)) == Some(b)
  {
    DivModUnique(b, 16, b / 16, b % 16);
  }

  /** Printing bytes as hex and reading the pairs back gives the bytes. */
  lemma {:induction false} ParseHexString(bytes: seq<nat>)
    requires AllBelow(bytes, 256)
    ensures ParsePairs(HexString(bytes)) == Some(bytes)
  {
    if bytes != [] {
      var h := HexString(bytes);
      var b := bytes[0];
      ParseHexString(bytes[1..]);
      assert h[..2] == HexByte(b) && h[2..] == HexString(bytes[1..]);
      HexByteParses(b);
      ParsePairsStep(h);
      assert [b] + bytes[1..] == bytes;
    }
  }

  /**
   * `toInt(16)` rejects a chunk holding a character that is neither a hex digit
   * nor a sign in first position, and then `encode` fails.
   */
  lemma {:induction false} ParsePairsRejects(hex: string, i: nat)
    requires i < |hex| && HexDigitValue(hex[i]).None?
    requires i % 2 == 1 || (hex[i] != '+' && hex[i] != '-')
    ensures ParsePairs(hex).None?
  {
    var n := if |hex| < 2 then |hex| else 2;
    if i >= 2 {
      ParsePairsRejects(hex[2..], i - 2);
    } else if i == 1 {
      assert !AllHexDigits(hex[..n]);
    } else {
      assert !AllHexDigits(hex[..n]);
    }
  }

  /** `encode` refuses a 64-character string with a stray character. */
  lemma EncodeRejectsNonHex(prefix: string, hex: string, i: nat)
    requires |hex| == 64 && i < 64 && HexDigitValue(hex[i]).None?
    requires i % 2 == 1 || (hex[i] != '+' && hex[i] != '-')
    ensures NoNegativePair(hex) && EncodeSpec(prefix, hex) == Failure(NotHex)
  {
    ParsePairsRejects(hex, i);
  }

  // ---- encode ----

  lemma BitsZero(n: nat)
    ensures Bits(0, n) == Zeros(n)
  {
  }

  /**
   * 32 bytes pack into 52 values; 256 = 51 * 5 + 1, so the last value holds one
   * data bit followed by four zero bits.
   */
  lemma PackOf32(bytes: seq<nat>)
    requires |bytes| == 32
    ensures |Pack(bytes)| == 52 && Pack(bytes)[51] % 16 == 0
  {
    var S := Stream(bytes, 8);
    StreamLength(bytes, 8);
    var P := Padded(S, 5);
    assert P == S[..255] + (S[255..] + Zeros(4));
    var T := S[255..] + Zeros(4);
    GroupsAppend(S[..255], T, 5, 51);
    GroupsLength(S[..255], 5);
    assert T[..5] == T && T[5..] == [];
    assert Groups(T, 5) == [Val(T)];
    ValAppend(S[255..], Zeros(4));
    ValZeros(4);
    Pow2Small();
  }

  /**
   * For 64 hex digits `encode` succeeds with the prefix, the separator and 52
   * data characters, the last of which carries four zero padding bits.
   */
  lemma EncodeShape(prefix: string, hex: string)
    requires |hex| == 64 && AllHexDigits(hex)
    ensures NoNegativePair(hex) && EncodeSpec(prefix, hex).Success?
    ensures var r := EncodeSpec(prefix, hex).value;
      |r| == |prefix| + 53 && r[..|prefix|] == prefix && r[|prefix|] == '1' &&
      (forall i :: |prefix| < i < |r| ==> r[i] in CharsetMap) &&
      CharsetMap[r[|r| - 1]] % 16 == 0
  {
    ParseHexDigits(hex);
    var bytes := Naturals(ParsePairs(hex).value);
    PackOf32(bytes);
    var g := Pack(bytes);
    var d := ToChars(g);
    ToCharsInAlphabet(g);
    var r := EncodeSpec(prefix, hex).value;
    assert r == prefix + "1" + d;
    assert forall i :: |prefix| < i < |r| ==> r[i] == d[i - |prefix| - 1];
    assert r[|r| - 1] == d[51];
  }

  /** Unpacking what packing wrote gives the bytes back. */
  lemma UnpackOfPack(bytes: seq<nat>)
    requires AllBelow(bytes, 256)
    ensures Unpack(Pack(bytes)) == bytes
  {
    RegroupRoundTrip(bytes);
  }

  /**
   * Encoding 64 hex digits under a non-empty prefix and decoding the result
   * gives the digits back, in lower case.
   */
  lemma EncodeThenDecode(prefix: string, hex: string)
    requires |prefix| > 0 && |hex| == 64 && AllHexDigits(hex)
    ensures NoNegativePair(hex) && EncodeSpec(prefix, hex).Success?
    ensures DecodeSpec(EncodeSpec(prefix, hex).value) == Success(Lower(hex))
  {
    ParseHexDigits(hex);
    var bytes := Naturals(ParsePairs(hex).value);
    var g := Pack(bytes);
    PackOf32(bytes);
    var d := ToChars(g);
    ToCharsInAlphabet(g);
    assert '1' !in d;
    assert Lower(d) == d;
    DecodeReadsOnlyData(prefix, d);
    DataValuesOfToChars(g);
    UnpackOfPack(bytes);
    assert bytes[..32] == bytes;
  }

  /** The last four bits of a 5-bit value divisible by 16 are zero. */
  lemma LowBitsZero(v: nat)
    requires v < 32 && v % 16 == 0
    ensures Bits(v, 5)[1..] == Zeros(4)
  {
    var b := Bits(v, 5);
    assert b == b[..1] + b[1..];
    ValOfBits(v, 5);
    ValAppend(b[..1], b[1..]);
    ValBound(b[1..]);
    ValBound(b[..1]);
    Pow2Small();
    DivModUnique(v, 16, Val(b[..1]), Val(b[1..]));
    BitsOfVal(b[1..]);
    BitsZero(4);
  }

  /**
   * 52 values whose last one ends in four zero bits are exactly the packing of
   * the 32 bytes they unpack to.
   */
  lemma PackOfUnpack(vals: seq<nat>)
    requires |vals| == 52 && AllBelow(vals, 32) && vals[51] % 16 == 0
    ensures |Unpack(vals)| == 32 && Pack(Unpack(vals)) == vals
  {
    var S := Stream(vals, 5);
    UnpackLength(vals);
    StreamOfUnpack(vals);
    TrailingZeros(vals);
    assert |S[..256]| % 5 == 1;
    assert Padded(S[..256], 5) == S;
    Pow2Small();
    GroupsOfStream(vals, 5);
  }

  /** The bytes 52 values unpack to are the first 256 bits of their stream. */
  lemma StreamOfUnpack(vals: seq<nat>)
    requires |vals| == 52
    ensures |Stream(vals, 5)| == 260 && Stream(Unpack(vals), 8) == Stream(vals, 5)[..256]
  {
    var S := Stream(vals, 5);
    StreamLength(vals, 5);
    DropPartial(S, 32, 4, 8);
    StreamOfGroups(S[..256], 8, 32);
  }

  /** When the last of 52 values is divisible by 16, their stream ends in four zero bits. */
  lemma TrailingZeros(vals: seq<nat>)
    requires |vals| == 52 && AllBelow(vals, 32) && vals[51] % 16 == 0
    ensures |Stream(vals, 5)| == 260 && Stream(vals, 5)[256..] == Zeros(4)
  {
    var s0, b := Stream(vals[..51], 5), Bits(vals[51], 5);
    StreamLength(vals[..51], 5);
    assert |s0| == 255;
    assert Stream(vals, 5) == s0 + b;
    assert (s0 + b)[256..] == b[1..];
    LowBitsZero(vals[51]);
  }

  /** Data characters that are all in the alphabet are lower case and include no separator. */
  lemma CanonicalLower(d: string)
    requires forall i :: 0 <= i < |d| ==> d[i] in CharsetMap
    ensures Lower(d) == d && '1' !in d
  {
    SeparatorNotInAlphabet();
    forall i | 0 <= i < |d|
      ensures LowerChar(d[i]) == d[i]
    {
      CharsetMapKeys(d[i]);
      CharsetMapInverts(CharsetMap[d[i]]);
    }
  }

  /** Data characters that are all in the alphabet are lower case, and map back from their values. */
  lemma CanonicalData(d: string)
    requires forall i :: 0 <= i < |d| ==> d[i] in CharsetMap
    ensures Lower(d) == d && '1' !in d
    ensures DataValues(d).Success? && ToChars(DataValues(d).value) == d
  {
    CanonicalLower(d);
    DataValuesCharacterised(d);
    var vals := DataValues(d).value;
    forall i | 0 <= i < |d|
      ensures ToChars(vals)[i] == d[i]
    {
      CharsetMapKeys(d[i]);
    }
  }

  /**
   * Decoding a canonical 52-character key (lower case, last character carrying
   * zero padding) and encoding the hex under the same prefix gives the key back.
   */
  lemma DecodeThenEncode(prefix: string, d: string)
    requires |prefix| > 0 && |d| == 52
    requires forall i :: 0 <= i < 52 ==> d[i] in CharsetMap
    requires CharsetMap[d[51]] % 16 == 0
    ensures DecodeSpec(prefix + "1" + d).Success?
    ensures var h := DecodeSpec(prefix + "1" + d).value;
      NoNegativePair(h) && EncodeSpec(prefix, h) == Success(prefix + "1" + d)
  {
    CanonicalData(d);
    DecodeReadsOnlyData(prefix, d);
    var vals := DataValues(d).value;
    DataValuesCharacterised(d);
    PackOfUnpack(vals);
    var bytes := Unpack(vals);
    assert bytes[..32] == bytes;
    var h := HexString(bytes);
    assert DecodeSpec(prefix + "1" + d) == Success(h);
    ParseHexString(bytes);
    assert Naturals(ParsePairs(h).value) == bytes;
  }
}
