/**
 * Regrouping a stream of bits, the reference for Bech32's `convertbits` step,
 * and Kotlin's 32-bit `Int` shift and mask operations on the accumulator.
 *
 * A sequence of w-bit values is laid out as one bit stream, most significant
 * bit first (`Stream`); the stream is cut into complete v-bit groups
 * (`Groups`), a trailing partial group being dropped. Decoding is
 * `Groups(Stream(values, 5), 8)`; encoding zero-pads the 8-bit stream to a
 * multiple of five first.
 */
module BitGroups {

  function Pow2(n: nat): (r: nat)
    ensures r >= 1
  {
    if n == 0 then 1 else 2 * Pow2(n - 1)
  }

  /** The low `w` bits of `v`, most significant first. */
  function Bits(v: nat, w: nat): (r: seq<bool>)
    ensures |r| == w
  {
    if w == 0 then [] else Bits(v / 2, w - 1) + [v % 2 == 1]
  }

  /** The number a bit string denotes, most significant bit first. */
  function Val(s: seq<bool>): nat {
    if s == [] then 0 else 2 * Val(s[..|s| - 1]) + (if s[|s| - 1] then 1 else 0)
  }

  /** The values laid end to end as `w`-bit fields. */
  function Stream(vals: seq<nat>, w: nat): seq<bool> {
    if vals == [] then [] else Stream(vals[..|vals| - 1], w) + Bits(vals[|vals| - 1], w)
  }

  /** The complete `w`-bit groups of a bit stream, in order. */
  function Groups(s: seq<bool>, w: nat): seq<nat>
    requires w > 0
    decreases |s|
  {
    if |s| < w then [] else [Val(s[..w])] + Groups(s[w..], w)
  }

  function Zeros(n: nat): (r: seq<bool>)
    ensures |r| == n
  {
    seq(n, _ => false)
  }

  /** The stream extended with zero bits up to a multiple of `w`. */
  function Padded(s: seq<bool>, w: nat): seq<bool>
    requires w > 0
  {
    s + Zeros((w - |s| % w) % w)
  }

  predicate AllBelow(vals: seq<nat>, bound: nat) {
    forall i :: 0 <= i < |vals| ==> vals[i] < bound
  }

  // ---- Kotlin `Int` (32-bit two's complement) ----

  type Int32 = x: int | -0x8000_0000 <= x < 0x8000_0000

  /** The 32-bit two's-complement value congruent to `x`. */
  function Wrap32(x: int): Int32 {
    (x + 0x8000_0000) % 0x1_0000_0000 - 0x8000_0000
  }

  /** `x shl n`: the product wraps around at 32 bits. */
  function Shl(x: Int32, n: nat): Int32 {
    Wrap32(x * Pow2(n))
  }

  /**
   * `(x shr n) and (2^w - 1)`: `shr` is an arithmetic shift, which is division
   * rounding down (Dafny's `/` by a positive divisor), and masking the low w bits
   * of a two's-complement number is Dafny's non-negative `%`.
   */
  function ShrMask(x: Int32, n: nat, w: nat): nat {
    (x / Pow2(n)) % Pow2(w)
  }

  // ---- lengths ----

  lemma {:induction false} StreamLength(vals: seq<nat>, w: nat)
    ensures |Stream(vals, w)| == w * |vals|
  {
    if vals != [] {
      StreamLength(vals[..|vals| - 1], w);
      assert w * (|vals| - 1) + w == w * |vals|;
    }
  }

  lemma {:induction false} GroupsLength(s: seq<bool>, w: nat)
    requires w > 0
    ensures |Groups(s, w)| == |s| / w
  {
    if |s| >= w {
      GroupsLength(s[w..], w);
      DivModUnique(|s|, w, (|s| - w) / w + 1, (|s| - w) % w);
    } else {
      DivModUnique(|s|, w, 0, |s|);
    }
  }

  // ---- bits and values ----

  lemma {:induction false} ValBound(s: seq<bool>)
    ensures Val(s) < Pow2(|s|)
  {
    if s != [] {
      ValBound(s[..|s| - 1]);
    }
  }

  lemma {:induction false} ValOfBits(v: nat, w: nat)
    requires v < Pow2(w)
    ensures Val(Bits(v, w)) == v
  {
    if w > 0 {
      ValOfBits(v / 2, w - 1);
      assert Bits(v, w)[..w - 1] == Bits(v / 2, w - 1);
    }
  }

  lemma {:induction false} BitsOfVal(s: seq<bool>)
    ensures Bits(Val(s), |s|) == s
  {
    if s != [] {
      var init := s[..|s| - 1];
      BitsOfVal(init);
      assert Val(s) / 2 == Val(init);
      assert s == init + [s[|s| - 1]];
    }
  }

  lemma {:induction false} ValAppend(a: seq<bool>, b: seq<bool>)
    ensures Val(a + b) == Val(a) * Pow2(|b|) + Val(b)
  {
    if b != [] {
      var b' := b[..|b| - 1];
      var bit := if b[|b| - 1] then 1 else 0;
      ValAppend(a, b');
      assert (a + b)[..|a + b| - 1] == a + b';
      assert Val(a + b) == 2 * Val(a + b') + bit;
      assert Val(b) == 2 * Val(b') + bit;
      assert Pow2(|b|) == 2 * Pow2(|b'|);
      DoubleShifted(Val(a), Pow2(|b'|), Val(b'), bit);
    } else {
      assert a + b == a;
    }
  }

  lemma DoubleShifted(x: int, p: int, y: int, bit: int)
    ensures 2 * (x * p + y) + bit == x * (2 * p) + (2 * y + bit)
  {
  }

  lemma ValZeros(n: nat)
    ensures Val(Zeros(n)) == 0
  {
    if n > 0 {
      assert Zeros(n)[..n - 1] == Zeros(n - 1);
      ValZeros(n - 1);
    }
  }

  // ---- streams and groups ----

  lemma {:induction false} StreamAppend(a: seq<nat>, b: seq<nat>, w: nat)
    ensures Stream(a + b, w) == Stream(a, w) + Stream(b, w)
  {
    if b != [] {
      var b' := b[..|b| - 1];
      StreamAppend(a, b', w);
      assert (a + b)[..|a + b| - 1] == a + b';
    } else {
      assert a + b == a;
    }
  }

  lemma StreamSingle(v: nat, w: nat)
    ensures Stream([v], w) == Bits(v, w)
  {
    assert [v][..0] == [];
  }

  /** Cutting after whole groups: the groups of `s + t` are those of `s`, then those of `t`. */
  lemma {:induction false} GroupsAppend(s: seq<bool>, t: seq<bool>, w: nat, k: nat)
    requires w > 0 && |s| == k * w
    ensures Groups(s + t, w) == Groups(s, w) + Groups(t, w)
    decreases k
  {
    if k > 0 {
      assert |s| >= w;
      assert (s + t)[..w] == s[..w];
      assert (s + t)[w..] == s[w..] + t;
      assert |s[w..]| == (k - 1) * w;
      GroupsAppend(s[w..], t, w, k - 1);
    } else {
      assert s + t == t;
    }
  }

  /** Appending bits never changes the groups already complete. */
  lemma {:induction false} GroupsPrefix(s: seq<bool>, t: seq<bool>, w: nat)
    requires w > 0
    ensures Groups(s, w) <= Groups(s + t, w)
    decreases |s|
  {
    if |s| >= w {
      assert (s + t)[..w] == s[..w];
      assert (s + t)[w..] == s[w..] + t;
      GroupsPrefix(s[w..], t, w);
    }
  }

  lemma {:induction false} GroupsBelow(s: seq<bool>, w: nat)
    requires w > 0
    ensures AllBelow(Groups(s, w), Pow2(w))
    decreases |s|
  {
    if |s| >= w {
      ValBound(s[..w]);
      GroupsBelow(s[w..], w);
    }
  }

  /** One `w`-bit field cut into `w`-bit groups is the one value it holds. */
  lemma GroupsOfBits(v: nat, w: nat)
    requires w > 0 && v < Pow2(w)
    ensures Groups(Bits(v, w), w) == [v]
  {
    var b := Bits(v, w);
    ValOfBits(v, w);
    assert b[..w] == b && b[w..] == [];
  }

  /** Values of width `w`, laid out and cut again into `w`-bit groups, come back unchanged. */
  lemma {:induction false} GroupsOfStream(vals: seq<nat>, w: nat)
    requires w > 0 && AllBelow(vals, Pow2(w))
    ensures Groups(Stream(vals, w), w) == vals
  {
    if vals != [] {
      var init, last := vals[..|vals| - 1], vals[|vals| - 1];
      var s, b := Stream(init, w), Bits(last, w);
      assert Stream(vals, w) == s + b;
      GroupsOfStream(init, w);
      StreamLength(init, w);
      GroupsAppend(s, b, w, |init|);
      GroupsOfBits(last, w);
      assert vals == init + [last];
    }
  }

  /** A stream of whole `w`-bit groups is rebuilt exactly from its groups. */
  lemma {:induction false} StreamOfGroups(s: seq<bool>, w: nat, k: nat)
    requires w > 0 && |s| == k * w
    ensures Stream(Groups(s, w), w) == s
    decreases k
  {
    if k > 0 {
      assert |s[w..]| == (k - 1) * w;
      StreamOfGroups(s[w..], w, k - 1);
      StreamAppend([Val(s[..w])], Groups(s[w..], w), w);
      StreamSingle(Val(s[..w]), w);
      BitsOfVal(s[..w]);
      assert s == s[..w] + s[w..];
    }
  }

  /** The zero-padded stream is a whole number of 5-bit groups, so laying them out again gives it back. */
  lemma RestreamPadded(s: seq<bool>)
    ensures Stream(Groups(Padded(s, 5), 5), 5) == Padded(s, 5)
  {
    var p := Padded(s, 5);
    assert |p| == (|p| / 5) * 5;
    StreamOfGroups(p, 5, |p| / 5);
  }

  /** The padding is shorter than a byte, so cutting the padded stream into bytes drops it. */
  lemma BytesOfPadded(bytes: seq<nat>)
    requires AllBelow(bytes, 256)
    ensures Groups(Padded(Stream(bytes, 8), 5), 8) == bytes
  {
    var s := Stream(bytes, 8);
    StreamLength(bytes, 8);
    var pad := (5 - |s| % 5) % 5;
    GroupsAppend(s, Zeros(pad), 8, |bytes|);
    assert Groups(Zeros(pad), 8) == [];
    assert Pow2(8) == 256 by { Pow2Add(4, 4); }
    GroupsOfStream(bytes, 8);
  }

  /**
   * The regrouping round trip behind `decode(encode(x)) == x`: bytes laid out,
   * zero-padded and cut into 5-bit groups, then laid out as 5-bit fields and cut
   * into bytes again, are the original bytes.
   */
  lemma RegroupRoundTrip(bytes: seq<nat>)
    requires AllBelow(bytes, 256)
    ensures Groups(Stream(Groups(Padded(Stream(bytes, 8), 5), 5), 5), 8) == bytes
  {
    RestreamPadded(Stream(bytes, 8));
    BytesOfPadded(bytes);
  }

  // ---- arithmetic on the accumulator ----

  lemma {:induction false} Pow2Add(a: nat, b: nat)
    ensures Pow2(a + b) == Pow2(a) * Pow2(b)
  {
    if a > 0 {
      Pow2Add(a - 1, b);
    }
  }

  lemma Pow2Of32()
    ensures Pow2(32) == 0x1_0000_0000
  {
    assert Pow2(2) == 4;
    Pow2Add(2, 2);
    Pow2Add(4, 4);
    Pow2Add(8, 8);
    Pow2Add(16, 16);
  }

  lemma DivModUnique(x: int, m: int, q: int, r: int)
    requires m > 0 && 0 <= r < m && x == q * m + r
    ensures x / m == q && x % m == r
  {
    var d := q - x / m;
    assert d * m == x % m - r;
  }

  lemma MulAssoc(a: int, b: int, c: int)
    ensures a * (c * b) == (a * b) * c
  {
  }

  lemma ModAddMultiple(x: int, m: int, k: int)
    requires m > 0
    ensures (x + k * m) % m == x % m
  {
    var q := x / m;
    assert x + k * m == (q + k) * m + x % m;
    DivModUnique(x + k * m, m, q + k, x % m);
  }

  lemma ModAddMultiples(x: int, k: int, m: int, n: int)
    requires m > 0
    ensures (x + k * (m * n)) % m == x % m
  {
    MulAssoc(k, n, m);
    assert k * (m * n) == (k * n) * m;
    ModAddMultiple(x, m, k * n);
  }

  lemma WrapIsShift(x: int) returns (k: int)
    ensures Wrap32(x) == x + k * 0x1_0000_0000
  {
    k := -((x + 0x8000_0000) / 0x1_0000_0000);
  }

  lemma ShiftInLow(acc: int, pb: int, pw: int, v: int)
    requires pb > 0 && pw > 0 && 0 <= v < pw
    ensures (acc * pw + v) % (pb * pw) == (acc % pb) * pw + v
  {
    var qa, ra := acc / pb, acc % pb;
    assert acc * pw == qa * (pb * pw) + ra * pw by {
      assert acc == qa * pb + ra;
      MulAssoc(qa, pw, pb);
    }
    assert ra * pw + v < pb * pw by {
      assert ra <= pb - 1;
      assert ra * pw <= (pb - 1) * pw;
    }
    DivModUnique(acc * pw + v, pb * pw, qa, ra * pw + v);
  }

  /**
   * `(acc shl w) or v` with `v < 2^w`: read through its low b + w bits it is
   * the low b bits of `acc` followed by `v`, whatever the wrap-around did above.
   */
  lemma ShiftIn(acc: Int32, b: nat, w: nat, v: nat)
    requires b + w <= 32 && v < Pow2(w)
    ensures (Shl(acc, w) + v) % Pow2(b + w) == (acc % Pow2(b)) * Pow2(w) + v
  {
    var pb, pw := Pow2(b), Pow2(w);
    Pow2Add(b, w);
    var k := WrapIsShift(acc * pw);
    Pow2Add(b + w, 32 - b - w);
    Pow2Of32();
    ModAddMultiples(acc * pw + v, k, pb * pw, Pow2(32 - b - w));
    ShiftInLow(acc, pb, pw, v);
  }

  /**
   * When the low c + w bits of `acc` are `hi` followed by `lo`,
   * `(acc shr c) and (2^w - 1)` is `hi` and the low c bits are `lo`.
   */
  lemma TakeBits(acc: Int32, c: nat, w: nat, hi: nat, lo: nat)
    requires hi < Pow2(w) && lo < Pow2(c)
    requires acc % Pow2(c + w) == hi * Pow2(c) + lo
    ensures ShrMask(acc, c, w) == hi
    ensures acc % Pow2(c) == lo
  {
    Pow2Add(c, w);
    SplitLow(acc, Pow2(c), Pow2(w), hi, lo);
  }

  lemma SplitLow(x: int, pc: int, pw: int, hi: int, lo: int)
    requires pc > 0 && pw > 0 && 0 <= hi < pw && 0 <= lo < pc
    requires x % (pc * pw) == hi * pc + lo
    ensures (x / pc) % pw == hi && x % pc == lo
  {
    var q := x / (pc * pw);
    assert x == q * (pc * pw) + hi * pc + lo;
    assert x == (q * pw + hi) * pc + lo by {
      MulAssoc(q, pc, pw);
    }
    DivModUnique(x, pc, q * pw + hi, lo);
    DivModUnique(q * pw + hi, pw, q, hi);
  }

  /** `(acc shl (5 - b)) and 31`: the low b bits of `acc` followed by 5 - b zero bits. */
  lemma PadBits(acc: Int32, b: nat)
    requires 0 < b < 5
    ensures Shl(acc, 5 - b) % Pow2(5) == (acc % Pow2(b)) * Pow2(5 - b)
  {
    ShiftIn(acc, b, 5 - b, 0);
  }

  lemma MultipleBelow(q: int, r: int, p: int)
    requires p > 0 && q * p < r * p
    ensures q * p + p <= r * p
  {
    var d := r - q;
    assert d * p == r * p - q * p;
    assert d >= 1;
    assert d * p >= 1 * p;
  }

  /**
   * `(acc shl w) or v` never leaves the `Int` range: after the shift the low
   * w bits are zero, so adding `v < 2^w` is the same as or-ing it in.
   */
  lemma ShlRoom(acc: Int32, w: nat, v: nat)
    requires 0 < w <= 31 && v < Pow2(w)
    ensures Shl(acc, w) + v < 0x8000_0000
  {
    var pw, high, room := Pow2(w), Pow2(32 - w), Pow2(31 - w);
    Pow2Add(w, 32 - w);
    Pow2Add(w, 31 - w);
    Pow2Of32();
    assert pw * room == 0x8000_0000;
    var k := WrapIsShift(acc * pw);
    var q := acc + k * high;
    Factor(acc, k, pw, high);
    assert Shl(acc, w) == q * pw;
    MultipleBelow(q, room, pw);
  }

  lemma Factor(a: int, k: int, p: int, h: int)
    ensures a * p + k * (p * h) == (a + k * h) * p
  {
    MulAssoc(k, h, p);
  }

  // ---- one step of the regrouping loops ----
  // The loops keep `m` complete output groups of width `tw` and `bits` pending
  // bits of the stream S read so far; the pending bits are the low bits of `acc`.

  /** Taking the top `tw` pending bits out of `acc` emits the next group. */
  lemma EmitStep(S: seq<bool>, m: nat, bits: nat, acc: Int32, tw: nat)
    requires 0 < tw <= bits
    requires |S| == tw * m + bits
    requires acc % Pow2(bits) == Val(S[tw * m..])
    ensures tw * (m + 1) <= |S|
    ensures Groups(S[..tw * (m + 1)], tw) == Groups(S[..tw * m], tw) + [ShrMask(acc, bits - tw, tw)]
    ensures acc % Pow2(bits - tw) == Val(S[tw * (m + 1)..])
  {
    var n := tw * m;
    assert tw * (m + 1) == n + tw;
    var T := S[n..];
    EmitValue(T, acc, tw, bits);
    var P := S[..n + tw];
    assert P[..n] == S[..n] && P[n..] == T[..tw] && T[tw..] == S[n + tw..];
    EmitGroups(P, n, m, tw);
  }

  lemma EmitValue(T: seq<bool>, acc: Int32, tw: nat, bits: nat)
    requires 0 < tw <= bits && |T| == bits
    requires acc % Pow2(bits) == Val(T)
    ensures ShrMask(acc, bits - tw, tw) == Val(T[..tw])
    ensures acc % Pow2(bits - tw) == Val(T[tw..])
  {
    var hi, lo := T[..tw], T[tw..];
    assert T == hi + lo;
    ValAppend(hi, lo);
    ValBound(hi);
    ValBound(lo);
    assert bits - tw + tw == bits;
    TakeBits(acc, bits - tw, tw, Val(hi), Val(lo));
  }

  lemma EmitGroups(P: seq<bool>, n: nat, m: nat, tw: nat)
    requires tw > 0 && n == tw * m && |P| == n + tw
    ensures Groups(P, tw) == Groups(P[..n], tw) + [Val(P[n..])]
  {
    var hi := P[n..];
    assert P == P[..n] + hi;
    assert |P[..n]| == m * tw;
    GroupsAppend(P[..n], hi, tw, m);
    assert hi[..tw] == hi && hi[tw..] == [];
    assert Groups(hi, tw) == [Val(hi)];
  }

  /** Shifting a `fw`-bit value into `acc` appends its bits to the pending ones. */
  lemma PushStep(S: seq<bool>, n: nat, bits: nat, acc: Int32, fw: nat, v: nat)
    requires bits + fw <= 32 && v < Pow2(fw)
    requires |S| == n + bits
    requires acc % Pow2(bits) == Val(S[n..])
    ensures (S + Bits(v, fw))[..n] == S[..n]
    ensures (Shl(acc, fw) + v) % Pow2(bits + fw) == Val((S + Bits(v, fw))[n..])
  {
    var b := Bits(v, fw);
    assert (S + b)[..n] == S[..n];
    var x := Val(S[n..]);
    assert Val((S + b)[n..]) == x * Pow2(fw) + v by {
      assert (S + b)[n..] == S[n..] + b;
      ValAppend(S[n..], b);
      ValOfBits(v, fw);
    }
    ShiftIn(acc, bits, fw, v);
  }

  lemma StreamSnoc(data: seq<nat>, i: nat, w: nat)
    requires i < |data|
    ensures Stream(data[..i + 1], w) == Stream(data[..i], w) + Bits(data[i], w)
  {
    assert data[..i + 1][..i] == data[..i];
  }

  /**
   * One turn of the outer loop: `acc = (acc shl fw) or value` stays an `Int`
   * and holds the pending bits of the stream extended by `value`.
   */
  lemma PushValue(data: seq<nat>, i: nat, m: nat, bits: nat, acc: Int32, tw: nat, fw: nat)
    requires i < |data| && data[i] < Pow2(fw)
    requires 0 < fw <= 31 && bits + fw <= 32
    requires |Stream(data[..i], fw)| == tw * m + bits
    requires acc % Pow2(bits) == Val(Stream(data[..i], fw)[tw * m..])
    ensures Shl(acc, fw) + data[i] < 0x8000_0000
    ensures |Stream(data[..i + 1], fw)| == tw * m + bits + fw
    ensures Stream(data[..i + 1], fw)[..tw * m] == Stream(data[..i], fw)[..tw * m]
    ensures (Shl(acc, fw) + data[i]) % Pow2(bits + fw) == Val(Stream(data[..i + 1], fw)[tw * m..])
  {
    StreamSnoc(data, i, fw);
    PushStep(Stream(data[..i], fw), tw * m, bits, acc, fw, data[i]);
    ShlRoom(acc, fw, data[i]);
  }

  /**
   * The state of a regrouping loop over the stream S read so far: `out` holds
   * its complete `tw`-bit groups and the low `bits` bits of `acc` are the rest.
   */
  ghost predicate Regrouping(S: seq<bool>, out: seq<nat>, bits: nat, acc: Int32, tw: nat) {
    tw > 0 && |S| == tw * |out| + bits &&
    out == Groups(S[..tw * |out|], tw) && acc % Pow2(bits) == Val(S[tw * |out|..])
  }

  /** `acc = (acc shl fw) or data[i]` keeps the loop state, reading one more field. */
  lemma PushInto(data: seq<nat>, i: nat, out: seq<nat>, bits: nat, acc: Int32, tw: nat, fw: nat)
    requires i < |data| && data[i] < Pow2(fw)
    requires 0 < fw <= 31 && bits + fw <= 32
    requires Regrouping(Stream(data[..i], fw), out, bits, acc, tw)
    ensures Shl(acc, fw) + data[i] < 0x8000_0000
    ensures Regrouping(Stream(data[..i + 1], fw), out, bits + fw, Shl(acc, fw) + data[i], tw)
  {
    PushValue(data, i, |out|, bits, acc, tw, fw);
  }

  /** Emitting `(acc shr (bits - tw)) and (2^tw - 1)` keeps the loop state. */
  lemma EmitInto(S: seq<bool>, out: seq<nat>, bits: nat, acc: Int32, tw: nat)
    requires Regrouping(S, out, bits, acc, tw) && bits >= tw
    ensures Regrouping(S, out + [ShrMask(acc, bits - tw, tw)], bits - tw, acc, tw)
  {
    EmitStep(S, |out|, bits, acc, tw);
    assert tw * |out + [ShrMask(acc, bits - tw, tw)]| == tw * (|out| + 1);
  }

  /** At the end of encoding, the groups emitted and the padded pending bits are the groups of the padded stream. */
  lemma PadInto(S: seq<bool>, out: seq<nat>, bits: nat, acc: Int32)
    requires Regrouping(S, out, bits, acc, 5) && bits < 5
    ensures bits > 0 ==> Shl(acc, 5 - bits) % 32 == Shl(acc, 5 - bits) % Pow2(5)
    ensures Groups(Padded(S, 5), 5) == out + (if bits > 0 then [Shl(acc, 5 - bits) % 32] else [])
  {
    PadStep(S, |out|, bits, acc);
    assert Pow2(5) == 32;
  }

  /** At the end of decoding, fewer than `tw` pending bits add no group. */
  lemma DropInto(S: seq<bool>, out: seq<nat>, bits: nat, acc: Int32, tw: nat)
    requires Regrouping(S, out, bits, acc, tw) && bits < tw
    ensures Groups(S, tw) == out
  {
    DropPartial(S, |out|, bits, tw);
  }

  /** Fewer than `tw` pending bits form no further group. */
  lemma DropPartial(S: seq<bool>, m: nat, bits: nat, tw: nat)
    requires 0 <= bits < tw && |S| == tw * m + bits
    ensures Groups(S, tw) == Groups(S[..tw * m], tw)
  {
    assert S == S[..tw * m] + S[tw * m..];
    GroupsAppend(S[..tw * m], S[tw * m..], tw, m);
  }

  /**
   * The last step of encoding: pending bits, if any, shifted up to a full
   * 5-bit group, are the last group of the zero-padded stream.
   */
  lemma PadStep(S: seq<bool>, m: nat, bits: nat, acc: Int32)
    requires bits < 5 && |S| == 5 * m + bits
    requires acc % Pow2(bits) == Val(S[5 * m..])
    ensures Groups(Padded(S, 5), 5)
         == Groups(S[..5 * m], 5) + (if bits > 0 then [Shl(acc, 5 - bits) % Pow2(5)] else [])
  {
    var n := 5 * m;
    DivModUnique(|S|, 5, m, bits);
    var T := S[n..];
    if bits == 0 {
      assert Padded(S, 5) == S[..n] + [];
      GroupsAppend(S[..n], [], 5, m);
    } else {
      var Z := Zeros(5 - bits);
      assert |T + Z| == 5;
      assert Padded(S, 5) == S[..n] + (T + Z);
      GroupsAppend(S[..n], T + Z, 5, m);
      assert (T + Z)[..5] == T + Z;
      assert Groups(T + Z, 5) == [Val(T + Z)] + Groups((T + Z)[5..], 5);
      ValAppend(T, Z);
      ValZeros(5 - bits);
      PadBits(acc, bits);
    }
  }
}
