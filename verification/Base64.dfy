/** Base64 without padding, as Go's RawStdEncoding does it: sections 3.2 and 4 of RFC 4648.
    Decoding skips CR and LF and tolerates non-zero trailing bits (section 3.5). */
module Base64 {
  import opened Wrappers

  type byte = x: int | 0 <= x < 256
  type sextet = x: int | 0 <= x < 64

  // ----- the alphabet

  function ToChar(v: sextet): char {
    if v < 26 then 'A' + v as char
    else if v < 52 then 'a' + (v - 26) as char
    else if v < 62 then '0' + (v - 52) as char
    else if v == 62 then '+' else '/'
  }

  predicate InAlphabet(c: char) {
    'A' <= c <= 'Z' || 'a' <= c <= 'z' || '0' <= c <= '9' || c == '+' || c == '/'
  }

  function FromChar(c: char): sextet
    requires InAlphabet(c)
  {
    if 'A' <= c <= 'Z' then (c - 'A') as int
    else if 'a' <= c <= 'z' then (c - 'a') as int + 26
    else if '0' <= c <= '9' then (c - '0') as int + 52
    else if c == '+' then 62 else 63
  }

  lemma AlphabetRoundTrip(v: sextet, c: char)
    ensures InAlphabet(ToChar(v)) && FromChar(ToChar(v)) == v
    ensures InAlphabet(c) ==> ToChar(FromChar(c)) == c
  {
  }

  lemma {:induction false} Consecutive(s: string, i: nat)
    requires i < |s| && s[0] as int + |s| < 128
    requires forall k :: 0 < k < |s| ==> s[k] as int == s[k - 1] as int + 1
    ensures s[i] == s[0] + i as char
  {
    if i > 0 {
      Consecutive(s, i - 1);
    }
  }

  lemma UpperCase(i: nat)
    requires i < 26
    ensures "ABCDEFGHIJKLMNOPQRSTUVWXYZ"[i] == 'A' + i as char
  {
    Consecutive("ABCDEFGHIJKLMNOPQRSTUVWXYZ", i);
  }

  lemma LowerCase(i: nat)
    requires i < 26
    ensures "abcdefghijklmnopqrstuvwxyz"[i] == 'a' + i as char
  {
    Consecutive("abcdefghijklmnopqrstuvwxyz", i);
  }

  lemma TableParts()
    ensures "ABCDEFGHIJKLMNOPQRSTUVWXYZabcdefghijklmnopqrstuvwxyz0123456789+/"
         == "ABCDEFGHIJKLMNOPQRSTUVWXYZ" + "abcdefghijklmnopqrstuvwxyz" + "0123456789" + "+/"
  {
  }

  lemma InParts(upper: string, lower: string, digits: string, v: sextet)
    requires |upper| == 26 && |lower| == 26 && |digits| == 10
    requires v < 26 ==> upper[v] == 'A' + v as char
    requires 26 <= v < 52 ==> lower[v - 26] == 'a' + (v - 26) as char
    requires 52 <= v < 62 ==> digits[v - 52] == '0' + (v - 52) as char
    ensures (upper + lower + digits + "+/")[v] == ToChar(v)
  {
  }

  /** Table 1 of RFC 4648: the character of each value, and the value of each character. */
  lemma AlphabetIsTheTable(v: sextet, c: char)
    ensures ToChar(v) == "ABCDEFGHIJKLMNOPQRSTUVWXYZabcdefghijklmnopqrstuvwxyz0123456789+/"[v]
    ensures InAlphabet(c) ==> (FromChar(c) == v <==> ToChar(v) == c)
  {
    if v < 26 {
      UpperCase(v);
    } else if v < 52 {
      LowerCase(v - 26);
    }
    InParts("ABCDEFGHIJKLMNOPQRSTUVWXYZ", "abcdefghijklmnopqrstuvwxyz", "0123456789", v);
    TableParts();
    AlphabetRoundTrip(v, c);
  }

  // ----- groups of three bytes and four sextets

  function Sextet0(a: byte): sextet { a / 4 }

  function Sextet1(a: byte, b: byte): sextet { a as int % 4 * 16 + b as int / 16 }

  function Sextet2(b: byte, c: byte): sextet { b as int % 16 * 4 + c as int / 64 }

  function Sextet3(c: byte): sextet { c % 64 }

  function Byte0(a: sextet, b: sextet): byte { a as int * 4 + b as int / 16 }

  function Byte1(b: sextet, c: sextet): byte { b as int % 16 * 16 + c as int / 4 }

  function Byte2(c: sextet, d: sextet): byte { c as int % 4 * 64 + d as int }

  function EncodeSextets(b: seq<byte>): seq<sextet> {
    if |b| == 0 then []
    else if |b| == 1 then [Sextet0(b[0]), Sextet1(b[0], 0)]
    else if |b| == 2 then [Sextet0(b[0]), Sextet1(b[0], b[1]), Sextet2(b[1], 0)]
    else [Sextet0(b[0]), Sextet1(b[0], b[1]), Sextet2(b[1], b[2]), Sextet3(b[2])] + EncodeSextets(b[3..])
  }

  function DecodeSextets(q: seq<sextet>): Option<seq<byte>> {
    if |q| == 0 then Some([])
    else if |q| == 1 then None
    else if |q| == 2 then Some([Byte0(q[0], q[1])])
    else if |q| == 3 then Some([Byte0(q[0], q[1]), Byte1(q[1], q[2])])
    else
      match DecodeSextets(q[4..])
      case None => None
      case Some(rest) => Some([Byte0(q[0], q[1]), Byte1(q[1], q[2]), Byte2(q[2], q[3])] + rest)
  }

  // Arithmetic of one group, one fact at a time.

  lemma FirstByteBack(a: byte, b: byte)
    ensures Byte0(Sextet0(a), Sextet1(a, b)) == a
  {
  }

  lemma DivMod(hi: nat, lo: nat, base: nat)
    requires lo < base && (base == 4 || base == 16 || base == 64)
    ensures (hi * base + lo) / base == hi && (hi * base + lo) % base == lo
  {
  }

  lemma SecondByteBack(a: byte, b: byte, c: byte)
    ensures Byte1(Sextet1(a, b), Sextet2(b, c)) == b
  {
    DivMod(a as int % 4, b as int / 16, 16);
    DivMod(b as int % 16, c as int / 64, 4);
  }

  lemma ThirdByteBack(b: byte, c: byte)
    ensures Byte2(Sextet2(b, c), Sextet3(c)) == c
  {
  }

  lemma FirstSextetBack(p: sextet, q: sextet)
    ensures Sextet0(Byte0(p, q)) == p
  {
  }

  lemma SecondSextetBack(p: sextet, q: sextet, r: sextet)
    ensures Sextet1(Byte0(p, q), Byte1(q, r)) == q
  {
    DivMod(p, q as int / 16, 4);
    DivMod(q as int % 16, r as int / 4, 16);
  }

  lemma SecondSextetShort(p: sextet, q: sextet)
    ensures Sextet1(Byte0(p, q), 0) == q <==> q % 16 == 0
  {
    DivMod(p, q as int / 16, 4);
  }

  lemma ThirdSextetBack(q: sextet, r: sextet, s: sextet)
    ensures Sextet2(Byte1(q, r), Byte2(r, s)) == r
  {
    DivMod(q as int % 16, r as int / 4, 16);
    DivMod(r as int % 4, s, 64);
  }

  lemma ThirdSextetShort(q: sextet, r: sextet)
    ensures Sextet2(Byte1(q, r), 0) == r <==> r % 4 == 0
  {
    DivMod(q as int % 16, r as int / 4, 16);
  }

  lemma FourthSextetBack(r: sextet, s: sextet)
    ensures Sextet3(Byte2(r, s)) == s
  {
  }

  // The short groups, unfolded.

  lemma EncodeOne(a: byte)
    ensures EncodeSextets([a]) == [Sextet0(a), Sextet1(a, 0)]
  {
  }

  lemma EncodeTwo(a: byte, b: byte)
    ensures EncodeSextets([a, b]) == [Sextet0(a), Sextet1(a, b), Sextet2(b, 0)]
  {
  }

  lemma DecodeTwo(p: sextet, q: sextet)
    ensures DecodeSextets([p, q]) == Some([Byte0(p, q)])
  {
  }

  lemma DecodeThree(p: sextet, q: sextet, r: sextet)
    ensures DecodeSextets([p, q, r]) == Some([Byte0(p, q), Byte1(q, r)])
  {
  }

  lemma OneByteRoundTrip(a: byte)
    ensures DecodeSextets(EncodeSextets([a])) == Some([a])
  {
    EncodeOne(a);
    DecodeTwo(Sextet0(a), Sextet1(a, 0));
    FirstByteBack(a, 0);
  }

  lemma TwoByteRoundTrip(a: byte, b: byte)
    ensures DecodeSextets(EncodeSextets([a, b])) == Some([a, b])
  {
    EncodeTwo(a, b);
    DecodeThree(Sextet0(a), Sextet1(a, b), Sextet2(b, 0));
    FirstByteBack(a, b);
    SecondByteBack(a, b, 0);
  }

  lemma OneByteDecodes(b: seq<byte>)
    requires |b| == 1
    ensures DecodeSextets(EncodeSextets(b)) == Some(b)
  {
    assert b == [b[0]];
    OneByteRoundTrip(b[0]);
  }

  lemma TwoBytesDecode(b: seq<byte>)
    requires |b| == 2
    ensures DecodeSextets(EncodeSextets(b)) == Some(b)
  {
    assert b == [b[0], b[1]];
    TwoByteRoundTrip(b[0], b[1]);
  }

  lemma EncodeFull(b: seq<byte>)
    requires |b| >= 3
    ensures EncodeSextets(b)
      == [Sextet0(b[0]), Sextet1(b[0], b[1]), Sextet2(b[1], b[2]), Sextet3(b[2])] + EncodeSextets(b[3..])
  {
  }

  lemma DecodeFull(p: sextet, q: sextet, r: sextet, s: sextet, rest: seq<sextet>)
    requires DecodeSextets(rest).Some?
    ensures DecodeSextets([p, q, r, s] + rest)
      == Some([Byte0(p, q), Byte1(q, r), Byte2(r, s)] + DecodeSextets(rest).value)
  {
    assert ([p, q, r, s] + rest)[4..] == rest;
  }

  lemma GroupRoundTrip(a: byte, b: byte, c: byte, rest: seq<byte>, q: seq<sextet>)
    requires DecodeSextets(q) == Some(rest)
    ensures DecodeSextets([Sextet0(a), Sextet1(a, b), Sextet2(b, c), Sextet3(c)] + q) == Some([a, b, c] + rest)
  {
    DecodeFull(Sextet0(a), Sextet1(a, b), Sextet2(b, c), Sextet3(c), q);
    FirstByteBack(a, b);
    SecondByteBack(a, b, c);
    ThirdByteBack(b, c);
  }

  lemma FullGroupDecodes(b: seq<byte>, q: seq<sextet>)
    requires |b| >= 3 && DecodeSextets(q) == Some(b[3..])
    ensures DecodeSextets([Sextet0(b[0]), Sextet1(b[0], b[1]), Sextet2(b[1], b[2]), Sextet3(b[2])] + q) == Some(b)
  {
    GroupRoundTrip(b[0], b[1], b[2], b[3..], q);
    assert b == [b[0], b[1], b[2]] + b[3..];
  }

  lemma {:induction false} DecodeEncodeSextets(b: seq<byte>)
    ensures DecodeSextets(EncodeSextets(b)) == Some(b)
  {
    if |b| == 1 {
      OneByteDecodes(b);
    } else if |b| == 2 {
      TwoBytesDecode(b);
    } else if |b| >= 3 {
      DecodeEncodeSextets(b[3..]);
      EncodeFull(b);
      FullGroupDecodes(b, EncodeSextets(b[3..]));
    }
  }

  /** The unused low bits of the last sextet. */
  predicate TrailingBitsAreZero(q: seq<sextet>) {
    && (|q| % 4 == 2 ==> q[|q| - 1] % 16 == 0)
    && (|q| % 4 == 3 ==> q[|q| - 1] % 4 == 0)
  }

  /** How many bytes so many sextets hold; one left over holds none and is an error. */
  function DecodedLength(n: nat): nat {
    6 * n / 8
  }

  predicate IsDecodedLength(n: nat, length: nat) {
    n % 4 != 1 && length == DecodedLength(n)
  }

  lemma FourMoreSextets(n: nat, length: nat)
    ensures IsDecodedLength(n + 4, length + 3) <==> IsDecodedLength(n, length)
    ensures (n + 4) % 4 == n % 4
  {
  }

  lemma FewSextets(n: nat, length: nat)
    requires n < 4
    ensures IsDecodedLength(n, length) <==> n != 1 && length == if n == 0 then 0 else n - 1
  {
  }

  lemma FullGroupLength(q: seq<sextet>)
    requires |q| >= 4
    ensures DecodeSextets(q).Some? <==> DecodeSextets(q[4..]).Some?
    ensures DecodeSextets(q).Some? ==> |DecodeSextets(q).value| == |DecodeSextets(q[4..]).value| + 3
  {
  }

  lemma ShortGroupLength(q: seq<sextet>)
    requires |q| < 4
    ensures DecodeSextets(q).Some? <==> |q| != 1
    ensures DecodeSextets(q).Some? ==> |DecodeSextets(q).value| == if |q| == 0 then 0 else |q| - 1
  {
  }

  lemma {:induction false} DecodeSextetsLength(q: seq<sextet>)
    ensures DecodeSextets(q).Some? <==> |q| % 4 != 1
    ensures DecodeSextets(q).Some? ==> IsDecodedLength(|q|, |DecodeSextets(q).value|)
  {
    if |q| >= 4 {
      var rest := q[4..];
      DecodeSextetsLength(rest);
      FullGroupLength(q);
      FourMoreSextets(|rest|, if DecodeSextets(rest).Some? then |DecodeSextets(rest).value| else 0);
    } else {
      ShortGroupLength(q);
      FewSextets(|q|, if DecodeSextets(q).Some? then |DecodeSextets(q).value| else 0);
    }
  }

  lemma FullGroupBack(q: seq<sextet>)
    requires |q| >= 4 && DecodeSextets(q).Some?
    ensures EncodeSextets(DecodeSextets(q).value) == q[..4] + EncodeSextets(DecodeSextets(q[4..]).value)
  {
    var b := DecodeSextets(q).value;
    FirstSextetBack(q[0], q[1]);
    SecondSextetBack(q[0], q[1], q[2]);
    ThirdSextetBack(q[1], q[2], q[3]);
    FourthSextetBack(q[2], q[3]);
    assert b[3..] == DecodeSextets(q[4..]).value;
    assert q[..4] == [q[0], q[1], q[2], q[3]];
  }

  lemma TwoSextetsBack(p: sextet, q: sextet)
    ensures EncodeSextets(DecodeSextets([p, q]).value) == [p, q] <==> q % 16 == 0
  {
    DecodeTwo(p, q);
    EncodeOne(Byte0(p, q));
    FirstSextetBack(p, q);
    SecondSextetShort(p, q);
    SameLast([p], Sextet1(Byte0(p, q), 0), q);
  }

  lemma ThreeSextetsBack(p: sextet, q: sextet, r: sextet)
    ensures EncodeSextets(DecodeSextets([p, q, r]).value) == [p, q, r] <==> r % 4 == 0
  {
    DecodeThree(p, q, r);
    EncodeTwo(Byte0(p, q), Byte1(q, r));
    FirstSextetBack(p, q);
    SecondSextetBack(p, q, r);
    ThirdSextetShort(q, r);
    SameLast([p, q], Sextet2(Byte1(q, r), 0), r);
  }

  lemma SameLast(start: seq<sextet>, x: sextet, y: sextet)
    ensures start + [x] == start + [y] <==> x == y
  {
    assert (start + [x])[|start|] == x;
    assert (start + [y])[|start|] == y;
  }

  lemma TwoSextetsEncode(q: seq<sextet>)
    requires |q| == 2
    ensures EncodeSextets(DecodeSextets(q).value) == q <==> q[1] % 16 == 0
  {
    assert q == [q[0], q[1]];
    TwoSextetsBack(q[0], q[1]);
  }

  lemma ThreeSextetsEncode(q: seq<sextet>)
    requires |q| == 3
    ensures EncodeSextets(DecodeSextets(q).value) == q <==> q[2] % 4 == 0
  {
    assert q == [q[0], q[1], q[2]];
    ThreeSextetsBack(q[0], q[1], q[2]);
  }

  lemma TrailingBitsOfRest(q: seq<sextet>)
    requires |q| >= 4
    ensures TrailingBitsAreZero(q) <==> TrailingBitsAreZero(q[4..])
  {
    if |q| > 4 {
      assert q[4..][|q| - 5] == q[|q| - 1];
    }
  }

  lemma FullGroupEncodes(q: seq<sextet>)
    requires |q| >= 4 && DecodeSextets(q).Some?
    requires EncodeSextets(DecodeSextets(q[4..]).value) == q[4..] <==> TrailingBitsAreZero(q[4..])
    ensures EncodeSextets(DecodeSextets(q).value) == q <==> TrailingBitsAreZero(q)
  {
    FullGroupBack(q);
    TrailingBitsOfRest(q);
    var rest := EncodeSextets(DecodeSextets(q[4..]).value);
    assert q == q[..4] + q[4..];
    assert (q[..4] + rest)[4..] == rest;
  }

  /** Encoding what was decoded gives the same sextets back exactly when the trailing bits are zero. */
  lemma {:induction false} EncodeDecodeSextets(q: seq<sextet>)
    requires DecodeSextets(q).Some?
    ensures EncodeSextets(DecodeSextets(q).value) == q <==> TrailingBitsAreZero(q)
  {
    if |q| == 2 {
      TwoSextetsEncode(q);
    } else if |q| == 3 {
      ThreeSextetsEncode(q);
    } else if |q| >= 4 {
      EncodeDecodeSextets(q[4..]);
      FullGroupEncodes(q);
    }
  }

  // ----- the standard's own definition, by bits

  /** The `width` low bits of a number, most significant first. */
  function Bits(v: nat, width: nat): (bits: seq<bool>)
    ensures |bits| == width
  {
    if width == 0 then [] else Bits(v / 2, width - 1) + [v % 2 == 1]
  }

  function ByteBits(b: seq<byte>): (bits: seq<bool>)
    ensures |bits| == 8 * |b|
  {
    if b == [] then [] else Bits(b[0], 8) + ByteBits(b[1..])
  }

  function SextetBits(q: seq<sextet>): (bits: seq<bool>)
    ensures |bits| == 6 * |q|
  {
    if q == [] then [] else Bits(q[0], 6) + SextetBits(q[1..])
  }

  function Pow2(n: nat): nat {
    if n == 0 then 1 else 2 * Pow2(n - 1)
  }

  lemma {:induction false} BitsConcat(hi: nat, lo: nat, m: nat, n: nat)
    requires lo < Pow2(n)
    ensures Bits(hi * Pow2(n) + lo, m + n) == Bits(hi, m) + Bits(lo, n)
  {
    if n == 0 {
      assert Bits(hi, m) + [] == Bits(hi, m);
    } else {
      var v := hi * Pow2(n) + lo;
      assert v == 2 * (hi * Pow2(n - 1)) + lo;
      assert v / 2 == hi * Pow2(n - 1) + lo / 2 && v % 2 == lo % 2;
      BitsConcat(hi, lo / 2, m, n - 1);
      assert Bits(v, m + n) == Bits(hi, m) + Bits(lo / 2, n - 1) + [lo % 2 == 1];
    }
  }

  lemma SplitBits(v: nat, hi: nat, lo: nat, m: nat, n: nat, power: nat)
    requires Pow2(n) == power && v == hi * power + lo && lo < power
    ensures Bits(v, m + n) == Bits(hi, m) + Bits(lo, n)
  {
    BitsConcat(hi, lo, m, n);
  }

  lemma Powers()
    ensures Pow2(2) == 4 && Pow2(4) == 16 && Pow2(6) == 64
  {
    assert Pow2(3) == 2 * Pow2(2) && Pow2(4) == 2 * Pow2(3) && Pow2(5) == 2 * Pow2(4);
  }

  // How the bits of one group are shared out.

  lemma FirstBits(a: byte, b: byte)
    ensures Bits(Sextet0(a), 6) + Bits(a % 4, 2) == Bits(a, 8)
    ensures Bits(Sextet1(a, b), 6) == Bits(a % 4, 2) + Bits(b / 16, 4)
  {
    Powers();
    SplitBits(a, a / 4, a % 4, 6, 2, 4);
    SplitBits(Sextet1(a, b), a % 4, b / 16, 2, 4, 16);
  }

  lemma SecondBits(b: byte, c: byte)
    ensures Bits(b / 16, 4) + Bits(b % 16, 4) == Bits(b, 8)
    ensures Bits(Sextet2(b, c), 6) == Bits(b % 16, 4) + Bits(c / 64, 2)
  {
    Powers();
    SplitBits(b, b / 16, b % 16, 4, 4, 16);
    SplitBits(Sextet2(b, c), b % 16, c / 64, 4, 2, 4);
  }

  lemma ThirdBits(c: byte)
    ensures Bits(c / 64, 2) + Bits(Sextet3(c), 6) == Bits(c, 8)
  {
    Powers();
    SplitBits(c, c / 64, c % 64, 2, 6, 64);
  }

  lemma Regroup(u: seq<bool>, v: seq<bool>, w: seq<bool>, x: seq<bool>, y: seq<bool>, z: seq<bool>)
    ensures u + (v + w) + (x + y) + z == (u + v) + (w + x) + (y + z)
  {
  }

  lemma GroupBits(a: byte, b: byte, c: byte)
    ensures Bits(Sextet0(a), 6) + Bits(Sextet1(a, b), 6) + Bits(Sextet2(b, c), 6) + Bits(Sextet3(c), 6)
      == Bits(a, 8) + Bits(b, 8) + Bits(c, 8)
  {
    FirstBits(a, b);
    SecondBits(b, c);
    ThirdBits(c);
    Regroup(Bits(Sextet0(a), 6), Bits(a % 4, 2), Bits(b / 16, 4), Bits(b % 16, 4), Bits(c / 64, 2), Bits(Sextet3(c), 6));
  }

  function Zeros(n: nat): (bits: seq<bool>)
    ensures |bits| == n
  {
    seq(n, _ => false)
  }

  lemma {:induction false} SextetBitsConcat(p: seq<sextet>, q: seq<sextet>)
    ensures SextetBits(p + q) == SextetBits(p) + SextetBits(q)
  {
    if p == [] {
      assert p + q == q;
    } else {
      assert (p + q)[1..] == p[1..] + q;
      SextetBitsConcat(p[1..], q);
    }
  }

  lemma {:induction false} ByteBitsConcat(a: seq<byte>, b: seq<byte>)
    ensures ByteBits(a + b) == ByteBits(a) + ByteBits(b)
  {
    if a == [] {
      assert a + b == b;
    } else {
      assert (a + b)[1..] == a[1..] + b;
      ByteBitsConcat(a[1..], b);
    }
  }

  lemma OneSextet(v: sextet)
    ensures SextetBits([v]) == Bits(v, 6)
  {
  }

  lemma OneByte(v: byte)
    ensures ByteBits([v]) == Bits(v, 8)
  {
  }

  lemma TwoSextets(p: sextet, q: sextet)
    ensures SextetBits([p, q]) == Bits(p, 6) + Bits(q, 6)
  {
    OneSextet(p);
    OneSextet(q);
    SextetBitsConcat([p], [q]);
    assert [p] + [q] == [p, q];
  }

  lemma TwoBytes(a: byte, b: byte)
    ensures ByteBits([a, b]) == Bits(a, 8) + Bits(b, 8)
  {
    OneByte(a);
    OneByte(b);
    ByteBitsConcat([a], [b]);
    assert [a] + [b] == [a, b];
  }

  lemma FullGroup(a: byte, b: byte, c: byte)
    ensures SextetBits([Sextet0(a), Sextet1(a, b), Sextet2(b, c), Sextet3(c)]) == ByteBits([a, b, c])
  {
    var p, q, r, s := Sextet0(a), Sextet1(a, b), Sextet2(b, c), Sextet3(c);
    TwoSextets(p, q);
    TwoSextets(r, s);
    SextetBitsConcat([p, q], [r, s]);
    assert [p, q] + [r, s] == [p, q, r, s];
    TwoBytes(a, b);
    OneByte(c);
    ByteBitsConcat([a, b], [c]);
    assert [a, b] + [c] == [a, b, c];
    GroupBits(a, b, c);
  }

  lemma ShortGroupOfOne(a: byte)
    ensures SextetBits([Sextet0(a), Sextet1(a, 0)]) == ByteBits([a]) + Zeros(4)
  {
    TwoSextets(Sextet0(a), Sextet1(a, 0));
    FirstBits(a, 0);
    OneByte(a);
    assert Bits(0, 4) == Zeros(4);
  }

  lemma ShortGroupOfTwo(a: byte, b: byte)
    ensures SextetBits([Sextet0(a), Sextet1(a, b), Sextet2(b, 0)]) == ByteBits([a, b]) + Zeros(2)
  {
    var p, q, r := Sextet0(a), Sextet1(a, b), Sextet2(b, 0);
    TwoSextets(p, q);
    OneSextet(r);
    SextetBitsConcat([p, q], [r]);
    assert [p, q] + [r] == [p, q, r];
    TwoBytes(a, b);
    FirstBits(a, b);
    SecondBits(b, 0);
    assert Bits(0, 2) == Zeros(2);
    Regroup(Bits(p, 6), Bits(a % 4, 2), Bits(b / 16, 4), Bits(b % 16, 4), Zeros(2), []);
    assert ByteBits([a, b]) + (Zeros(2) + []) == ByteBits([a, b]) + Zeros(2);
  }

  /** The encoding is the bit string of the bytes, padded with fewer than six zeros to whole sextets. */
  lemma {:induction false} EncodingIsTheBitString(b: seq<byte>)
    ensures |EncodeSextets(b)| == (8 * |b| + 5) / 6
    ensures SextetBits(EncodeSextets(b)) == ByteBits(b) + Zeros(6 * |EncodeSextets(b)| - 8 * |b|)
  {
    if |b| == 1 {
      ShortGroupOfOne(b[0]);
      assert b == [b[0]];
    } else if |b| == 2 {
      ShortGroupOfTwo(b[0], b[1]);
      assert b == [b[0], b[1]];
    } else if |b| >= 3 {
      var q := [Sextet0(b[0]), Sextet1(b[0], b[1]), Sextet2(b[1], b[2]), Sextet3(b[2])];
      EncodingIsTheBitString(b[3..]);
      FullGroup(b[0], b[1], b[2]);
      SextetBitsConcat(q, EncodeSextets(b[3..]));
      ByteBitsConcat([b[0], b[1], b[2]], b[3..]);
      assert b == [b[0], b[1], b[2]] + b[3..];
    }
  }

  lemma FirstByteBits(p: sextet, q: sextet)
    ensures Bits(Byte0(p, q), 8) == Bits(p, 6) + Bits(q / 16, 2)
    ensures Bits(q, 6) == Bits(q / 16, 2) + Bits(q % 16, 4)
  {
    Powers();
    SplitBits(Byte0(p, q), p, q / 16, 6, 2, 4);
    SplitBits(q, q / 16, q % 16, 2, 4, 16);
  }

  lemma SecondByteBits(q: sextet, r: sextet)
    ensures Bits(Byte1(q, r), 8) == Bits(q % 16, 4) + Bits(r / 4, 4)
    ensures Bits(r, 6) == Bits(r / 4, 4) + Bits(r % 4, 2)
  {
    Powers();
    SplitBits(Byte1(q, r), q % 16, r / 4, 4, 4, 16);
    SplitBits(r, r / 4, r % 4, 4, 2, 4);
  }

  lemma FullGroupOfBytes(p: sextet, q: sextet, r: sextet, s: sextet)
    ensures ByteBits([Byte0(p, q), Byte1(q, r), Byte2(r, s)]) == SextetBits([p, q, r, s])
  {
    FullGroup(Byte0(p, q), Byte1(q, r), Byte2(r, s));
    FirstSextetBack(p, q);
    SecondSextetBack(p, q, r);
    ThirdSextetBack(q, r, s);
    FourthSextetBack(r, s);
  }

  lemma Assoc(u: seq<bool>, v: seq<bool>, w: seq<bool>)
    ensures u + (v + w) == (u + v) + w
  {
  }

  lemma TwoSextetsBits(p: sextet, q: sextet)
    ensures SextetBits([p, q]) == ByteBits([Byte0(p, q)]) + Bits(q % 16, 4)
  {
    OneByte(Byte0(p, q));
    TwoSextets(p, q);
    FirstByteBits(p, q);
    Assoc(Bits(p, 6), Bits(q / 16, 2), Bits(q % 16, 4));
  }

  lemma ThreeSextetsBits(p: sextet, q: sextet, r: sextet)
    ensures ByteBits([Byte0(p, q), Byte1(q, r)]) <= SextetBits([p, q, r])
  {
    TwoBytes(Byte0(p, q), Byte1(q, r));
    TwoSextets(p, q);
    OneSextet(r);
    SextetBitsConcat([p, q], [r]);
    assert [p, q] + [r] == [p, q, r];
    FirstByteBits(p, q);
    SecondByteBits(q, r);
    Regroup(Bits(p, 6), Bits(q / 16, 2), Bits(q % 16, 4), Bits(r / 4, 4), Bits(r % 4, 2), []);
    assert Bits(p, 6) + (Bits(q / 16, 2) + Bits(q % 16, 4)) + (Bits(r / 4, 4) + Bits(r % 4, 2)) + []
        == Bits(p, 6) + Bits(q, 6) + Bits(r, 6);
  }

  lemma TwoDecodingBits(q: seq<sextet>)
    requires |q| == 2
    ensures ByteBits(DecodeSextets(q).value) <= SextetBits(q)
  {
    assert q == [q[0], q[1]];
    DecodeTwo(q[0], q[1]);
    TwoSextetsBits(q[0], q[1]);
  }

  lemma ThreeDecodingBits(q: seq<sextet>)
    requires |q| == 3
    ensures ByteBits(DecodeSextets(q).value) <= SextetBits(q)
  {
    assert q == [q[0], q[1], q[2]];
    DecodeThree(q[0], q[1], q[2]);
    ThreeSextetsBits(q[0], q[1], q[2]);
  }

  lemma PrefixUnder(head: seq<bool>, u: seq<bool>, v: seq<bool>)
    requires u <= v
    ensures head + u <= head + v
  {
  }

  lemma JoinedBits(group: seq<sextet>, bytes: seq<byte>, q: seq<sextet>, b: seq<byte>)
    requires ByteBits(bytes) == SextetBits(group) && ByteBits(b) <= SextetBits(q)
    ensures ByteBits(bytes + b) <= SextetBits(group + q)
  {
    ByteBitsConcat(bytes, b);
    SextetBitsConcat(group, q);
    PrefixUnder(SextetBits(group), ByteBits(b), SextetBits(q));
  }

  lemma FullGroupUnfolds(q: seq<sextet>)
    requires |q| >= 4 && DecodeSextets(q).Some?
    ensures DecodeSextets(q).value == [Byte0(q[0], q[1]), Byte1(q[1], q[2]), Byte2(q[2], q[3])] + DecodeSextets(q[4..]).value
    ensures q == [q[0], q[1], q[2], q[3]] + q[4..]
  {
  }

  lemma FullDecodingBits(q: seq<sextet>)
    requires |q| >= 4 && DecodeSextets(q).Some?
    requires ByteBits(DecodeSextets(q[4..]).value) <= SextetBits(q[4..])
    ensures ByteBits(DecodeSextets(q).value) <= SextetBits(q)
  {
    FullGroupUnfolds(q);
    FullGroupOfBytes(q[0], q[1], q[2], q[3]);
    JoinedBits([q[0], q[1], q[2], q[3]], [Byte0(q[0], q[1]), Byte1(q[1], q[2]), Byte2(q[2], q[3])],
               q[4..], DecodeSextets(q[4..]).value);
  }

  /** The decoded bytes are the bit string of the sextets, as far as whole bytes reach. */
  lemma {:induction false} DecodingIsTheBitString(q: seq<sextet>)
    requires DecodeSextets(q).Some?
    ensures ByteBits(DecodeSextets(q).value) <= SextetBits(q)
  {
    if |q| == 2 {
      TwoDecodingBits(q);
    } else if |q| == 3 {
      ThreeDecodingBits(q);
    } else if |q| >= 4 {
      DecodingIsTheBitString(q[4..]);
      FullDecodingBits(q);
    }
  }

  // ----- text

  function Chars(q: seq<sextet>): string {
    if q == [] then "" else [ToChar(q[0])] + Chars(q[1..])
  }

  predicate OnlyAlphabet(s: string) {
    forall i :: 0 <= i < |s| ==> InAlphabet(s[i])
  }

  function Values(s: string): seq<sextet>
    requires OnlyAlphabet(s)
  {
    if s == [] then [] else [FromChar(s[0])] + Values(s[1..])
  }

  /** What is left when line breaks are skipped. */
  function Filter(s: string): string {
    if s == [] then ""
    else if s[0] == '\r' || s[0] == '\n' then Filter(s[1..])
    else [s[0]] + Filter(s[1..])
  }

  lemma {:induction false} FilterConcat(s: string, rest: string)
    ensures Filter(s + rest) == Filter(s) + Filter(rest)
  {
    if s == "" {
      assert s + rest == rest;
    } else {
      FilterConcat(s[1..], rest);
      assert (s + rest)[1..] == s[1..] + rest;
    }
  }

  lemma FilterOne(c: char)
    ensures Filter([c]) == if c == '\r' || c == '\n' then "" else [c]
  {
    assert [c][1..] == "";
  }

  /** Filtering deletes line breaks, wherever they stand, and touches nothing else. */
  lemma FilterDeletesLineBreaks(s: string, c: char, rest: string)
    ensures Filter(s + [c] + rest) == Filter(s) + (if c == '\r' || c == '\n' then "" else [c]) + Filter(rest)
    ensures Filter("") == ""
  {
    FilterConcat(s + [c], rest);
    FilterConcat(s, [c]);
    FilterOne(c);
  }

  function Encode(b: seq<byte>): string {
    Chars(EncodeSextets(b))
  }

  function Decode(s: string): Option<seq<byte>> {
    var text := Filter(s);
    if OnlyAlphabet(text) then DecodeSextets(Values(text)) else None
  }

  lemma {:induction false} ValuesOfChars(q: seq<sextet>)
    ensures |Chars(q)| == |q| && OnlyAlphabet(Chars(q)) && Values(Chars(q)) == q
  {
    if q != [] {
      ValuesOfChars(q[1..]);
      AlphabetRoundTrip(q[0], 'A');
      assert Chars(q)[1..] == Chars(q[1..]);
    }
  }

  lemma {:induction false} CharsOfValues(s: string)
    requires OnlyAlphabet(s)
    ensures |Values(s)| == |s| && Chars(Values(s)) == s
  {
    if s != [] {
      CharsOfValues(s[1..]);
      AlphabetRoundTrip(0, s[0]);
      assert Values(s)[1..] == Values(s[1..]);
    }
  }

  lemma {:induction false} NothingToFilter(s: string)
    requires OnlyAlphabet(s)
    ensures Filter(s) == s
  {
    if s != [] {
      assert InAlphabet(s[0]);
      NothingToFilter(s[1..]);
    }
  }

  /** Section 4 of RFC 4648, read backwards: decoding undoes encoding on every byte sequence. */
  lemma RoundTrip(b: seq<byte>)
    ensures Decode(Encode(b)) == Some(b)
    ensures OnlyAlphabet(Encode(b))
  {
    ValuesOfChars(EncodeSextets(b));
    NothingToFilter(Encode(b));
    DecodeEncodeSextets(b);
  }

  /** Which texts decode, and to how many bytes. */
  lemma DecodeSucceeds(s: string)
    ensures Decode(s).Some? <==> OnlyAlphabet(Filter(s)) && |Filter(s)| % 4 != 1
    ensures Decode(s).Some? ==> |Decode(s).value| == DecodedLength(|Filter(s)|)
  {
    var text := Filter(s);
    if OnlyAlphabet(text) {
      CharsOfValues(text);
      DecodeSextetsLength(Values(text));
    }
  }

  /** A text is the canonical spelling of its bytes exactly when, line breaks aside, its unused bits are zero. */
  lemma CanonicalText(s: string)
    requires Decode(s).Some?
    ensures Encode(Decode(s).value) == Filter(s) <==> TrailingBitsAreZero(Values(Filter(s)))
  {
    var text := Filter(s);
    CharsOfValues(text);
    EncodeDecodeSextets(Values(text));
    ValuesOfChars(EncodeSextets(Decode(s).value));
  }
}
