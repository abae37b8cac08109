/** Bytes, and the two ways the daemons turn big numbers into them. */
module Bytes {
  import opened ModArith

  type Byte = b: int | 0 <= b < 256

  function Pow256(n: nat): (p: nat)
    ensures p >= 1
  {
    if n == 0 then 1 else 256 * Pow256(n - 1)
  }

  function Zeros(n: nat): (z: seq<Byte>)
    ensures |z| == n
  {
    seq(n, _ => 0)
  }

  function Reversed<T>(s: seq<T>): (r: seq<T>)
    ensures |r| == |s|
    ensures forall k :: 0 <= k < |s| ==> r[k] == s[|s| - 1 - k]
  {
    seq(|s|, k requires 0 <= k < |s| => s[|s| - 1 - k])
  }

  /** The number a little-endian byte string stands for. */
  function LE(s: seq<Byte>): nat {
    if s == [] then 0 else s[0] + 256 * LE(s[1..])
  }

  /** The low `len` bytes of n, least significant first. */
  function FixedLE(n: nat, len: nat): (s: seq<Byte>)
    ensures |s| == len
  {
    if len == 0 then [] else [n % 256] + FixedLE(n / 256, len - 1)
  }

  /** The bytes of n without leading zeros, least significant first. */
  function MinLE(n: nat): (s: seq<Byte>) {
    if n == 0 then [] else [n % 256] + MinLE(n / 256)
  }

  /** BN_num_bytes. */
  function NumBytes(n: nat): nat {
    |MinLE(n)|
  }

  /** BN_bn2bin: big-endian, no leading zeros. */
  function Bin(n: nat): (s: seq<Byte>)
    ensures |s| == NumBytes(n)
  {
    Reversed(MinLE(n))
  }

  /** BN_bin2bn. */
  function FromBin(s: seq<Byte>): nat {
    LE(Reversed(s))
  }

  /** BN_bn2bin into a buffer: only the front of the buffer is written. */
  function BinInto(n: nat, buffer: seq<Byte>): (s: seq<Byte>)
    requires NumBytes(n) <= |buffer|
    ensures |s| == |buffer|
  {
    Bin(n) + buffer[NumBytes(n)..]
  }

  /** What BN_bn2bin followed by reversing the whole buffer leaves in it. */
  function BinReversed(n: nat, buffer: seq<Byte>): (s: seq<Byte>)
    requires NumBytes(n) <= |buffer|
    ensures |s| == |buffer|
  {
    Reversed(BinInto(n, buffer))
  }

  // ---------------------------------------------------------------- exclusive or

  function Pow2(n: nat): (p: nat)
    ensures p >= 1
  {
    if n == 0 then 1 else 2 * Pow2(n - 1)
  }

  /** Bit by bit, over the n lowest bits. */
  function XorBits(a: nat, b: nat, n: nat): (r: nat)
    ensures r < Pow2(n)
  {
    if n == 0 then 0
    else (if a % 2 == b % 2 then 0 else 1) + 2 * XorBits(a / 2, b / 2, n - 1)
  }

  function Xor(a: Byte, b: Byte): Byte {
    assert Pow2(8) == 256;
    XorBits(a, b, 8)
  }

  lemma {:induction false} XorBitsTwice(a: nat, b: nat, n: nat)
    requires a < Pow2(n)
    ensures XorBits(XorBits(a, b, n), b, n) == a
  {
    if n > 0 {
      XorBitsTwice(a / 2, b / 2, n - 1);
      var x := XorBits(a, b, n);
      assert x / 2 == XorBits(a / 2, b / 2, n - 1);
    }
  }

  lemma XorTwice(a: Byte, b: Byte)
    ensures Xor(Xor(a, b), b) == a
  {
    assert Pow2(8) == 256;
    XorBitsTwice(a, b, 8);
  }

  lemma Distribute(a: int, b: int, c: int)
    ensures a * (b + c) == a * b + a * c
  {
  }

  lemma TimesLess(m: nat, z: int, n: int)
    requires z < n
    ensures m * z + m <= m * n
  {
    Distribute(m, z + 1, n - z - 1);
    Distribute(m, z, 1);
    assert m * (n - z - 1) >= 0;
  }

  lemma QuotientOf(a: nat, m: nat, q: nat, r: nat)
    requires m > 0 && r < m && a == m * q + r
    ensures a / m == q && a % m == r
  {
    if a / m < q {
      TimesLess(m, a / m, q);
    } else if a / m > q {
      TimesLess(m, q, a / m);
    }
  }

  lemma Decompose(a: nat, m: nat)
    requires m > 0
    ensures a == m * (a / m) + a % m && a % m < m
  {
  }

  lemma DecomposeTwice(m: nat, n: nat, q: nat, z: nat, y: nat)
    requires m > 0 && n > 0 && z < n && y < m
    ensures m * (n * q + z) + y == (m * n) * q + (m * z + y) && m * z + y < m * n
  {
    Distribute(m, n * q, z);
    MulAssoc(m, n, q);
    TimesLess(m, z, n);
  }

  lemma DivDiv(a: nat, m: nat, n: nat)
    requires m > 0 && n > 0
    ensures m * n > 0 && a / (m * n) == a / m / n
  {
    var x, y := a / m, a % m;
    var q, z := x / n, x % n;
    Decompose(a, m);
    Decompose(x, n);
    DecomposeTwice(m, n, q, z, y);
    var d, r := m * n, m * z + y;
    assert a == d * q + r;
    QuotientOf(a, d, q, r);
  }

  lemma ShiftByte(a: nat, k: nat)
    requires k > 0
    ensures a / Pow256(k) == a / 256 / Pow256(k - 1)
  {
    DivDiv(a, 256, Pow256(k - 1));
  }

  lemma ShiftBit(a: nat, k: nat)
    requires k > 0
    ensures a / Pow2(k) == a / 2 / Pow2(k - 1)
  {
    DivDiv(a, 2, Pow2(k - 1));
  }

  lemma NoShift(a: nat)
    ensures a / Pow256(0) == a && a / Pow2(0) == a
  {
  }

  /** Bit k of the result is the sum of the two bits k, modulo 2. */
  lemma {:induction false} XorBitAt(a: nat, b: nat, n: nat, k: nat)
    requires k < n
    ensures XorBits(a, b, n) / Pow2(k) % 2 == (a / Pow2(k) + b / Pow2(k)) % 2
  {
    hide XorBits, Pow2;
    HalfXor(a, b, n);
    if k == 0 {
      NoShift(a);
      NoShift(b);
      NoShift(XorBits(a, b, n));
    } else {
      XorBitAt(a / 2, b / 2, n - 1, k - 1);
      ShiftBit(a, k);
      ShiftBit(b, k);
      ShiftBit(XorBits(a, b, n), k);
    }
  }

  lemma HalfXor(a: nat, b: nat, n: nat)
    requires n > 0
    ensures XorBits(a, b, n) / 2 == XorBits(a / 2, b / 2, n - 1) && XorBits(a, b, n) % 2 == (a + b) % 2
  {
  }

  /** The exclusive or of two bytes, bit by bit. */
  lemma XorBit(a: Byte, b: Byte, k: nat)
    requires k < 8
    ensures Xor(a, b) / Pow2(k) % 2 == (a / Pow2(k) + b / Pow2(k)) % 2
  {
    XorBitAt(a, b, 8, k);
  }

  // ---------------------------------------------------------------- the number behind the bytes

  lemma ReversedTwice<T>(s: seq<T>)
    ensures Reversed(Reversed(s)) == s
  {
  }

  lemma {:induction false} PowAdd(m: nat, n: nat)
    ensures Pow256(m + n) == Pow256(m) * Pow256(n)
  {
    if m > 0 {
      PowAdd(m - 1, n);
      assert m + n - 1 == m - 1 + n;
      calc {
        Pow256(m + n);
        256 * (Pow256(m - 1) * Pow256(n));
        (256 * Pow256(m - 1)) * Pow256(n);
      }
    }
  }

  lemma {:induction false} LEAppend(s: seq<Byte>, t: seq<Byte>)
    ensures LE(s + t) == LE(s) + Pow256(|s|) * LE(t)
  {
    if s == [] {
      assert s + t == t;
    } else {
      assert (s + t)[1..] == s[1..] + t;
      LEAppend(s[1..], t);
      calc {
        LE(s + t);
        s[0] + 256 * (LE(s[1..]) + Pow256(|s| - 1) * LE(t));
        LE(s) + 256 * (Pow256(|s| - 1) * LE(t));
        LE(s) + (256 * Pow256(|s| - 1)) * LE(t);
      }
    }
  }

  lemma {:induction false} LEZeros(n: nat)
    ensures LE(Zeros(n)) == 0
  {
    if n > 0 {
      assert Zeros(n)[1..] == Zeros(n - 1);
      LEZeros(n - 1);
    }
  }

  lemma {:induction false} LEBound(s: seq<Byte>)
    ensures LE(s) < Pow256(|s|)
  {
    if s != [] {
      LEBound(s[1..]);
    }
  }

  lemma {:induction false} MinLEValue(n: nat)
    ensures LE(MinLE(n)) == n
    ensures n > 0 ==> Pow256(NumBytes(n) - 1) <= n
    ensures n > 0 ==> MinLE(n)[NumBytes(n) - 1] != 0
    ensures n < Pow256(NumBytes(n))
  {
    if n > 0 {
      MinLEValue(n / 256);
      assert MinLE(n)[1..] == MinLE(n / 256);
      if n / 256 == 0 {
        assert MinLE(n) == [n];
      }
    }
  }

  lemma {:induction false} FixedLEValue(n: nat, len: nat)
    requires n < Pow256(len)
    ensures LE(FixedLE(n, len)) == n
  {
    if len > 0 {
      FixedLEValue(n / 256, len - 1);
      assert FixedLE(n, len)[1..] == FixedLE(n / 256, len - 1);
    }
  }

  /** A number that does not fit is cut to the low bytes. */
  lemma {:induction false} FixedLECuts(n: nat, len: nat)
    ensures LE(FixedLE(n, len)) == n % Pow256(len)
  {
    if len > 0 {
      FixedLECuts(n / 256, len - 1);
      assert FixedLE(n, len)[1..] == FixedLE(n / 256, len - 1);
      ModSplit(n, Pow256(len - 1));
    }
  }

  lemma ModSplit(n: nat, p: nat)
    requires p > 0
    ensures n % (256 * p) == n % 256 + 256 * (n / 256 % p)
  {
    var h, y := n / 256, n % 256;
    var q, z := h / p, h % p;
    Decompose(n, 256);
    Decompose(h, p);
    DecomposeTwice(256, p, q, z, y);
    var d, r := 256 * p, 256 * z + y;
    assert n == d * q + r;
    QuotientOf(n, d, q, r);
  }

  /** Byte k of a number, counted from the lowest. */
  lemma {:induction false} FixedLEAt(n: nat, len: nat, k: nat)
    requires k < len
    ensures FixedLE(n, len)[k] == n / Pow256(k) % 256
  {
    hide Pow256;
    if k > 0 {
      FixedLEAt(n / 256, len - 1, k - 1);
      ShiftByte(n, k);
    } else {
      NoShift(n);
    }
  }

  /** A byte string of known length is determined by its number. */
  lemma {:induction false} LEInjective(s: seq<Byte>, t: seq<Byte>)
    requires |s| == |t| && LE(s) == LE(t)
    ensures s == t
  {
    if s != [] {
      assert s[0] == LE(s) % 256 && t[0] == LE(t) % 256;
      LEInjective(s[1..], t[1..]);
      assert s == [s[0]] + s[1..] && t == [t[0]] + t[1..];
    }
  }

  /** A number fits in exactly the widths from NumBytes up. */
  lemma NumBytesFits(n: nat, len: nat)
    ensures NumBytes(n) <= len <==> n < Pow256(len)
  {
    MinLEValue(n);
    if NumBytes(n) <= len {
      PowMonotone(NumBytes(n), len);
    } else {
      PowMonotone(len, NumBytes(n) - 1);
    }
  }

  lemma {:induction false} PowMonotone(m: nat, n: nat)
    requires m <= n
    ensures Pow256(m) <= Pow256(n)
  {
    if m < n {
      PowMonotone(m, n - 1);
    }
  }

  /** The front of the buffer is filled first, so the reversed buffer is the number shifted up. */
  lemma BinReversedShape(n: nat, buffer: seq<Byte>)
    requires NumBytes(n) <= |buffer|
    ensures BinReversed(n, buffer) == Reversed(buffer[NumBytes(n)..]) + MinLE(n)
  {
  }

  lemma BinReversedValue(n: nat, len: nat)
    requires NumBytes(n) <= len
    ensures LE(BinReversed(n, Zeros(len))) == n * Pow256(len - NumBytes(n))
  {
    hide LE, MinLE, BinReversed;
    BinReversedShape(n, Zeros(len));
    var pad := Reversed(Zeros(len)[NumBytes(n)..]);
    assert pad == Zeros(len - NumBytes(n));
    LEAppend(pad, MinLE(n));
    LEZeros(len - NumBytes(n));
    MinLEValue(n);
  }

  /** On a cleared buffer, bn2bin-and-reverse is little-endian encoding exactly for 0 and full-width numbers. */
  lemma BinReversedIsLE(n: nat, len: nat)
    requires NumBytes(n) <= len
    ensures BinReversed(n, Zeros(len)) == FixedLE(n, len) <==> n == 0 || NumBytes(n) == len
  {
    hide LE, BinReversed, FixedLE, Zeros;
    NumBytesFits(n, len);
    FixedLEValue(n, len);
    BinReversedValue(n, len);
    if n == 0 || NumBytes(n) == len {
      LEInjective(BinReversed(n, Zeros(len)), FixedLE(n, len));
    } else {
      ShiftGrows(n, len - NumBytes(n));
    }
  }

  /** On any buffer: exactly for full-width numbers, and for 0 where the buffer was cleared. */
  lemma BinReversedExactly(n: nat, buffer: seq<Byte>)
    requires NumBytes(n) <= |buffer|
    ensures BinReversed(n, buffer) == FixedLE(n, |buffer|)
      <==> NumBytes(n) == |buffer| || (n == 0 && buffer == Zeros(|buffer|))
  {
    hide FixedLE, NumBytes, BinReversed, MinLE;
    var len := |buffer|;
    NothingToWrite(buffer);
    if NumBytes(n) == len {
      BinReversedFull(n, buffer);
    } else if n == 0 {
      BinReversedIsLE(0, len);
      NothingToWrite(Zeros(len));
    } else {
      ShortDiffers(n, buffer);
    }
  }

  lemma ShortDiffers(n: nat, buffer: seq<Byte>)
    requires n > 0 && NumBytes(n) < |buffer|
    ensures BinReversed(n, buffer) != FixedLE(n, |buffer|)
  {
    hide LE, FixedLE, NumBytes, BinReversed, Pow256, MinLE;
    var pad := Reversed(buffer[NumBytes(n)..]);
    NumBytesFits(n, |buffer|);
    FixedLEValue(n, |buffer|);
    BinReversedShape(n, buffer);
    MinLEValue(n);
    LEAppend(pad, MinLE(n));
    ShiftGrows(n, |pad|);
    Commute(n, Pow256(|pad|));
  }

  lemma Commute(a: nat, b: nat)
    ensures a * b == b * a
  {
  }

  lemma NothingToWrite(buffer: seq<Byte>)
    ensures NumBytes(0) == 0 && BinReversed(0, buffer) == Reversed(buffer)
    ensures Reversed(Zeros(|buffer|)) == Zeros(|buffer|)
    ensures Reversed(buffer) == Zeros(|buffer|) ==> buffer == Zeros(|buffer|)
  {
    ReversedTwice(buffer);
  }

  /** So the number 1 is read back shifted to the top byte. */
  lemma OneIsShifted(len: nat)
    requires len > 0
    ensures NumBytes(1) == 1 && LE(BinReversed(1, Zeros(len))) == Pow256(len - 1)
  {
    assert MinLE(1) == [1];
    BinReversedValue(1, len);
  }

  lemma ShiftGrows(n: nat, d: nat)
    requires n > 0 && d > 0
    ensures n * Pow256(d) > n
  {
    assert Pow256(d) == 256 * Pow256(d - 1) >= 2;
  }

  /** A full-width number leaves nothing of the old buffer, whatever was in it. */
  lemma BinReversedFull(n: nat, buffer: seq<Byte>)
    requires NumBytes(n) == |buffer|
    ensures BinReversed(n, buffer) == FixedLE(n, |buffer|) == MinLE(n)
  {
    BinReversedShape(n, buffer);
    MinLEValue(n);
    NumBytesFits(n, |buffer|);
    FixedLEValue(n, |buffer|);
    LEInjective(MinLE(n), FixedLE(n, |buffer|));
  }

  /** Reading back what FixedLE wrote, after the reversal the receiver does. */
  lemma FromBinReversed(s: seq<Byte>)
    ensures FromBin(Reversed(s)) == LE(s)
  {
    ReversedTwice(s);
  }

  /** bn2bin undoes bin2bn on strings that do not start with a zero byte. */
  lemma BinFromBin(s: seq<Byte>)
    ensures Bin(FromBin(s)) == s <==> s == [] || s[0] != 0
  {
    MinLEOfLE(Reversed(s));
    MinLEValue(FromBin(s));
    if s == [] || s[0] != 0 {
      ReversedTwice(s);
    } else if FromBin(s) > 0 {
      assert Bin(FromBin(s))[0] != s[0];
    }
  }

  lemma {:induction false} MinLEOfLE(s: seq<Byte>)
    ensures s == [] || s[|s| - 1] != 0 ==> MinLE(LE(s)) == s
  {
    if s != [] && s[|s| - 1] != 0 {
      if |s| > 1 {
        MinLEOfLE(s[1..]);
      } else {
        assert s[1..] == [];
      }
      LEPositive(s);
      assert LE(s) % 256 == s[0] && LE(s) / 256 == LE(s[1..]);
      assert s == [s[0]] + s[1..];
    }
  }

  lemma {:induction false} LEPositive(s: seq<Byte>)
    requires s != [] && s[|s| - 1] != 0
    ensures LE(s) > 0
  {
    if |s| > 1 {
      LEPositive(s[1..]);
    }
  }

  // ---------------------------------------------------------------- hexadecimal

  /** BN_bn2hex: two upper-case digits a byte, "0" for zero. */
  function Hex(n: nat): string {
    if n == 0 then "0" else HexOf(Bin(n))
  }

  function Digit(d: nat): char
    requires d < 16
  {
    "0123456789ABCDEF"[d]
  }

  function HexOf(s: seq<Byte>): (h: string)
    ensures |h| == 2 * |s|
  {
    if s == [] then "" else [Digit(s[0] / 16), Digit(s[0] % 16)] + HexOf(s[1..])
  }

  function Value(c: char): (d: nat)
    ensures d < 16
  {
    if '0' <= c <= '9' then c as int - '0' as int
    else if 'A' <= c <= 'F' then c as int - 'A' as int + 10
    else if 'a' <= c <= 'f' then c as int - 'a' as int + 10
    else 0
  }

  /** BN_hex2bn on a string of hexadecimal digits. */
  function Unhex(h: string): nat {
    if h == "" then 0 else 16 * Unhex(h[..|h| - 1]) + Value(h[|h| - 1])
  }

  lemma DigitValue(d: nat)
    requires d < 16
    ensures Value(Digit(d)) == d
  {
  }

  /** The digits are those of the ASCII table, in upper case; lower case is read as well. */
  lemma DigitIsAscii(d: nat)
    requires d < 16
    ensures Digit(d) as int == if d < 10 then 48 + d else 55 + d
    ensures d >= 10 ==> Value((87 + d) as char) == d
  {
  }

  /** Two digits a byte, the high half first. */
  lemma {:induction false} HexOfAt(s: seq<Byte>, k: nat)
    requires k < |s|
    ensures HexOf(s)[2 * k] == Digit(s[k] / 16) && HexOf(s)[2 * k + 1] == Digit(s[k] % 16)
  {
    if k > 0 {
      HexOfAt(s[1..], k - 1);
    }
  }

  /** The text of a number: "0", or the digits of its bytes from the highest on. */
  lemma HexText(n: nat)
    ensures n == 0 ==> Hex(n) == ['0']
    ensures n > 0 ==> |Hex(n)| == 2 * NumBytes(n) && forall k :: 0 <= k < NumBytes(n) ==>
      Hex(n)[2 * k] == Digit(Bin(n)[k] / 16) && Hex(n)[2 * k + 1] == Digit(Bin(n)[k] % 16)
  {
    hide Digit, HexOf;
    if n > 0 {
      forall k | 0 <= k < NumBytes(n)
        ensures Hex(n)[2 * k] == Digit(Bin(n)[k] / 16) && Hex(n)[2 * k + 1] == Digit(Bin(n)[k] % 16)
      {
        HexOfAt(Bin(n), k);
      }
    }
  }

  lemma UnhexTwoDigits(h: string, b: Byte)
    ensures Unhex(h + [Digit(b / 16)] + [Digit(b % 16)]) == 256 * Unhex(h) + b
  {
    hide Digit, Value;
    var h1 := h + [Digit(b / 16)];
    var h2 := h1 + [Digit(b % 16)];
    DigitValue(b / 16);
    DigitValue(b % 16);
    assert h1[..|h|] == h && h2[..|h| + 1] == h1;
    assert Unhex(h1) == 16 * Unhex(h) + b / 16;
    assert Unhex(h2) == 16 * Unhex(h1) + b % 16;
  }

  lemma ReversedCons(s: seq<Byte>)
    requires s != []
    ensures Reversed(s) == Reversed(s[1..]) + [s[0]]
  {
  }

  lemma FromBinCons(s: seq<Byte>)
    requires s != []
    ensures FromBin(s) == FromBin(s[1..]) + Pow256(|s| - 1) * s[0]
  {
    hide LE, Pow256, Reversed;
    ReversedCons(s);
    LEAppend(Reversed(s[1..]), [s[0]]);
    LEOne(s[0]);
  }

  lemma LEOne(b: Byte)
    ensures LE([b]) == b
  {
    assert [b][1..] == [];
  }

  lemma {:induction false} UnhexSplit(h: string, s: seq<Byte>)
    ensures Unhex(h + HexOf(s)) == Unhex(h) * Pow256(|s|) + FromBin(s)
    decreases |s|
  {
    hide Digit, Unhex, LE;
    if s == [] {
      assert h + HexOf(s) == h;
      FromBinOfBin(0);
      assert Bin(0) == s;
    } else {
      var h2 := h + [Digit(s[0] / 16)] + [Digit(s[0] % 16)];
      UnhexTwoDigits(h, s[0]);
      UnhexSplit(h2, s[1..]);
      assert h + HexOf(s) == h2 + HexOf(s[1..]);
      FromBinCons(s);
      MulSpread(Unhex(h), s[0], Pow256(|s| - 1));
    }
  }

  lemma MulSpread(u: nat, c: nat, p: nat)
    ensures (256 * u + c) * p == u * (256 * p) + p * c
  {
  }

  /** Reading two digits a byte is reading the bytes. */
  lemma UnhexHexOf(s: seq<Byte>)
    ensures Unhex(HexOf(s)) == FromBin(s)
  {
    hide Unhex, HexOf, FromBin;
    UnhexSplit("", s);
    assert "" + HexOf(s) == HexOf(s);
    UnhexEmpty();
  }

  /** hex2bn undoes bn2hex for every number. */
  lemma HexRoundTrip(n: nat)
    ensures Unhex(Hex(n)) == n
  {
    hide Unhex, HexOf, Bin, FromBin;
    UnhexZero();
    UnhexHexOf(Bin(n));
    FromBinOfBin(n);
  }

  lemma UnhexEmpty()
    ensures Unhex("") == 0
  {
  }

  lemma UnhexZero()
    ensures Unhex("0") == 0
  {
    assert "0"[..0] == "";
  }

  lemma FromBinOfBin(n: nat)
    ensures FromBin(Bin(n)) == n
  {
    ReversedTwice(MinLE(n));
    MinLEValue(n);
  }

  // ---------------------------------------------------------------- in place

  /** std::reverse over the first n bytes of an array. */
  method ReverseFront(a: array<Byte>, n: nat)
    requires n <= a.Length
    modifies a
    ensures a[..] == Reversed(old(a[..n])) + old(a[n..])
  {
    var i := 0;
    while i < n / 2
      invariant 0 <= i <= n / 2
      invariant forall k :: 0 <= k < i ==> a[k] == old(a[n - 1 - k]) && a[n - 1 - k] == old(a[k])
      invariant forall k :: i <= k < n - i || n <= k < a.Length ==> a[k] == old(a[k])
    {
      a[i], a[n - 1 - i] := a[n - 1 - i], a[i];
      i := i + 1;
    }
  }

  /** std::reverse over a whole array. */
  method ReverseBytes(a: array<Byte>)
    modifies a
    ensures a[..] == Reversed(old(a[..]))
  {
    ReverseFront(a, a.Length);
    assert old(a[..a.Length]) == old(a[..]) && old(a[a.Length..]) == [];
  }

  /** BN_bn2bin into an array. */
  method BnToBin(n: nat, a: array<Byte>)
    requires NumBytes(n) <= a.Length
    modifies a
    ensures a[..] == BinInto(n, old(a[..]))
  {
    var s := Bin(n);
    forall i | 0 <= i < |s| {
      a[i] := s[i];
    }
  }
}
