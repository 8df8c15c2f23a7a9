/** `to_base64` and `from_base64`, whose 32-bit accumulator overflows on any input
    longer than four bytes. */
module Base64 {
  import Constraints

  newtype byte = x: int | 0 <= x < 256

  const UPPER: string := "ABCDEFGHIJKLMNOPQRSTUVWXYZ"
  const LOWER: string := "abcdefghijklmnopqrstuvwxyz"
  const DIGITS: string := "0123456789"
  const ALPHABET: string := UPPER + LOWER + DIGITS + "+/"

  /** What a signed 32-bit register holds of a number. */
  function Wrap(x: int): int {
    var m := x % 0x1_0000_0000;
    if m < 0x8000_0000 then m else m - 0x1_0000_0000
  }

  /** Two to the power of the even bit counts that occur. */
  function Pow(k: nat): (p: nat)
    ensures p > 0
  {
    if k == 0 then 1
    else if k == 2 then 4
    else if k == 4 then 16
    else if k == 6 then 64
    else if k == 8 then 256
    else if k == 10 then 1024
    else 4096
  }

  predicate IsCount(k: int) { 0 <= k <= 12 && k % 2 == 0 }

  /** A shift to the right and a mask; the shift of a negative number rounds down. */
  function Bits(val: int, k: nat, m: nat): (b: nat)
    requires m > 0
    ensures b < m
  {
    val / Pow(k) % m
  }

  /** `base64_chars[k]`. */
  function Letter(k: nat): (c: char)
    requires k < 64
  {
    if k < 26 then 'A' + k as char
    else if k < 52 then 'a' + (k - 26) as char
    else if k < 62 then '0' + (k - 52) as char
    else if k == 62 then '+'
    else '/'
  }

  lemma LettersSpelled(k: nat)
    requires k < 64
    ensures |ALPHABET| == 64 && ALPHABET[k] == Letter(k)
  {
    if k < 26 {
      assert ALPHABET[k] == UPPER[k];
    } else if k < 52 {
      assert ALPHABET[k] == LOWER[k - 26];
    } else if k < 62 {
      assert ALPHABET[k] == DIGITS[k - 52];
    }
  }

  // --------------------------------------------------------------- the standard

  /** Section 4 of RFC 4648: twenty-four bits at a time, the last group padded. */
  function Encoding(b: seq<byte>): string {
    if b == [] then ""
    else if |b| == 1 then
      var n := Joined(b[0], 0, 0);
      [Letter(n / 0x40000), Letter(n / 0x1000 % 64), '=', '=']
    else if |b| == 2 then
      var n := Joined(b[0], b[1], 0);
      [Letter(n / 0x40000), Letter(n / 0x1000 % 64), Letter(n / 64 % 64), '=']
    else
      var n := Joined(b[0], b[1], b[2]);
      [Letter(n / 0x40000), Letter(n / 0x1000 % 64), Letter(n / 64 % 64), Letter(n % 64)] + Encoding(b[3..])
  }

  function Joined(x: byte, y: byte, z: byte): (n: nat)
    ensures n / 0x40000 < 64
  {
    x as int * 0x10000 + y as int * 0x100 + z as int
  }

  // --------------------------------------------------------------- bit streams

  /** Six bits at a time of a stream: the low `r` bits of `n`, then the bytes. The last
      few bits are filled up with zeros. */
  function Sextets(r: nat, n: nat, b: seq<byte>): (s: seq<nat>)
    requires IsCount(r)
    ensures forall k :: 0 <= k < |s| ==> s[k] < 64
    decreases |b|, r
  {
    hide Bits, Pow;
    if r >= 6 then [Bits(n, r - 6, 64)] + Sextets(r - 6, n % Pow(r - 6), b)
    else if b != [] then Sextets(r + 8, n * 256 + b[0] as int, b[1..])
    else if r == 0 then []
    else [ShiftedUp(n, Pow(6 - r))]
  }

  /** The last bits with zeros behind them. */
  function ShiftedUp(n: nat, p: nat): (b: nat)
    ensures b < 64
  {
    n * p % 64
  }

  /** Eight bits at a time of a stream of six-bit values; what is left over is dropped.
      A value may be 64, which only reaches the bits above its own six. */
  function Octets(r: nat, n: nat, s: seq<nat>): seq<byte>
    requires IsCount(r)
    decreases |s|, r
  {
    if r >= 8 then [Bits(n, r - 8, 256) as byte] + Octets(r - 8, n % Pow(r - 8), s)
    else if s != [] then Octets(r + 6, (n * 64 + s[0]) % Pow(r + 6), s[1..])
    else []
  }

  function Letters(s: seq<nat>): string
    requires forall k :: 0 <= k < |s| ==> s[k] < 64
  {
    seq(|s|, k requires 0 <= k < |s| => Letter(s[k]))
  }

  /** Padding to whole groups of four. */
  function Padded(s: string): string {
    s + (if |s| % 4 == 1 then "===" else if |s| % 4 == 2 then "==" else if |s| % 4 == 3 then "=" else "")
  }

  lemma PaddedTail(group: string, rest: string)
    requires |group| == 4
    ensures Padded(group + rest) == group + Padded(rest)
  {
  }

  // ------------------------------------------------------------- single steps

  lemma BytesIn(r: nat, n: nat, x: byte, b: seq<byte>)
    requires IsCount(r) && r < 6
    ensures Sextets(r, n, [x] + b) == Sextets(r + 8, n * 256 + x as int, b)
  {
    hide Pow, Bits;
    assert ([x] + b)[1..] == b;
  }

  lemma SextetOut(r: nat, n: nat, b: seq<byte>)
    requires IsCount(r) && r >= 6
    ensures Sextets(r, n, b) == [Bits(n, r - 6, 64)] + Sextets(r - 6, n % Pow(r - 6), b)
  {
  }

  lemma SextetIn(r: nat, n: nat, x: nat, s: seq<nat>)
    requires IsCount(r) && r < 8
    ensures Octets(r, n, [x] + s) == Octets(r + 6, (n * 64 + x) % Pow(r + 6), s)
  {
    hide Pow, Bits;
    assert ([x] + s)[1..] == s;
  }

  // ------------------------------------------------ the stream is the standard's

  /** One byte leaves the stream two bits in hand, two bytes four, three bytes none. */
  lemma OneByte(x: byte, b: seq<byte>)
    ensures Sextets(0, 0, [x] + b) == [x as int / 4] + Sextets(2, x as int % 4, b)
  {
    hide Sextets;
    BytesIn(0, 0, x, b);
    SextetOut(8, x as int, b);
  }

  lemma TwoBytes(x: byte, y: byte, b: seq<byte>)
    ensures Sextets(0, 0, [x, y] + b)
         == [x as int / 4, x as int % 4 * 16 + y as int / 16] + Sextets(4, y as int % 16, b)
  {
    hide Sextets, Bits, Pow;
    assert [x, y] + b == [x] + ([y] + b);
    OneByte(x, [y] + b);
    BytesIn(2, x as int % 4, y, b);
    SextetOut(10, x as int % 4 * 256 + y as int, b);
    TwoInHand(x as int % 4, y);
  }

  lemma TwoInHand(hand: nat, y: byte)
    requires hand < 4
    ensures Bits(hand * 256 + y as int, 4, 64) == hand * 16 + y as int / 16
    ensures (hand * 256 + y as int) % Pow(4) == y as int % 16
  {
    Constraints.DivModUnique(hand * 256 + y as int, 16, hand * 16 + y as int / 16, y as int % 16);
  }

  lemma FourInHand(hand: nat, z: byte)
    requires hand < 16
    ensures Bits(hand * 256 + z as int, 6, 64) == hand * 4 + z as int / 64
    ensures (hand * 256 + z as int) % Pow(6) == z as int % 64
    ensures Bits(z as int % 64, 0, 64) == z as int % 64 && z as int % 64 % Pow(0) == 0
  {
    Constraints.DivModUnique(hand * 256 + z as int, 64, hand * 4 + z as int / 64, z as int % 64);
  }

  lemma ThreeBytes(x: byte, y: byte, z: byte, b: seq<byte>)
    ensures Sextets(0, 0, [x, y, z] + b)
         == [x as int / 4, x as int % 4 * 16 + y as int / 16, y as int % 16 * 4 + z as int / 64, z as int % 64]
          + Sextets(0, 0, b)
  {
    hide Sextets, Bits, Pow;
    assert [x, y, z] + b == [x, y] + ([z] + b);
    TwoBytes(x, y, [z] + b);
    BytesIn(4, y as int % 16, z, b);
    SextetOut(12, y as int % 16 * 256 + z as int, b);
    SextetOut(6, z as int % 64, b);
    FourInHand(y as int % 16, z);
  }

  lemma JoinedBits(x: byte, y: byte, z: byte)
    ensures var n := Joined(x, y, z);
            && n / 0x40000 == x as int / 4
            && n / 0x1000 % 64 == x as int % 4 * 16 + y as int / 16
            && n / 64 % 64 == y as int % 16 * 4 + z as int / 64
            && n % 64 == z as int % 64
  {
    FourDigits(Joined(x, y, z), x as int / 4, x as int % 4 * 16 + y as int / 16, y as int % 16 * 4 + z as int / 64,
               z as int % 64);
  }

  lemma FourDigits(n: nat, a: nat, b: nat, c: nat, d: nat)
    requires n == a * 0x40000 + b * 0x1000 + c * 64 + d && b < 64 && c < 64 && d < 64
    ensures n / 0x40000 == a && n / 0x1000 % 64 == b && n / 64 % 64 == c && n % 64 == d
  {
    assert n / 0x40000 == a by { Constraints.DivModUnique(n, 0x40000, a, b * 0x1000 + c * 64 + d); }
    assert n / 0x1000 == a * 64 + b by { Constraints.DivModUnique(n, 0x1000, a * 64 + b, c * 64 + d); }
    assert n / 64 == (a * 64 + b) * 64 + c && n % 64 == d by {
      Constraints.DivModUnique(n, 64, (a * 64 + b) * 64 + c, d);
    }
    assert (a * 64 + b) % 64 == b by { Constraints.DivModUnique(a * 64 + b, 64, a, b); }
    assert ((a * 64 + b) * 64 + c) % 64 == c by { Constraints.DivModUnique((a * 64 + b) * 64 + c, 64, a * 64 + b, c); }
  }

  lemma {:induction false} StreamIsEncoding(b: seq<byte>)
    ensures Padded(Letters(Sextets(0, 0, b))) == Encoding(b)
    ensures |Encoding(b)| == 4 * ((|b| + 2) / 3)
  {
    hide Sextets, Joined, Letter, Letters, Padded;
    if |b| >= 3 {
      WholeGroup(b);
      StreamIsEncoding(b[3..]);
    } else if |b| == 2 {
      LastTwo(b);
    } else if |b| == 1 {
      LastOne(b);
    } else {
      Empty(b);
    }
  }

  lemma Empty(b: seq<byte>)
    requires b == []
    ensures Sextets(0, 0, b) == [] && Padded(Letters([])) == ""
  {
  }

  lemma Spelled(x: nat, y: nat, z: nat, u: nat, rest: seq<nat>)
    requires x < 64 && y < 64 && z < 64 && u < 64 && forall k :: 0 <= k < |rest| ==> rest[k] < 64
    ensures Letters([x, y, z, u] + rest) == [Letter(x), Letter(y), Letter(z), Letter(u)] + Letters(rest)
    ensures Letters([x, y, z]) == [Letter(x), Letter(y), Letter(z)]
    ensures Letters([x, y]) == [Letter(x), Letter(y)]
  {
    hide Letter;
  }

  lemma WholeGroup(b: seq<byte>)
    requires |b| >= 3
    ensures var n := Joined(b[0], b[1], b[2]);
            Padded(Letters(Sextets(0, 0, b)))
            == [Letter(n / 0x40000), Letter(n / 0x1000 % 64), Letter(n / 64 % 64), Letter(n % 64)]
               + Padded(Letters(Sextets(0, 0, b[3..])))
  {
    hide Sextets, Joined, Letter, Letters, Padded;
    var n, rest := Joined(b[0], b[1], b[2]), Sextets(0, 0, b[3..]);
    var n0, n1, n2, n3 := n / 0x40000, n / 0x1000 % 64, n / 64 % 64, n % 64;
    GroupOfThree(b, n0, n1, n2, n3);
    Spelled(n0, n1, n2, n3, rest);
    PaddedTail([Letter(n0), Letter(n1), Letter(n2), Letter(n3)], Letters(rest));
  }

  lemma GroupOfThree(b: seq<byte>, n0: nat, n1: nat, n2: nat, n3: nat)
    requires |b| >= 3
    requires var n := Joined(b[0], b[1], b[2]);
             n0 == n / 0x40000 && n1 == n / 0x1000 % 64 && n2 == n / 64 % 64 && n3 == n % 64
    ensures Sextets(0, 0, b) == [n0, n1, n2, n3] + Sextets(0, 0, b[3..])
  {
    hide Sextets, Joined;
    assert b == [b[0], b[1], b[2]] + b[3..];
    ThreeBytes(b[0], b[1], b[2], b[3..]);
    JoinedBits(b[0], b[1], b[2]);
  }

  lemma LastTwo(b: seq<byte>)
    requires |b| == 2
    ensures Sextets(0, 0, b) == [b[0] as int / 4, b[0] as int % 4 * 16 + b[1] as int / 16, b[1] as int % 16 * 4]
    ensures Padded(Letters(Sextets(0, 0, b))) == Encoding(b)
  {
    hide Sextets, Joined, Letter, Letters, Padded, Encoding;
    TwoStream(b);
    JoinedBits(b[0], b[1], 0);
    var x, y, z := b[0] as int / 4, b[0] as int % 4 * 16 + b[1] as int / 16, b[1] as int % 16 * 4;
    Spelled(x, y, z, 0, []);
    OnePad(Letter(x), Letter(y), Letter(z));
    EncodedTwo(b, Joined(b[0], b[1], 0), x, y, z);
  }

  lemma EncodedTwo(b: seq<byte>, n: nat, x: nat, y: nat, z: nat)
    requires |b| == 2 && n == Joined(b[0], b[1], 0)
    requires x == n / 0x40000 && y == n / 0x1000 % 64 && z == n / 64 % 64
    ensures Encoding(b) == [Letter(x), Letter(y), Letter(z), '=']
  {
    hide Joined, Letter;
  }

  lemma TwoStream(b: seq<byte>)
    requires |b| == 2
    ensures Sextets(0, 0, b) == [b[0] as int / 4, b[0] as int % 4 * 16 + b[1] as int / 16, b[1] as int % 16 * 4]
  {
    hide Sextets;
    assert b == [b[0], b[1]] + [];
    TwoBytes(b[0], b[1], []);
    Filled(4, b[1] as int % 16);
  }

  lemma OnePad(c: char, d: char, e: char)
    ensures Padded([c, d, e]) == [c, d, e, '=']
  {
  }

  lemma LastOne(b: seq<byte>)
    requires |b| == 1
    ensures Sextets(0, 0, b) == [b[0] as int / 4, b[0] as int % 4 * 16]
    ensures Padded(Letters(Sextets(0, 0, b))) == Encoding(b)
  {
    hide Sextets, Joined, Letter, Letters, Padded;
    OneStream(b);
    JoinedBits(b[0], 0, 0);
    var x, y := b[0] as int / 4, b[0] as int % 4 * 16;
    Spelled(x, y, 0, 0, []);
    TwoPads(Letter(x), Letter(y));
    assert Encoding(b) == [Letter(x), Letter(y), '=', '='];
  }

  lemma TwoPads(c: char, d: char)
    ensures Padded([c, d]) == [c, d, '=', '=']
  {
  }

  lemma OneStream(b: seq<byte>)
    requires |b| == 1
    ensures Sextets(0, 0, b) == [b[0] as int / 4, b[0] as int % 4 * 16]
  {
    hide Sextets;
    assert b == [b[0]] + [];
    OneByte(b[0], []);
    Filled(2, b[0] as int % 4);
  }

  lemma Filled(r: nat, n: nat)
    requires (r == 2 || r == 4) && n < Pow(r)
    ensures Sextets(r, n, []) == [n * Pow(6 - r)]
  {
  }

  // ------------------------------------------------------- the stream comes back

  /** Decoding the six-bit values of a stream of bytes gives the bytes back. */
  lemma {:induction false} OctetsOfSextets(b: seq<byte>)
    ensures Octets(0, 0, Sextets(0, 0, b)) == b
  {
    hide Sextets, Octets;
    if |b| >= 3 {
      assert b == [b[0], b[1], b[2]] + b[3..];
      ThreeBytes(b[0], b[1], b[2], b[3..]);
      OctetsOfSextets(b[3..]);
      FourToThree(b[0], b[1], b[2], Sextets(0, 0, b[3..]));
    } else if |b| == 2 {
      LastTwo(b);
      ThreeToTwo(b[0], b[1]);
      assert b == [b[0], b[1]];
    } else if |b| == 1 {
      LastOne(b);
      TwoToOne(b[0], []);
      LeftOver(4, 0);
      assert [b[0] as int / 4, b[0] as int % 4 * 16 + 0] + [] == [b[0] as int / 4, b[0] as int % 4 * 16];
      assert b == [b[0]];
    } else {
      Empty(b);
      LeftOver(0, 0);
    }
  }

  lemma LeftOver(r: nat, n: nat)
    requires IsCount(r) && r < 8
    ensures Octets(r, n, []) == []
  {
  }

  lemma TwoToOne(x: byte, s: seq<nat>, h: nat := 0)
    requires h < 16
    ensures Octets(0, 0, [x as int / 4, x as int % 4 * 16 + h] + s) == [x] + Octets(4, h, s)
  {
    hide Octets, Pow, Bits;
    FirstOctet(x as int / 4, x as int % 4 * 16 + h, x, h, s);
  }

  lemma FirstOctet(s0: nat, s1: nat, x: byte, h: nat, s: seq<nat>)
    requires s0 < 64 && s1 < 64 && h < 16 && s0 * 64 + s1 == x as int * 16 + h
    ensures Octets(0, 0, [s0, s1] + s) == [x] + Octets(4, h, s)
  {
    hide Octets;
    assert [s0, s1] + s == [s0] + ([s1] + s);
    SextetIn(0, 0, s0, [s1] + s);
    SextetIn(6, s0, s1, s);
    var n := s0 * 64 + s1;
    Constraints.DivModUnique(n, 0x1000, 0, n);
    OctetOut(12, n, s);
    Constraints.DivModUnique(n, 16, x as int, h);
  }

  lemma OctetOut(r: nat, n: nat, s: seq<nat>)
    requires IsCount(r) && r >= 8
    ensures Octets(r, n, s) == [Bits(n, r - 8, 256) as byte] + Octets(r - 8, n % Pow(r - 8), s)
  {
  }

  lemma NextOctet(r: nat, n: nat, x: byte, t: nat, h: nat, s: seq<nat>)
    requires r == 2 || r == 4
    requires n * 64 + t == x as int * Pow(r - 2) + h && h < Pow(r - 2) && n < Pow(r) && t < 64
    ensures Octets(r, n, [t] + s) == [x] + Octets(r - 2, h, s)
  {
    hide Octets;
    SextetIn(r, n, t, s);
    var m := n * 64 + t;
    Constraints.DivModUnique(m, Pow(r + 6), 0, m);
    OctetOut(r + 6, m, s);
    Constraints.DivModUnique(m, Pow(r - 2), x as int, h);
  }

  lemma ThreeToTwo(x: byte, y: byte)
    ensures Octets(0, 0, [x as int / 4, x as int % 4 * 16 + y as int / 16, y as int % 16 * 4]) == [x, y]
  {
    hide Octets;
    var t := y as int % 16 * 4;
    var s0, s1 := x as int / 4, x as int % 4 * 16 + y as int / 16;
    assert [s0, s1, t] == [s0, s1] + [t];
    TwoToOne(x, [t], y as int / 16);
    assert [t] == [t] + [];
    NextOctet(4, y as int / 16, y, t, 0, []);
    LeftOver(2, 0);
  }

  lemma FourToThree(x: byte, y: byte, z: byte, s: seq<nat>)
    ensures Octets(0, 0, [x as int / 4, x as int % 4 * 16 + y as int / 16, y as int % 16 * 4 + z as int / 64,
                          z as int % 64] + s)
         == [x, y, z] + Octets(0, 0, s)
  {
    hide Octets;
    var t, u := y as int % 16 * 4 + z as int / 64, z as int % 64;
    assert [x as int / 4, x as int % 4 * 16 + y as int / 16, t, u] + s
        == [x as int / 4, x as int % 4 * 16 + y as int / 16] + ([t] + ([u] + s));
    TwoToOne(x, [t] + ([u] + s), y as int / 16);
    NextOctet(4, y as int / 16, y, t, z as int / 64, [u] + s);
    NextOctet(2, z as int / 64, z, u, 0, s);
  }

  // ------------------------------------------------------------------ encoding

  /** Shifting and masking looks only at the low bits. */
  lemma ShiftMask(val: int, p: nat, m: nat)
    requires p > 0 && m > 0
    ensures val % (p * m) / p % m == val / p % m
    ensures val % (p * m) % p == val % p
  {
    var a, c, t := ThreeParts(val, p, m);
    Constraints.DivModUnique(val, p * m, a, c * p + t);
    Constraints.DivModUnique(c * p + t, p, c, t);
    Constraints.DivModUnique(c, m, 0, c);
  }

  lemma ThreeParts(val: int, p: nat, m: nat) returns (a: int, c: nat, t: nat)
    requires p > 0 && m > 0
    ensures t < p && c < m && c * p + t < p * m && val == a * (p * m) + (c * p + t)
    ensures val % p == t && val / p % m == c
  {
    var q := val / p;
    t, a, c := val % p, q / m, q % m;
    assert val == q * p + t && q == a * m + c;
    Constraints.MulMonotone(c, m - 1, p);
    assert (m - 1) * p == m * p - p;
    assert q * p == a * (p * m) + c * p;
  }

  /** The low bits survive the wrap-around. */
  lemma WrapKeeps(x: int, d: nat, e: nat)
    requires d > 0 && d * e == 0x1_0000_0000
    ensures Wrap(x) % d == x % d
  {
    var q := (x - Wrap(x)) / 0x1_0000_0000;
    assert x == Wrap(x) + q * (d * e);
    assert q * (d * e) == (q * e) * d;
    var a, t := Wrap(x) / d, Wrap(x) % d;
    assert Wrap(x) == a * d + t;
    assert (a + q * e) * d == a * d + (q * e) * d;
    Constraints.DivModUnique(x, d, a + q * e, t);
  }

  lemma TakeByte(val: int, r: nat, c: byte)
    requires r == 0 || r == 2 || r == 4
    ensures Wrap(val * 256 + c as int) % Pow(r + 8) == val % Pow(r) * 256 + c as int
  {
    var p := Pow(r);
    assert Pow(r + 8) == p * 256;
    WrapKeeps(val * 256 + c as int, p * 256, if r == 0 then 0x100_0000 else if r == 2 then 0x40_0000 else 0x10_0000);
    hide *;
    var a, t := val / p, val % p;
    assert val == a * p + t;
    assert val * 256 + c as int == a * (p * 256) + (t * 256 + c as int);
    Constraints.DivModUnique(val * 256 + c as int, p * 256, a, t * 256 + c as int);
  }

  lemma GiveBits(val: int, k: nat)
    requires k == 0 || k == 2 || k == 4 || k == 6
    ensures Bits(val, k, 64) == Bits(val % Pow(k + 6), k, 64)
    ensures val % Pow(k + 6) % Pow(k) == val % Pow(k)
  {
    assert Pow(k + 6) == Pow(k) * 64;
    ShiftMask(val, Pow(k), 64);
  }

  lemma LettersExtended(s: seq<nat>, k: nat)
    requires k < 64 && forall j :: 0 <= j < |s| ==> s[j] < 64
    ensures Letters(s + [k]) == Letters(s) + [Letter(k)]
  {
  }

  lemma LastBits(val: int, valb: int)
    requires valb == -4 || valb == -2
    ensures [Bits(Wrap(val * 256), valb + 8, 64)] == Sextets(valb + 6, val % Pow(valb + 6), [])
  {
    var x := val * 256;
    if valb == -4 {
      WrapKeeps(x, 1024, 0x40_0000);
      ShiftMask(Wrap(x), 16, 64);
      ShiftMask(x, 16, 64);
      Shifted(val);
      Filled(2, val % 4);
    } else {
      WrapKeeps(x, 4096, 0x10_0000);
      ShiftMask(Wrap(x), 64, 64);
      ShiftMask(x, 64, 64);
      Shifted(val);
      Filled(4, val % 16);
    }
  }

  lemma Shifted(val: int)
    ensures val * 256 / 16 % 64 == val % 4 * 16
    ensures val * 256 / 64 % 64 == val % 16 * 4
  {
    assert val == val / 4 * 4 + val % 4 && val == val / 16 * 16 + val % 16;
    Constraints.DivModUnique(val * 256, 16, val * 16, 0);
    Constraints.DivModUnique(val * 16, 64, val / 4, val % 4 * 16);
    Constraints.DivModUnique(val * 256, 64, val * 4, 0);
    Constraints.DivModUnique(val * 4, 64, val / 16, val % 16 * 4);
  }

  /** `encoded` holds the first letters of the stream `whole`; the other values are still
      in the low bits of `val` and in the bytes to come. */
  ghost predicate Written(encoded: string, whole: seq<nat>, valb: int, val: int, rest: seq<byte>) {
    && IsCount(valb + 6)
    && (forall k :: 0 <= k < |whole| ==> whole[k] < 64)
    && |encoded| <= |whole|
    && encoded == Letters(whole[..|encoded|])
    && whole[|encoded|..] == Sextets(valb + 6, val % Pow(valb + 6), rest)
  }

  lemma WrittenStart(binary: seq<byte>)
    ensures Written("", Sextets(0, 0, binary), -6, 0, binary[0..])
  {
    hide Sextets;
    assert binary[0..] == binary;
  }

  lemma WrittenByte(encoded: string, whole: seq<nat>, valb: int, val: int, binary: seq<byte>, i: nat)
    requires i < |binary| && valb < 0
    requires Written(encoded, whole, valb, val, binary[i..])
    ensures Written(encoded, whole, valb + 8, Wrap(val * 256 + binary[i] as int), binary[i + 1..])
  {
    hide Sextets, Wrap, Pow, Letters;
    TakeByte(val, valb + 6, binary[i]);
    assert binary[i..] == [binary[i]] + binary[i + 1..];
    BytesIn(valb + 6, val % Pow(valb + 6), binary[i], binary[i + 1..]);
  }

  lemma WrittenLetter(encoded: string, whole: seq<nat>, valb: int, val: int, rest: seq<byte>)
    requires valb >= 0 && Written(encoded, whole, valb, val, rest)
    ensures Written(encoded + [Letter(Bits(val, valb, 64))], whole, valb - 6, val, rest)
  {
    hide Sextets, Pow, Letters, Letter, Bits;
    GiveBits(val, valb);
    SextetOut(valb + 6, val % Pow(valb + 6), rest);
    NextLetter(encoded, whole, Bits(val, valb, 64));
  }

  lemma NextLetter(encoded: string, whole: seq<nat>, k: nat)
    requires forall k :: 0 <= k < |whole| ==> whole[k] < 64
    requires |encoded| < |whole| && encoded == Letters(whole[..|encoded|]) && whole[|encoded|] == k
    ensures encoded + [Letter(k)] == Letters(whole[..|encoded| + 1])
  {
    hide Letters, Letter;
    assert whole[..|encoded| + 1] == whole[..|encoded|] + [k];
    LettersExtended(whole[..|encoded|], k);
  }

  lemma WrittenEnd(encoded: string, whole: seq<nat>, valb: int, val: int)
    requires valb < 0 && Written(encoded, whole, valb, val, [])
    ensures Letters(whole)
         == if valb > -6 then encoded + [Letter(Bits(Wrap(val * 256), valb + 8, 64))] else encoded
  {
    hide Sextets, Pow, Letters, Letter, Bits, Wrap;
    var last := Sextets(valb + 6, val % Pow(valb + 6), []);
    if valb > -6 {
      LastBits(val, valb);
      NextLetter(encoded, whole, last[0]);
      assert whole[..|encoded| + 1] == whole;
    } else {
      NothingLeft(val);
      assert whole[..|encoded|] == whole;
    }
  }

  lemma NothingLeft(val: int)
    ensures Sextets(0, val % Pow(0), []) == []
  {
  }

  method ToBase64(binary: seq<byte>) returns (encoded: string)
    ensures encoded == Encoding(binary)
  {
    hide Sextets, Pow, Bits, Wrap, Letter, Letters, Padded, Encoding, Written;
    ghost var whole := Sextets(0, 0, binary);
    encoded := "";
    var val, valb := 0, -6;
    WrittenStart(binary);
    for i := 0 to |binary|
      invariant valb == -6 || valb == -4 || valb == -2
      invariant Written(encoded, whole, valb, val, binary[i..])
    {
      WrittenByte(encoded, whole, valb, val, binary, i);
      val := Wrap(val * 256 + binary[i] as int);
      valb := valb + 8;
      while valb >= 0
        invariant -6 <= valb <= 6 && valb % 2 == 0
        invariant Written(encoded, whole, valb, val, binary[i + 1..])
      {
        WrittenLetter(encoded, whole, valb, val, binary[i + 1..]);
        encoded := encoded + [Letter(Bits(val, valb, 64))];
        valb := valb - 6;
      }
    }
    assert binary[|binary|..] == [];
    WrittenEnd(encoded, whole, valb, val);
    if valb > -6 {
      encoded := encoded + [Letter(Bits(Wrap(val * 256), valb + 8, 64))];
    }
    StreamIsEncoding(binary);
    encoded := Pad(encoded);
  }

  method Pad(s: string) returns (encoded: string)
    ensures encoded == Padded(s)
  {
    hide Padded;
    encoded := s;
    while |encoded| % 4 != 0
      invariant Padded(encoded) == Padded(s)
      decreases 3 - (|encoded| - 1) % 4
    {
      PadOne(encoded);
      encoded := encoded + "=";
    }
    PadOne(encoded);
  }

  lemma PadOne(s: string)
    ensures Padded(s) == if |s| % 4 == 0 then s else Padded(s + "=")
  {
    if |s| % 4 == 1 { assert s + "===" == s + "=" + "=="; }
    if |s| % 4 == 2 { assert s + "==" == s + "=" + "="; }
  }

  // ------------------------------------------------------------------ decoding

  /** `strchr` over the alphabet, which also finds the terminating zero; 65 is null. */
  function Position(c: char): (k: nat)
    ensures k <= 65
    ensures k < 64 ==> Letter(k) == c
    ensures k == 65 ==> forall j: nat :: j < 64 ==> Letter(j) != c
  {
    if c == 0 as char then 64 else FindLetter(c, 0)
  }

  function FindLetter(c: char, k: nat): (p: nat)
    requires k <= 64
    ensures k <= p <= 65 && p != 64
    ensures p < 64 ==> Letter(p) == c
    ensures forall j: nat :: k <= j < p && j < 64 ==> Letter(j) != c
    decreases 64 - k
  {
    if k == 64 then 65 else if Letter(k) == c then k else FindLetter(c, k + 1)
  }

  /** The six-bit values a text carries: up to the first padding, without whatever is
      not in the alphabet. */
  function Carried(s: string): seq<nat> {
    if s == "" || s[0] == '=' then []
    else if Position(s[0]) == 65 then Carried(s[1..])
    else [Position(s[0])] + Carried(s[1..])
  }

  function Decoding(s: string): seq<byte> { Octets(0, 0, Carried(s)) }

  lemma TakeSextet(val: int, r: nat, p: nat)
    requires r == 0 || r == 2 || r == 4 || r == 6
    ensures Wrap(val * 64 + p) % Pow(r + 6) == (val % Pow(r) * 64 + p) % Pow(r + 6)
  {
    var d := Pow(r);
    assert Pow(r + 6) == d * 64;
    WrapKeeps(val * 64 + p, d * 64,
      if r == 0 then 0x400_0000 else if r == 2 then 0x100_0000 else if r == 4 then 0x40_0000 else 0x10_0000);
    hide Wrap, Pow;
    ShiftedIn(val, d, p);
  }

  lemma ShiftedIn(val: int, d: nat, p: nat)
    requires d > 0
    ensures (val * 64 + p) % (d * 64) == (val % d * 64 + p) % (d * 64)
  {
    var a, t := val / d, val % d;
    assert val == a * d + t;
    assert val * 64 + p == a * (d * 64) + (t * 64 + p);
    ModAdd(a, d * 64, t * 64 + p);
  }

  lemma ModAdd(a: int, m: nat, y: int)
    requires m > 0
    ensures (a * m + y) % m == y % m
  {
    var q, r := y / m, y % m;
    assert y == q * m + r;
    assert (a + q) * m == a * m + q * m;
    Constraints.DivModUnique(a * m + y, m, a + q, r);
  }

  lemma GiveByte(val: int, k: nat)
    requires k == 0 || k == 2 || k == 4
    ensures Bits(val, k, 256) == Bits(val % Pow(k + 8), k, 256)
    ensures val % Pow(k + 8) % Pow(k) == val % Pow(k)
  {
    assert Pow(k + 8) == Pow(k) * 256;
    ShiftMask(val, Pow(k), 256);
  }

  /** The bytes still to come are in the low bits of `val` and in the rest of the text. */
  ghost predicate Read(encoded: string, decoded: seq<byte>, valb: int, val: int, rest: seq<nat>) {
    IsCount(valb + 8) && Decoding(encoded) == decoded + Octets(valb + 8, val % Pow(valb + 8), rest)
  }

  lemma ReadStart(s: string)
    ensures Read(s, [], -8, 0, Carried(s[0..]))
  {
    hide Octets, Carried;
    assert s[0..] == s;
  }

  lemma ReadSextet(encoded: string, decoded: seq<byte>, valb: int, val: int, pos: nat, rest: seq<nat>)
    requires valb < 0 && Read(encoded, decoded, valb, val, [pos] + rest)
    ensures Read(encoded, decoded, valb + 6, Wrap(val * 64 + pos), rest)
  {
    hide Octets, Pow, Wrap, Decoding;
    SextetIn(valb + 8, val % Pow(valb + 8), pos, rest);
    TakeSextet(val, valb + 8, pos);
  }

  lemma ReadOctet(encoded: string, decoded: seq<byte>, valb: int, val: int, rest: seq<nat>)
    requires 0 <= valb < 6 && Read(encoded, decoded, valb, val, rest)
    ensures Read(encoded, decoded + [Bits(val, valb, 256) as byte], valb - 8, val, rest)
  {
    hide Octets, Pow, Bits, Decoding;
    OctetOut(valb + 8, val % Pow(valb + 8), rest);
    GiveByte(val, valb);
    var x, left := Bits(val, valb, 256) as byte, Octets(valb, val % Pow(valb), rest);
    assert decoded + ([x] + left) == (decoded + [x]) + left;
  }

  method FromBase64(encoded: string) returns (decoded: seq<byte>)
    ensures decoded == Decoding(encoded)
  {
    hide Octets, Pow, Bits, Wrap, Position, Carried, Read, Decoding;
    decoded := [];
    var val, valb := 0, -8;
    var i := 0;
    ReadStart(encoded);
    while i < |encoded|
      invariant 0 <= i <= |encoded|
      invariant valb == -8 || valb == -6 || valb == -4 || valb == -2
      invariant Read(encoded, decoded, valb, val, Carried(encoded[i..]))
    {
      var c := encoded[i];
      if c == '=' { break; }
      CarriedStep(encoded, i);
      i := i + 1;
      var pos := Position(c);
      if pos == 65 { continue; }
      ReadSextet(encoded, decoded, valb, val, pos, Carried(encoded[i..]));
      val := Wrap(val * 64 + pos);
      valb := valb + 6;
      if valb >= 0 {
        ReadOctet(encoded, decoded, valb, val, Carried(encoded[i..]));
        decoded := decoded + [Bits(val, valb, 256) as byte];
        valb := valb - 8;
      }
    }
    CarriedEnd(encoded, i);
    ReadEnd(encoded, decoded, valb, val);
  }

  lemma ReadEnd(encoded: string, decoded: seq<byte>, valb: int, val: int)
    requires valb < 0 && Read(encoded, decoded, valb, val, [])
    ensures decoded == Decoding(encoded)
  {
    hide Octets, Decoding;
    LeftOver(valb + 8, val % Pow(valb + 8));
  }

  lemma CarriedStep(s: string, i: nat)
    requires i < |s| && s[i] != '='
    ensures Carried(s[i..])
         == if Position(s[i]) == 65 then Carried(s[i + 1..]) else [Position(s[i])] + Carried(s[i + 1..])
  {
    assert s[i..][1..] == s[i + 1..];
  }

  lemma CarriedEnd(s: string, i: nat)
    requires i <= |s| && (i < |s| ==> s[i] == '=')
    ensures Carried(s[i..]) == []
  {
  }

  // ---------------------------------------------------------------- round trip

  /** A letter is found where it stands. */
  lemma PositionOfLetter(k: nat)
    requires k < 64
    ensures Position(Letter(k)) == k && Letter(k) != '='
  {
    var p := FindLetter(Letter(k), 0);
    LetterCode(k);
    if p < 64 { LetterCode(p); }
  }

  lemma LetterCode(k: nat)
    requires k < 64
    ensures Letter(k) as int
         == if k < 26 then 65 + k else if k < 52 then 71 + k else if k < 62 then k - 4 else if k == 62 then 43 else 47
  {
  }

  lemma {:induction false} CarriedLetters(s: seq<nat>, padding: string)
    requires forall k :: 0 <= k < |s| ==> s[k] < 64
    requires padding == "" || padding[0] == '='
    ensures Carried(Letters(s) + padding) == s
  {
    hide Position, Letter;
    if s == [] {
      assert Letters(s) + padding == padding;
    } else {
      var text := Letters(s) + padding;
      PositionOfLetter(s[0]);
      CarriedLetters(s[1..], padding);
      assert text[1..] == Letters(s[1..]) + padding;
      assert s == [s[0]] + s[1..];
    }
  }

  /** The round trip, on every byte string. */
  lemma DecodingEncoding(b: seq<byte>)
    ensures Decoding(Encoding(b)) == b
  {
    hide Encoding, Octets, Sextets;
    var s := Sextets(0, 0, b);
    StreamIsEncoding(b);
    var padding := Padded(Letters(s))[|s|..];
    assert Encoding(b) == Letters(s) + padding;
    CarriedLetters(s, padding);
    OctetsOfSextets(b);
  }

  // ------------------------------------------------------------ tolerance

  /** The letters of a text, its padding and its zeros, without anything else. */
  function Cleaned(s: string): string {
    if s == "" then ""
    else if s[0] in ALPHABET || s[0] == '=' || s[0] == 0 as char then [s[0]] + Cleaned(s[1..])
    else Cleaned(s[1..])
  }

  lemma AlphabetIff(c: char)
    ensures c in ALPHABET <==> Position(c) < 64
  {
    hide FindLetter;
    LettersSpelled(0);
    if Position(c) < 64 { LettersSpelled(Position(c)); }
    if c in ALPHABET {
      var k :| 0 <= k < |ALPHABET| && ALPHABET[k] == c;
      LettersSpelled(k);
      PositionOfLetter(k);
    }
  }

  lemma {:induction false} CarriedCleaned(s: string)
    ensures Carried(Cleaned(s)) == Carried(s)
  {
    if s != "" {
      CarriedCleaned(s[1..]);
      AlphabetIff(s[0]);
      hide Position;
    }
  }

  lemma {:induction false} CarriedPadded(s: string, rest: string)
    ensures Carried(s + ("=" + rest)) == Carried(s)
    decreases s
  {
    if s != "" {
      CarriedPadded(s[1..], rest);
      assert (s + ("=" + rest))[1..] == s[1..] + ("=" + rest);
    }
  }

  /** Characters that are not in the alphabet do not matter, wherever they stand, nor does anything
      behind the first padding. */
  lemma DecodingIgnores(s: string, rest: string)
    ensures Decoding(s) == Decoding(Cleaned(s))
    ensures Decoding(s + ("=" + rest)) == Decoding(s)
    ensures forall b: seq<byte> :: Cleaned(s) == Encoding(b) ==> Decoding(s) == b
  {
    hide Encoding, Octets;
    CarriedCleaned(s);
    CarriedPadded(s, rest);
    forall b: seq<byte> | Cleaned(s) == Encoding(b) ensures Decoding(s) == b { DecodingEncoding(b); }
  }
}
