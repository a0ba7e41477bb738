/**
 * The bit-dump encoder of showmethebit.cpp.
 *
 * PrintChar writes one storage unit (a byte) as eight binary digits, bit 7
 * first, followed by one space. PrintType writes a header line, then the
 * value's storage bytes through PrintChar, in memory order on a big-endian
 * host and in reverse memory order on a little-endian host, then a newline.
 * The value's storage is an explicit byte sequence and the host's byte order
 * an explicit flag (IsBigEndian).
 */
module BitPrinter {
  import opened Arith

  /** Bits per storage unit: BYTE_SIZE * sizeof(char). */
  const BYTE_SIZE: nat := 8

  /** One storage unit, as its raw bit pattern read unsigned. */
  type byte = x: int | 0 <= x < 256

  /** The line PrintType writes before the bits. */
  const Header := "The binary representation is:"

  // ---------------------------------------------------------------------
  // Specification of the output
  // ---------------------------------------------------------------------

  /** The digit printed for a bit test result: `bit == 0 ? 0 : 1`. */
  function Digit(bit: int): (d: char)
    ensures d == '0' || d == '1'
    ensures d == '1' <==> bit != 0
  {
    if bit == 0 then '0' else '1'
  }

  /** The eight digits PrintChar emits for a byte: the k-th is bit 7 - k. */
  function ByteDigits(c: byte): (s: string)
    ensures |s| == BYTE_SIZE
  {
    seq(BYTE_SIZE, k requires 0 <= k < BYTE_SIZE => Digit(Bit(c, BYTE_SIZE - 1 - k)))
  }

  /** What PrintChar writes for one byte. */
  function Group(c: byte): string
  {
    ByteDigits(c) + " "
  }

  /** The groups of a byte sequence, in the order given. */
  function Groups(bs: seq<byte>): (s: string)
    ensures |s| == (BYTE_SIZE + 1) * |bs|
  {
    if bs == [] then "" else Group(bs[0]) + Groups(bs[1..])
  }

  function Reverse<T>(s: seq<T>): (r: seq<T>)
    ensures |r| == |s|
  {
    if s == [] then [] else Reverse(s[1..]) + [s[0]]
  }

  /**
   * The order in which PrintType visits the storage: memory order on a
   * big-endian host, reverse memory order on a little-endian one.
   */
  function VisitOrder(mem: seq<byte>, bigEndian: bool): seq<byte>
  {
    if bigEndian then mem else Reverse(mem)
  }

  /** The line of bits PrintType writes after its header (without the newline). */
  function BitLine(mem: seq<byte>, bigEndian: bool): string
  {
    Groups(VisitOrder(mem, bigEndian))
  }

  /** Everything PrintType writes. */
  function PrintTypeText(mem: seq<byte>, bigEndian: bool): string
  {
    Header + "\n" + BitLine(mem, bigEndian) + "\n"
  }

  // ---------------------------------------------------------------------
  // The printing loops
  // ---------------------------------------------------------------------

  /**
   * PrintChar: bits 7 down to 0 of a char, then one space. The char holds
   * -128..127 where char is signed and 0..255 where it is unsigned; either
   * way the digits are those of its raw byte c mod 256.
   */
  method PrintChar(c: int) returns (out: string)
    requires -128 <= c < 256
    ensures out == Group(c % 256)
  {
    out := "";
    var i: int := BYTE_SIZE - 1;
    while i >= 0
      invariant -1 <= i < BYTE_SIZE
      invariant out == ByteDigits(c % 256)[..BYTE_SIZE - 1 - i]
    {
      CharBits(c, i);
      out := out + [Digit(Bit(c, i))];
      i := i - 1;
    }
    out := out + " ";
  }

  /**
   * PrintType: the header, the bytes of the storage in visiting order
   * (first to last on a big-endian host, last to first otherwise), then a
   * newline.
   */
  method PrintType(mem: seq<byte>, bigEndian: bool) returns (out: string)
    ensures out == PrintTypeText(mem, bigEndian)
  {
    var line := "";
    if bigEndian {
      var i := 0;
      while i < |mem|
        invariant 0 <= i <= |mem|
        invariant line == Groups(mem[..i])
      {
        var g := PrintChar(SignedChar(mem[i]));
        GroupsAppend(mem[..i], mem[i]);
        assert mem[..i + 1] == mem[..i] + [mem[i]];
        line := line + g;
        i := i + 1;
      }
      assert mem[..|mem|] == mem;
    } else {
      var i := |mem| - 1;
      while i >= 0
        invariant -1 <= i < |mem|
        invariant line == Groups(Reverse(mem[i + 1..]))
      {
        var g := PrintChar(SignedChar(mem[i]));
        assert mem[i..][1..] == mem[i + 1..];
        assert Reverse(mem[i..]) == Reverse(mem[i + 1..]) + [mem[i]];
        GroupsAppend(Reverse(mem[i + 1..]), mem[i]);
        line := line + g;
        i := i - 1;
      }
      assert mem[0..] == mem;
    }
    out := Header + "\n" + line + "\n";
  }

  // ---------------------------------------------------------------------
  // Sequence facts
  // ---------------------------------------------------------------------

  lemma {:induction false} GroupsAppend(bs: seq<byte>, c: byte)
    ensures Groups(bs + [c]) == Groups(bs) + Group(c)
  {
    if bs != [] {
      assert (bs + [c])[1..] == bs[1..] + [c];
      GroupsAppend(bs[1..], c);
    } else {
      assert Groups([c]) == Group(c) + Groups([]);
    }
  }

  lemma {:induction false} ReverseAt<T>(s: seq<T>, k: nat)
    requires k < |s|
    ensures Reverse(s)[k] == s[|s| - 1 - k]
  {
    if k < |s| - 1 {
      ReverseAt(s[1..], k);
    }
  }

  lemma ReverseReverse<T>(s: seq<T>)
    ensures Reverse(Reverse(s)) == s
  {
    forall k | 0 <= k < |s|
      ensures Reverse(Reverse(s))[k] == s[k]
    {
      ReverseAt(Reverse(s), k);
      ReverseAt(s, |s| - 1 - k);
    }
  }

  // ---------------------------------------------------------------------
  // Shape of the output
  // ---------------------------------------------------------------------

  /** The j-th nine-character group of a line. */
  function GroupAt(line: string, j: nat): string
    requires (BYTE_SIZE + 1) * (j + 1) <= |line|
  {
    line[(BYTE_SIZE + 1) * j..(BYTE_SIZE + 1) * (j + 1)]
  }

  lemma {:induction false} GroupsAt(bs: seq<byte>, j: nat)
    requires j < |bs|
    ensures GroupAt(Groups(bs), j) == Group(bs[j])
  {
    if j > 0 {
      GroupsAt(bs[1..], j - 1);
      assert GroupAt(Groups(bs), j) == GroupAt(Groups(bs[1..]), j - 1);
    }
  }

  /**
   * The layout of the bit line of an n-byte value: n groups of nine
   * characters; the j-th group belongs to storage byte j on a big-endian
   * host and to byte n - 1 - j on a little-endian host, so the most
   * significant byte comes first either way; within a group the k-th
   * character is bit 7 - k of the raw byte and the ninth is a space.
   */
  lemma BitLineLayout(mem: seq<byte>, bigEndian: bool, j: nat, k: nat)
    requires j < |mem| && k <= BYTE_SIZE
    ensures |BitLine(mem, bigEndian)| == (BYTE_SIZE + 1) * |mem|
    ensures var b := if bigEndian then mem[j] else mem[|mem| - 1 - j];
            GroupAt(BitLine(mem, bigEndian), j)[k]
              == if k < BYTE_SIZE then Digit(Bit(b, BYTE_SIZE - 1 - k)) else ' '
  {
    GroupsAt(VisitOrder(mem, bigEndian), j);
    if !bigEndian {
      ReverseAt(mem, j);
    }
  }

  /**
   * The char a storage byte reads as through a `const char*` where char is
   * signed (two's complement): the bit pattern c as a value in -128..127.
   */
  function SignedChar(c: byte): (v: int)
    ensures -128 <= v < 128 && v % 256 == c
  {
    if c < 128 then c else c - 256
  }

  /**
   * Whatever the signedness of char: the bit test `(c >> i) & 1` on a char
   * promoted to int (an arithmetic shift when c is negative) gives, for
   * bits 0..7, the bits of the raw byte c mod 256.
   */
  lemma CharBits(c: int, i: nat)
    requires i < BYTE_SIZE
    ensures Bit(c, i) == Bit(c % 256, i)
  {
    Pow2Byte();
    assert c == c % 256 + Pow2(8) * (c / 256);
    BitBelowMultiple(c % 256, c / 256, i, 8);
  }

  /** Every character of s is a binary digit. */
  predicate AllDigits(s: string)
  {
    forall k | 0 <= k < |s| :: s[k] == '0' || s[k] == '1'
  }

  lemma ByteDigitsAreDigits(c: byte)
    ensures AllDigits(ByteDigits(c))
  {
    forall k | 0 <= k < BYTE_SIZE
      ensures ByteDigits(c)[k] == '0' || ByteDigits(c)[k] == '1'
    {
      assert ByteDigits(c)[k] == Digit(Bit(c, BYTE_SIZE - 1 - k));
    }
  }

  lemma {:induction false} DigitCount(s: string)
    requires AllDigits(s)
    ensures multiset(s)['0'] + multiset(s)['1'] == |s| && multiset(s)[' '] == 0
  {
    if s != [] {
      assert s == [s[0]] + s[1..];
      assert AllDigits(s[1..]);
      DigitCount(s[1..]);
    }
  }

  lemma {:induction false} GroupsCount(bs: seq<byte>)
    ensures multiset(Groups(bs))[' '] == |bs|
    ensures multiset(Groups(bs))['0'] + multiset(Groups(bs))['1'] == BYTE_SIZE * |bs|
  {
    if bs != [] {
      var c := bs[0];
      ByteDigitsAreDigits(c);
      DigitCount(ByteDigits(c));
      GroupsCount(bs[1..]);
    }
  }

  /**
   * For an n-byte value PrintType writes the header line, then exactly
   * 8 * n binary digits and n spaces (one after every byte, the last
   * included) and nothing else on the bit line, then a newline.
   */
  lemma PrintTypeCounts(mem: seq<byte>, bigEndian: bool)
    ensures var line := BitLine(mem, bigEndian);
            |line| == (BYTE_SIZE + 1) * |mem|
            && multiset(line)[' '] == |mem|
            && multiset(line)['0'] + multiset(line)['1'] == BYTE_SIZE * |mem|
    ensures var text := PrintTypeText(mem, bigEndian);
            text[..|Header| + 1] == Header + "\n" && text[|text| - 1] == '\n'
  {
    GroupsCount(VisitOrder(mem, bigEndian));
    var head, line := Header + "\n", BitLine(mem, bigEndian) + "\n";
    assert PrintTypeText(mem, bigEndian) == head + line;
    assert (head + line)[..|head|] == head;
  }

  /**
   * On a little-endian host the bytes are printed as a big-endian host
   * would print the reversed storage, and the other way round.
   */
  lemma HostOrderMirrored(mem: seq<byte>)
    ensures BitLine(mem, false) == BitLine(Reverse(mem), true)
    ensures BitLine(mem, true) == BitLine(Reverse(mem), false)
  {
    ReverseReverse(mem);
  }

  // ---------------------------------------------------------------------
  // The digits are the binary numeral of the value
  // ---------------------------------------------------------------------

  /** The w-digit base-2 numeral of v (of v mod 2^w), most significant bit first. */
  function Numeral(v: int, w: nat): (s: string)
    ensures |s| == w
    decreases w
  {
    if w == 0 then "" else Numeral(v / 2, w - 1) + [Digit(v % 2)]
  }

  /** The value of a string of binary digits, most significant first. */
  function ReadBinary(d: string): (r: nat)
    ensures r < Pow2(|d|)
  {
    if d == [] then 0
    else 2 * ReadBinary(d[..|d| - 1]) + (if d[|d| - 1] == '1' then 1 else 0)
  }

  /** Digit k of the w-digit numeral of v is bit w - 1 - k of v. */
  lemma {:induction false} NumeralAt(v: int, w: nat, k: nat)
    requires k < w
    ensures Numeral(v, w)[k] == Digit(Bit(v, w - 1 - k))
    decreases w
  {
    if k < w - 1 {
      NumeralAt(v / 2, w - 1, k);
      assert Pow2(1) == 2;
      BitOfQuotient(v, 1, w - 2 - k);
    }
  }

  /** Numeral is the inverse of ReadBinary on values that fit in w bits. */
  lemma {:induction false} ReadNumeral(v: int, w: nat)
    requires 0 <= v < Pow2(w)
    ensures ReadBinary(Numeral(v, w)) == v
    decreases w
  {
    if w > 0 {
      var s := Numeral(v, w);
      assert s[..|s| - 1] == Numeral(v / 2, w - 1);
      ReadNumeral(v / 2, w - 1);
    }
  }

  /** The w-digit numeral depends only on v mod 2^w; here w = 8. */
  lemma ByteNumeral(v: nat)
    ensures Numeral(v, BYTE_SIZE) == Numeral(v % 256, BYTE_SIZE)
  {
    forall k | 0 <= k < BYTE_SIZE
      ensures Numeral(v, BYTE_SIZE)[k] == Numeral(v % 256, BYTE_SIZE)[k]
    {
      ByteNumeralAt(v, k);
    }
  }

  /** Digit k of the two numerals in ByteNumeral. */
  lemma ByteNumeralAt(v: nat, k: nat)
    requires k < BYTE_SIZE
    ensures Numeral(v, BYTE_SIZE)[k] == Numeral(v % 256, BYTE_SIZE)[k]
  {
    var q, r := v / 256, v % 256;
    Pow2Byte();
    assert v == r + Pow2(8) * q;
    NumeralAt(v, BYTE_SIZE, k);
    NumeralAt(r, BYTE_SIZE, k);
    BitBelowMultiple(r, q, BYTE_SIZE - 1 - k, 8);
  }

  /** The digits PrintChar emits for a byte are its 8-digit binary numeral. */
  lemma ByteDigitsAreNumeral(c: byte)
    ensures ByteDigits(c) == Numeral(c, BYTE_SIZE)
  {
    forall k | 0 <= k < BYTE_SIZE
      ensures ByteDigits(c)[k] == Numeral(c, BYTE_SIZE)[k]
    {
      NumeralAt(c, BYTE_SIZE, k);
    }
  }

  /** The high a digits and the low b digits of an (a + b)-digit numeral. */
  lemma NumeralSplit(v: int, a: nat, b: nat)
    ensures Numeral(v, a + b) == Numeral(v / Pow2(b), a) + Numeral(v, b)
  {
    var whole, top, low := Numeral(v, a + b), Numeral(v / Pow2(b), a), Numeral(v, b);
    forall k | 0 <= k < a + b
      ensures whole[k] == (top + low)[k]
    {
      NumeralAt(v, a + b, k);
      if k < a {
        NumeralAt(v / Pow2(b), a, k);
        BitOfQuotient(v, b, a - 1 - k);
      } else {
        NumeralAt(v, b, k - a);
      }
    }
  }

  /** The characters of s other than spaces, in order. */
  function StripSpaces(s: string): (r: string)
    ensures |r| <= |s|
  {
    if s == [] then "" else (if s[0] == ' ' then "" else [s[0]]) + StripSpaces(s[1..])
  }

  lemma {:induction false} StripSpacesAppend(a: string, b: string)
    ensures StripSpaces(a + b) == StripSpaces(a) + StripSpaces(b)
  {
    if a != [] {
      assert (a + b)[1..] == a[1..] + b;
      StripSpacesAppend(a[1..], b);
    } else {
      assert a + b == b;
    }
  }

  lemma {:induction false} StripSpacesOfDigits(s: string)
    requires AllDigits(s)
    ensures StripSpaces(s) == s
  {
    if s != [] {
      assert AllDigits(s[1..]);
      StripSpacesOfDigits(s[1..]);
    }
  }

  /** The digits of a byte sequence, with the spaces between groups removed. */
  lemma {:induction false} StripSpacesOfGroupsAppend(bs: seq<byte>, c: byte)
    ensures StripSpaces(Groups(bs + [c])) == StripSpaces(Groups(bs)) + Numeral(c, BYTE_SIZE)
  {
    GroupsAppend(bs, c);
    StripSpacesAppend(Groups(bs), Group(c));
    StripSpacesAppend(ByteDigits(c), " ");
    assert StripSpaces(" ") == "";
    ByteDigitsAreDigits(c);
    StripSpacesOfDigits(ByteDigits(c));
    ByteDigitsAreNumeral(c);
  }

  /** The bytes of v in increasing significance: the storage of an n-byte unsigned value on a little-endian host. */
  function LittleEndianBytes(v: nat, n: nat): (bs: seq<byte>)
    ensures |bs| == n
  {
    if n == 0 then [] else [v % 256] + LittleEndianBytes(v / 256, n - 1)
  }

  /** The storage of an n-byte unsigned value v (taken mod 2^(8n)) in the host's byte order. */
  function Storage(v: nat, n: nat, bigEndian: bool): seq<byte>
  {
    if bigEndian then Reverse(LittleEndianBytes(v, n)) else LittleEndianBytes(v, n)
  }

  lemma {:induction false} MostSignificantFirst(v: nat, n: nat)
    ensures StripSpaces(Groups(Reverse(LittleEndianBytes(v, n)))) == Numeral(v, BYTE_SIZE * n)
  {
    if n > 0 {
      var le, rest := LittleEndianBytes(v, n), LittleEndianBytes(v / 256, n - 1);
      var low: byte := v % 256;
      assert le[1..] == rest && le[0] == low;
      assert Reverse(le) == Reverse(rest) + [low];
      StripSpacesOfGroupsAppend(Reverse(rest), low);
      MostSignificantFirst(v / 256, n - 1);
      ByteNumeral(v);
      Pow2Byte();
      NumeralSplit(v, BYTE_SIZE * (n - 1), BYTE_SIZE);
    }
  }

  /**
   * Normalisation: whatever the host's byte order, the digits PrintType
   * writes for an n-byte unsigned value v, spaces removed, are the
   * 8n-digit binary numeral of v, most significant bit first, and read
   * back as v.
   */
  lemma UnsignedDump(v: nat, n: nat, bigEndian: bool)
    requires v < Pow2(BYTE_SIZE * n)
    ensures StripSpaces(BitLine(Storage(v, n, bigEndian), bigEndian)) == Numeral(v, BYTE_SIZE * n)
    ensures ReadBinary(StripSpaces(BitLine(Storage(v, n, bigEndian), bigEndian))) == v
  {
    assert VisitOrder(Storage(v, n, bigEndian), bigEndian) == Reverse(LittleEndianBytes(v, n));
    MostSignificantFirst(v, n);
    ReadNumeral(v, BYTE_SIZE * n);
  }

  /**
   * A signed n-byte value v is stored as v mod 2^(8n) (two's complement):
   * the first digit printed is 1 exactly when v is negative, and the
   * digits read back as v for v >= 0 and as v + 2^(8n) for v < 0.
   */
  lemma TwosComplementDump(v: int, n: nat, bigEndian: bool)
    requires n >= 1
    requires -(Pow2(8 * n - 1) as int) <= v < Pow2(8 * n - 1)
    ensures var digits := StripSpaces(BitLine(Storage(v % Pow2(8 * n), n, bigEndian), bigEndian));
            |digits| == 8 * n
            && digits[0] == (if v < 0 then '1' else '0')
            && ReadBinary(digits) == if v < 0 then v + Pow2(8 * n) else v
  {
    var w := 8 * n;
    var p, h := Pow2(w), Pow2(w - 1);
    assert p == 2 * h;
    var u := v % p;
    if v < 0 {
      DivModUnique(v, p, -1, v + p);
      DivModUnique(u, h, 1, u - h);
    } else {
      DivModUnique(v, p, 0, v);
      DivModUnique(u, h, 0, u);
    }
    UnsignedDump(u, n, bigEndian);
    NumeralAt(u, w, 0);
  }

  lemma ZeroAndFiveDigits()
    ensures ByteDigits(0) == "00000000" && ByteDigits(5) == "00000101"
  {
    Pow2Table();
    forall k | 0 <= k < BYTE_SIZE
      ensures ByteDigits(0)[k] == "00000000"[k] && ByteDigits(5)[k] == "00000101"[k]
    {
      assert ByteDigits(0)[k] == Digit(Bit(0, BYTE_SIZE - 1 - k));
      assert ByteDigits(5)[k] == Digit(Bit(5, BYTE_SIZE - 1 - k));
    }
  }

  /**
   * An int holding 5 on a little-endian host prints as
   * 00000000 00000000 00000000 00000101: three groups for the zero bytes,
   * then the group for 5.
   */
  lemma IntFiveLittleEndian()
    ensures Storage(5, 4, false) == [5, 0, 0, 0]
    ensures Group(0) == "00000000 " && Group(5) == "00000101 "
    ensures BitLine([5, 0, 0, 0], false) == Group(0) + Group(0) + Group(0) + Group(5)
  {
    assert LittleEndianBytes(0, 1) == [0];
    assert LittleEndianBytes(0, 2) == [0, 0];
    assert LittleEndianBytes(0, 3) == [0, 0, 0];
    ZeroAndFiveDigits();
    IntFiveLine();
  }

  lemma IntFiveLine()
    ensures BitLine([5, 0, 0, 0], false) == Group(0) + Group(0) + Group(0) + Group(5)
  {
    var mem: seq<byte> := [5, 0, 0, 0];
    assert mem[1..] == [0, 0, 0];
    assert Reverse([0]) == [0];
    assert Reverse([0, 0]) == [0, 0];
    assert Reverse([0, 0, 0]) == [0, 0, 0];
    assert Reverse(mem) == [0, 0, 0, 5];
    FourGroups(0, 0, 0, 5);
  }

  /** The line for four bytes is their four groups in order. */
  lemma FourGroups(a: byte, b: byte, c: byte, d: byte)
    ensures Groups([a, b, c, d]) == Group(a) + Group(b) + Group(c) + Group(d)
  {
    assert [a, b, c, d][1..] == [b, c, d];
    assert [b, c, d][1..] == [c, d];
    assert [c, d][1..] == [d];
    assert [d][1..] == [];
    var ga, gb, gc, gd := Group(a), Group(b), Group(c), Group(d);
    assert Groups([d]) == gd + "" == gd;
    assert Groups([c, d]) == gc + gd;
    assert Groups([b, c, d]) == gb + (gc + gd);
    assert Groups([a, b, c, d]) == ga + (gb + (gc + gd));
    assert ga + (gb + (gc + gd)) == ga + gb + gc + gd;
  }

  // ---------------------------------------------------------------------
  // Reading the output back
  // ---------------------------------------------------------------------

  /** Each nine-character group's first eight digits, read as a byte, in text order. */
  function ParseGroups(line: string): seq<byte>
  {
    if |line| < BYTE_SIZE + 1 then []
    else
      Pow2Byte();
      [ReadBinary(line[..BYTE_SIZE])] + ParseGroups(line[BYTE_SIZE + 1..])
  }

  /** The storage bytes recovered from a bit line: group order reversed on a little-endian host. */
  function Decode(line: string, bigEndian: bool): seq<byte>
  {
    if bigEndian then ParseGroups(line) else Reverse(ParseGroups(line))
  }

  lemma {:induction false} ParseGroupsOfGroups(bs: seq<byte>)
    ensures ParseGroups(Groups(bs)) == bs
  {
    if bs != [] {
      var s := Groups(bs);
      assert s[..BYTE_SIZE] == ByteDigits(bs[0]);
      assert s[BYTE_SIZE + 1..] == Groups(bs[1..]);
      ByteDigitsAreNumeral(bs[0]);
      Pow2Byte();
      ReadNumeral(bs[0], BYTE_SIZE);
      ParseGroupsOfGroups(bs[1..]);
    }
  }

  /** Round trip: decoding the bit line recovers the original storage bytes exactly. */
  lemma RoundTrip(mem: seq<byte>, bigEndian: bool)
    ensures Decode(BitLine(mem, bigEndian), bigEndian) == mem
  {
    ParseGroupsOfGroups(VisitOrder(mem, bigEndian));
    if !bigEndian {
      ReverseReverse(mem);
    }
  }
}
