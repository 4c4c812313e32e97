/**
 * The SFR dump of exynos-snapshot: on panic, `exynos_ss_dump_sfr` walks the
 * register blocks described in the device tree and appends one text line
 * per register, "0x<address> = 0x<value>\n" in upper-case hexadecimal, to
 * the `log_sfr` item.
 *
 * A block lists physical register addresses (its "addr" property) and the
 * number `num` of entries to dump; the walk of a block stops at the first
 * entry that cannot be read, is 0 or 0xFFFFFFFF, or lies below the block's
 * base as the driver's check (computed in 32-bit arithmetic) detects it.
 */
module SnapshotSfr {
  import opened CInt

  /** One `struct exynos_ss_sfrdump` as the device tree describes it. */
  datatype SfrBlock = SfrBlock(name: string, phyReg: Uint32, num: nat, addrs: seq<Uint32>)

  const HEX_DIGITS: string := "0123456789ABCDEF"

  /** The digits of n in upper-case hexadecimal without leading zeros, as `%X` prints them. */
  function Hex(n: nat): (s: string)
    ensures |s| >= 1 && forall k :: 0 <= k < |s| ==> s[k] in HEX_DIGITS
    decreases n
  {
    if n < 16 then [HEX_DIGITS[n]] else Hex(n / 16) + [HEX_DIGITS[n % 16]]
  }

  /** The value of one hexadecimal digit. */
  function DigitValue(c: char): (v: nat)
    ensures v < 16
    ensures c in HEX_DIGITS ==> HEX_DIGITS[v] == c
  {
    if '0' <= c <= '9' then (c - '0') as nat
    else if 'A' <= c <= 'F' then (c - 'A') as nat + 10
    else 0
  }

  /** The number a string of hexadecimal digits denotes. */
  function ParseHex(s: string): nat
  {
    if s == [] then 0 else ParseHex(s[..|s| - 1]) * 16 + DigitValue(s[|s| - 1])
  }

  lemma DigitRoundTrip(d: nat)
    requires d < 16
    ensures DigitValue(HEX_DIGITS[d]) == d
  {
  }

  /** The printed number reads back as the number printed. */
  lemma {:induction false} HexRoundTrip(n: nat)
    ensures ParseHex(Hex(n)) == n
    decreases n
  {
    if n < 16 {
      assert Hex(n)[..0] == [];
      DigitRoundTrip(n);
    } else {
      var s := Hex(n);
      assert s[..|s| - 1] == Hex(n / 16);
      HexRoundTrip(n / 16);
      DigitRoundTrip(n % 16);
    }
  }

  /** A 32-bit value prints in at most eight digits. */
  lemma {:induction false} HexLength(n: nat, k: nat)
    requires n < Pow2(4 * k) && k >= 1
    ensures |Hex(n)| <= k
    decreases k
  {
    if n >= 16 {
      assert Pow2(4) == 16;
      assert k != 1;
      Pow2Split(4 * (k - 1), 4);
      assert n / 16 < Pow2(4 * (k - 1));
      HexLength(n / 16, k - 1);
    }
  }

  lemma {:induction false} Pow2Split(a: nat, b: nat)
    ensures Pow2(a + b) == Pow2(a) * Pow2(b)
    decreases b
  {
    if b > 0 {
      Pow2Split(a, b - 1);
      assert Pow2(a + b) == 2 * Pow2(a + b - 1);
    }
  }

  lemma U32Hex(n: Uint32)
    ensures |Hex(n)| <= 8
  {
    Pow2Split(16, 16);
    Pow2Values();
    assert Pow2(16) == 65536 by { Pow2Split(8, 8); }
    assert Pow2(32) == 0x1_0000_0000;
    HexLength(n, 8);
  }

  /** The text `snprintf(buf, SZ_64, "0x%X = 0x%0X\n", reg, val)` produces. */
  function Line(reg: Uint32, val: Uint32): (s: string)
  {
    "0x" + Hex(reg) + " = 0x" + Hex(val) + "\n"
  }

  /**
   * A line is at most 24 characters, so it always fits the 64-byte buffer it
   * is printed into, and both numbers can be read back from it.
   */
  lemma LineFits(reg: Uint32, val: Uint32)
    ensures 9 <= |Line(reg, val)| <= 24
    ensures ParseHex(Line(reg, val)[2..2 + |Hex(reg)|]) == reg
    ensures Line(reg, val)[2 + |Hex(reg)|..2 + |Hex(reg)| + 5] == " = 0x"
  {
    U32Hex(reg);
    U32Hex(val);
    var s := Line(reg, val);
    var h := Hex(reg);
    assert s == "0x" + h + (" = 0x" + Hex(val) + "\n");
    assert s[2..2 + |h|] == h;
    assert s[2 + |h|..2 + |h| + 5] == " = 0x";
    HexRoundTrip(reg);
  }

  /** The characters of a line as the bytes memcpy copies. */
  function Ascii(s: string): (b: seq<Byte>)
    requires forall k :: 0 <= k < |s| ==> s[k] as int < 256
    ensures |b| == |s| && forall k :: 0 <= k < |s| ==> b[k] == s[k] as int
  {
    seq(|s|, k requires 0 <= k < |s| => s[k] as int)
  }

  lemma LineAscii(reg: Uint32, val: Uint32)
    ensures forall k :: 0 <= k < |Line(reg, val)| ==> Line(reg, val)[k] as int < 256
  {
    var s := Line(reg, val);
    forall k | 0 <= k < |s|
      ensures s[k] as int < 256
    {
      if 2 <= k < 2 + |Hex(reg)| {
        assert s[k] == Hex(reg)[k - 2];
      } else if 2 + |Hex(reg)| + 5 <= k < |s| - 1 {
        assert s[k] == Hex(val)[k - 2 - |Hex(reg)| - 5];
      }
    }
  }

  /** The bytes of the line. */
  function LineBytes(reg: Uint32, val: Uint32): (b: seq<Byte>)
    ensures 9 <= |b| <= 24
  {
    LineFits(reg, val);
    LineAscii(reg, val);
    Ascii(Line(reg, val))
  }

  /**
   * Whether the walk of a block stops at entry i: the "addr" property has no
   * such entry, the address is 0 or 0xFFFFFFFF, or `reg < reg - phy_reg` in
   * 32-bit arithmetic (the address lies below the block's base).
   */
  predicate Stops(b: SfrBlock, i: nat)
  {
    i >= |b.addrs| ||
    b.addrs[i] == 0 || b.addrs[i] == 0xFFFF_FFFF ||
    b.addrs[i] < U32(b.addrs[i] - b.phyReg)
  }

  /** The 32-bit check rejects exactly the addresses below the block's base. */
  lemma StopsBelowBase(b: SfrBlock, i: nat)
    requires i < |b.addrs| && b.addrs[i] != 0 && b.addrs[i] != 0xFFFF_FFFF
    ensures Stops(b, i) <==> b.addrs[i] < b.phyReg
  {
    var a := b.addrs[i];
    if a >= b.phyReg {
      DivModUnique(a - b.phyReg, U32_MOD, 0, a - b.phyReg);
    } else {
      DivModUnique(a - b.phyReg, U32_MOD, -1, a - b.phyReg + U32_MOD);
    }
  }

  /** The lines for entries i, i+1, ... of a block, up to `num` or the first entry that stops the walk. */
  function BlockLines(b: SfrBlock, sfr: Uint32 -> Uint32, i: nat): (ls: seq<seq<Byte>>)
    ensures forall k :: 0 <= k < |ls| ==> 9 <= |ls[k]| <= 24
    ensures |ls| == 0 || (i + |ls| <= b.num && i + |ls| <= |b.addrs|)
    decreases b.num - i
  {
    if i >= b.num || Stops(b, i) then []
    else [LineBytes(b.addrs[i], sfr(b.addrs[i]))] + BlockLines(b, sfr, i + 1)
  }

  /** All lines of a dump, block after block; `sfr` gives the value each register holds. */
  function DumpLines(blocks: seq<SfrBlock>, sfr: Uint32 -> Uint32): (ls: seq<seq<Byte>>)
    ensures forall k :: 0 <= k < |ls| ==> 9 <= |ls[k]| <= 24
  {
    if blocks == [] then []
    else DumpLines(blocks[..|blocks| - 1], sfr) + BlockLines(blocks[|blocks| - 1], sfr, 0)
  }

  /** A block's dump holds one line per entry before the first one that stops the walk, each line naming that entry's register and value. */
  lemma {:induction false} BlockLinesAre(b: SfrBlock, sfr: Uint32 -> Uint32, i: nat, k: nat)
    requires k < |BlockLines(b, sfr, i)|
    ensures i + k < b.num && !Stops(b, i + k)
    ensures BlockLines(b, sfr, i)[k] == LineBytes(b.addrs[i + k], sfr(b.addrs[i + k]))
    decreases k
  {
    if k > 0 {
      BlockLinesAre(b, sfr, i + 1, k - 1);
    }
  }
}
