/**
 * NPIV port names of the qla2xxx target fabric: tcm_qla2xxx_npiv_extract_wwn
 * reads one WWN written as sixteen hex digits, tcm_qla2xxx_npiv_parse_wwn
 * reads the "WWPN:WWNN" pair of a configuration directory name, and
 * tcm_qla2xxx_npiv_format_wwn prints a pair as two colon-separated byte
 * lists joined by a comma.
 *
 * The loop of the extractor works on C `unsigned int` values: the shift,
 * the OR and the mask are written out on 32-bit unsigned integers below.
 */
module Npiv {
  import opened Common
  import opened Wwn

  // ---------------------------------------------------------------------
  // Unsigned 32-bit bit operations
  // ---------------------------------------------------------------------

  function Pow2(n: nat): (p: nat)
    ensures p >= 1
  {
    if n == 0 then 1 else 2 * Pow2(n - 1)
  }

  /** Bitwise OR of two non-negative integers, one bit at a time. */
  function BitOr(a: nat, b: nat): nat
    decreases a + b
  {
    if a == 0 then b
    else if b == 0 then a
    else 2 * BitOr(a / 2, b / 2) + (if a % 2 == 1 || b % 2 == 1 then 1 else 0)
  }

  /** OR-ing values below 2^n stays below 2^n. */
  lemma {:induction false} BitOrBound(a: nat, b: nat, n: nat)
    requires a < Pow2(n) && b < Pow2(n)
    ensures BitOr(a, b) < Pow2(n)
    decreases n
  {
    if a != 0 && b != 0 {
      BitOrBound(a / 2, b / 2, n - 1);
    }
  }

  /** OR-ing a value below 2^n into a multiple of 2^n is addition. */
  lemma {:induction false} BitOrLow(q: nat, v: nat, n: nat)
    requires v < Pow2(n)
    ensures BitOr(Pow2(n) * q, v) == Pow2(n) * q + v
    decreases n
  {
    var a := Pow2(n) * q;
    if a != 0 && v != 0 {
      var p := Pow2(n - 1) * q;
      assert a == 2 * p;
      BitOrLow(q, v / 2, n - 1);
    }
  }

  /** OR-ing a value below 2^n with 2^n - 1 gives 2^n - 1. */
  lemma {:induction false} BitOrOnes(a: nat, n: nat)
    requires a < Pow2(n)
    ensures BitOr(a, Pow2(n) - 1) == Pow2(n) - 1
    decreases n
  {
    if a != 0 && n != 0 {
      BitOrOnes(a / 2, n - 1);
    }
  }

  lemma {:induction false} Pow2Add(m: nat, n: nat)
    ensures Pow2(m + n) == Pow2(m) * Pow2(n)
    decreases m
  {
    if m > 0 {
      Pow2Add(m - 1, n);
      assert Pow2(m + n) == 2 * (Pow2(m - 1) * Pow2(n));
    }
  }

  lemma Pow2Is32()
    ensures Pow2(4) == 16 && Pow2(32) == U32_MOD
  {
    assert Pow2(4) == 16;
    Pow2Add(4, 4);
    Pow2Add(8, 8);
    Pow2Add(16, 16);
  }

  /** `(j << 4) | value` on unsigned int. */
  function ShiftOr(j: u32, value: u32): u32
  {
    Pow2Is32();
    BitOrBound(j * 16 % U32_MOD, value, 32);
    BitOr(j * 16 % U32_MOD, value)
  }

  /** Shifting a nibble up and OR-ing in another joins them into a byte. */
  lemma ShiftOrNibbles(j: u32, l: u32)
    requires j < 0x1000_0000 && l < 16
    ensures ShiftOr(j, l) == 16 * j + l
  {
    assert Pow2(4) == 16;
    assert j * 16 % U32_MOD == 16 * j;
    BitOrLow(j, l, 4);
  }

  /** OR-ing in 0xffffffff sets every bit. */
  lemma ShiftOrOnes(j: u32)
    ensures ShiftOr(j, U32_MOD - 1) == U32_MOD - 1
  {
    Pow2Is32();
    BitOrOnes(j * 16 % U32_MOD, 32);
  }

  /** 0xffffffff shifted up by a nibble, with a nibble OR-ed in. */
  lemma ShiftOrAfterOnes(l: u32)
    requires l < 16
    ensures ShiftOr(U32_MOD - 1, l) == U32_MOD - 16 + l
  {
    assert (U32_MOD - 1) * 16 % U32_MOD == 16 * 0x0FFF_FFFF;
    ShiftOrNibbles(0x0FFF_FFFF, l);
    assert ShiftOr(0x0FFF_FFFF, l) == ShiftOr(U32_MOD - 1, l);
  }

  /** The three shapes `(h << 4) | l` takes for digit values h and l. */
  lemma ShiftOrCases(h: u32, l: u32)
    requires h < 16 || h == U32_MOD - 1
    requires l < 16 || l == U32_MOD - 1
    ensures h < 16 && l < 16 ==> ShiftOr(h, l) == 16 * h + l
    ensures l == U32_MOD - 1 ==> ShiftOr(h, l) == U32_MOD - 1
    ensures h == U32_MOD - 1 && l < 16 ==> ShiftOr(h, l) == U32_MOD - 16 + l
  {
    if l == U32_MOD - 1 {
      ShiftOrOnes(h);
    } else if h < 16 {
      ShiftOrNibbles(h, l);
    } else {
      ShiftOrAfterOnes(l);
    }
  }

  // ---------------------------------------------------------------------
  // Hex digits
  // ---------------------------------------------------------------------

  /** hex_to_bin: the value of a hex digit of either case, or -1. */
  function HexToBin(c: char): (v: int)
    ensures IsXDigit(c) ==> v == Nibble(c)
    ensures !IsXDigit(c) ==> v == -1
  {
    if '0' <= c <= '9' then c as int - '0' as int
    else if 'a' <= ToLower(c) <= 'f' then ToLower(c) as int - 'a' as int + 10
    else -1
  }

  /** An int stored into an unsigned int: -1 becomes 0xffffffff. */
  function Unsigned(v: int): (u: u32)
    requires -1 <= v < U32_MOD
    ensures v >= 0 ==> u == v
    ensures v == -1 ==> u == U32_MOD - 1
  {
    v % U32_MOD
  }

  /** The digit value the extractor sees for a character. */
  function DigitValue(c: char): u32 {
    Unsigned(HexToBin(c))
  }

  /**
   * The byte the extractor stores for the digit pair `hi lo`: the two
   * nibbles of a valid pair; 0xff when `lo` is not a hex digit; and 0xf0
   * plus the low nibble when only `hi` is not one.
   */
  function PairByte(hi: char, lo: char): (b: u8)
    ensures IsXDigit(hi) && IsXDigit(lo) ==> b == 16 * Nibble(hi) + Nibble(lo)
    ensures !IsXDigit(lo) ==> b == 0xff
    ensures !IsXDigit(hi) && IsXDigit(lo) ==> b == 0xf0 + Nibble(lo)
  {
    PairByteCases(hi, lo);
    ShiftOr(DigitValue(hi), DigitValue(lo)) % 0x100
  }

  /** The low byte of `(h << 4) | l` for the digit values of `hi` and `lo`. */
  lemma PairByteCases(hi: char, lo: char)
    ensures var b := ShiftOr(DigitValue(hi), DigitValue(lo)) % 0x100;
      && (IsXDigit(hi) && IsXDigit(lo) ==> b == 16 * Nibble(hi) + Nibble(lo))
      && (!IsXDigit(lo) ==> b == 0xff)
      && (!IsXDigit(hi) && IsXDigit(lo) ==> b == 0xf0 + Nibble(lo))
  {
    var h := DigitValue(hi);
    var l := DigitValue(lo);
    ShiftOrCases(h, l);
    var v := ShiftOr(h, l);
    if !IsXDigit(lo) {
      assert v == 0xFF_FFFF * 0x100 + 0xff;
    } else if !IsXDigit(hi) {
      assert v == 0xFF_FFFF * 0x100 + (0xf0 + l);
    } else {
      assert v == 16 * h + l < 0x100;
    }
  }

  /** The eight bytes the extractor fills from sixteen characters. */
  function PairBytes(ns: string): (bs: seq<u8>)
    requires |ns| >= 16
    ensures |bs| == 8
  {
    seq(8, k requires 0 <= k < 8 => PairByte(ns[2 * k], ns[2 * k + 1]))
  }

  predicate AllHex(cs: string) {
    forall k :: 0 <= k < |cs| ==> IsXDigit(cs[k])
  }

  // ---------------------------------------------------------------------
  // tcm_qla2xxx_npiv_extract_wwn
  // ---------------------------------------------------------------------

  /**
   * The extractor as written: `value` is unsigned, so the test `value >= 0`
   * never fails and -EINVAL is never returned; a character that is not a
   * hex digit contributes 0xffffffff to the accumulator instead.
   */
  method NpivExtractWwn(ns: string) returns (rc: int, nm: u64)
    requires |ns| >= 16
    ensures rc == 0
    ensures nm == BeValue(PairBytes(ns))
  {
    var wwn := new u8[8](_ => 0);
    var j: u32 := 0;
    var i: nat := 0;
    while i < 16
      invariant i <= 16
      invariant i % 2 == 0 ==> j == 0
      invariant i % 2 == 1 ==> j == DigitValue(ns[i - 1])
      invariant forall k :: 0 <= k < i / 2 ==> wwn[k] == PairByte(ns[2 * k], ns[2 * k + 1])
    {
      var value: u32 := DigitValue(ns[i]);
      if value >= 0 {
        j := ShiftOr(j, value);
      } else {
        assert false;
      }
      if i % 2 == 1 {
        wwn[i / 2] := j % 0x100;
        j := 0;
      }
      i := i + 1;
    }
    assert wwn[..] == PairBytes(ns);
    BeValueFits(wwn[..]);
    nm := BeValue(wwn[..]);
    rc := 0;
  }

  /**
   * The extractor with a signed `value`, so that a character which is not a
   * hex digit makes it fail with -EINVAL as the comment of the source says.
   */
  method NpivExtractWwnChecked(ns: string) returns (rc: int, nm: u64)
    requires |ns| >= 16
    ensures rc == 0 <==> AllHex(ns[..16])
    ensures rc != 0 ==> rc == -EINVAL && nm == 0
    ensures rc == 0 ==> nm == BeValue(PairBytes(ns))
  {
    var wwn := new u8[8](_ => 0);
    var j: u32 := 0;
    var i: nat := 0;
    while i < 16
      invariant i <= 16
      invariant AllHex(ns[..i])
      invariant i % 2 == 0 ==> j == 0
      invariant i % 2 == 1 ==> j == DigitValue(ns[i - 1])
      invariant forall k :: 0 <= k < i / 2 ==> wwn[k] == PairByte(ns[2 * k], ns[2 * k + 1])
    {
      var value: int := HexToBin(ns[i]);
      if value >= 0 {
        j := ShiftOr(j, value);
      } else {
        assert !AllHex(ns[..16]) by { assert ns[..16][i] == ns[i]; }
        return -EINVAL, 0;
      }
      if i % 2 == 1 {
        wwn[i / 2] := j % 0x100;
        j := 0;
      }
      assert ns[..i + 1] == ns[..i] + [ns[i]];
      i := i + 1;
    }
    assert wwn[..] == PairBytes(ns);
    BeValueFits(wwn[..]);
    nm := BeValue(wwn[..]);
    rc := 0;
  }

  /** On sixteen hex digits, the bytes denote the digits' value. */
  lemma {:induction false} PairBytesPrefix(ns: string, k: nat)
    requires |ns| >= 16 && k <= 8 && AllHex(ns[..16])
    ensures AllHex(ns[..2 * k])
    ensures BeValue(PairBytes(ns)[..k]) == HexValue(ns[..2 * k])
  {
    assert forall m :: 0 <= m < 2 * k ==> ns[..2 * k][m] == ns[..16][m];
    if k > 0 {
      PairBytesPrefix(ns, k - 1);
      var bs := PairBytes(ns);
      assert bs[..k][..k - 1] == bs[..k - 1];
      var s := ns[..2 * k];
      assert s[..2 * k - 1] == ns[..2 * k - 1];
      assert s[..2 * k - 1][..2 * k - 2] == ns[..2 * k - 2];
      assert ns[..16][2 * k - 2] == ns[2 * k - 2] && ns[..16][2 * k - 1] == ns[2 * k - 1];
    }
  }

  lemma PairBytesValue(ns: string)
    requires |ns| >= 16 && AllHex(ns[..16])
    ensures BeValue(PairBytes(ns)) == HexValue(ns[..16])
  {
    PairBytesPrefix(ns, 8);
    assert PairBytes(ns)[..8] == PairBytes(ns);
  }

  // ---------------------------------------------------------------------
  // tcm_qla2xxx_npiv_parse_wwn and tcm_qla2xxx_npiv_format_wwn
  // ---------------------------------------------------------------------

  /**
   * The length check of the pair parser: after dropping one trailing
   * newline counted in `count`, the name is 16 + 1 + 16 characters with a
   * colon at index 16.
   */
  predicate NpivShapeOk(name: string, count: nat)
    requires 1 <= count <= |name|
  {
    var cnt := if name[count - 1] == '\n' then count - 1 else count;
    cnt == 33 && name[16] == ':'
  }

  /**
   * tcm_qla2xxx_npiv_parse_wwn: after the length and separator checks it
   * calls the extractor as written on the characters at 0 and at 17, which
   * never fails, so the shape check alone decides the result. Its outputs
   * are zeroed first; each half is the big-endian value of its pair bytes,
   * which on hex digits is the digits' value.
   */
  method NpivParseWwn(name: string, count: nat) returns (rc: int, wwpn: u64, wwnn: u64)
    requires 1 <= count <= |name|
    ensures rc == 0 <==> NpivShapeOk(name, count)
    ensures rc != 0 ==> rc == -EINVAL && wwpn == 0 && wwnn == 0
    ensures rc == 0 ==> wwpn == BeValue(PairBytes(name)) && wwnn == BeValue(PairBytes(name[17..]))
    ensures rc == 0 && AllHex(name[..16]) ==> wwpn == HexValue(name[..16])
    ensures rc == 0 && AllHex(name[17..33]) ==> wwnn == HexValue(name[17..33])
  {
    wwpn, wwnn := 0, 0;
    var cnt := count;
    if name[cnt - 1] == '\n' {
      cnt := cnt - 1;
    }
    if cnt != 16 + 1 + 16 || name[16] != ':' {
      return -EINVAL, wwpn, wwnn;
    }
    rc, wwpn := NpivExtractWwn(name);
    if rc != 0 {
      assert false;
    }
    var rest := name[17..];
    rc, wwnn := NpivExtractWwn(rest);
    if rc != 0 {
      assert false;
    }
    if AllHex(name[..16]) {
      PairBytesValue(name);
    }
    if AllHex(name[17..33]) {
      assert rest[..16] == name[17..33];
      PairBytesValue(rest);
    }
    return 0, wwpn, wwnn;
  }

  /**
   * The pair parser with the checked extractor in place of the one as
   * written: non-hex characters now fail with -EINVAL. Its outputs are
   * zeroed first, and a WWPN that was read stays in place when the WWNN
   * then fails.
   */
  method NpivParseWwnChecked(name: string, count: nat) returns (rc: int, wwpn: u64, wwnn: u64)
    requires 1 <= count <= |name|
    ensures rc == 0 <==>
              NpivShapeOk(name, count) && AllHex(name[..16]) && AllHex(name[17..33])
    ensures rc != 0 ==> rc == -EINVAL && wwnn == 0
    ensures rc != 0 && !(NpivShapeOk(name, count) && AllHex(name[..16])) ==> wwpn == 0
    ensures NpivShapeOk(name, count) && AllHex(name[..16]) ==> wwpn == HexValue(name[..16])
    ensures rc == 0 ==> wwnn == HexValue(name[17..33])
  {
    wwpn, wwnn := 0, 0;
    var cnt := count;
    if name[cnt - 1] == '\n' {
      cnt := cnt - 1;
    }
    if cnt != 16 + 1 + 16 || name[16] != ':' {
      return -EINVAL, wwpn, wwnn;
    }
    var nm: u64;
    rc, nm := NpivExtractWwnChecked(name);
    if rc != 0 {
      return rc, wwpn, wwnn;
    }
    PairBytesValue(name);
    wwpn := nm;
    var rest := name[17..];
    assert rest[..16] == name[17..33];
    rc, nm := NpivExtractWwnChecked(rest);
    if rc != 0 {
      return rc, wwpn, wwnn;
    }
    PairBytesValue(rest);
    wwnn := nm;
    return 0, wwpn, wwnn;
  }

  /** The printed pair: two byte lists of FormatWwn joined by a comma. */
  function NpivFormatWwn(wwpn: u64, wwnn: u64): (s: string)
    ensures |s| == 47
    ensures s[..23] == FormatWwn(wwpn) && s[23] == ',' && s[24..] == FormatWwn(wwnn)
  {
    FormatWwn(wwpn) + [','] + FormatWwn(wwnn)
  }

  /**
   * tcm_qla2xxx_npiv_format_wwn into a buffer of `len` bytes: it returns
   * 47 however much fits.
   */
  function NpivFormatWwnInto(wwpn: u64, wwnn: u64, len: nat): (p: Printed)
    ensures p.ret == 47
    ensures p.buf <= NpivFormatWwn(wwpn, wwnn)
    ensures len >= 48 ==> p.buf == NpivFormatWwn(wwpn, wwnn)
    ensures 0 < len < 48 ==> |p.buf| == len - 1
    ensures len >= 24 ==> p.buf[..23] == FormatWwn(wwpn)
  {
    Snprintf(NpivFormatWwn(wwpn, wwnn), len)
  }

  /**
   * The pair parser does not read what the formatter prints: the printed
   * form is 47 characters long and has a hex digit at index 16.
   */
  lemma NpivFormatNotParsed(wwpn: u64, wwnn: u64, tail: string)
    requires tail == "" || tail == "\n"
    ensures !NpivShapeOk(NpivFormatWwn(wwpn, wwnn) + tail, 47 + |tail|)
  {
    var s := NpivFormatWwn(wwpn, wwnn) + tail;
    assert s[..23] == FormatWwn(wwpn);
    JoinHexAt(BeBytes(wwpn, 8), 5);
    assert s[16] == FormatWwn(wwpn)[16];
  }

  /** The sixteen-digit form the pair parser expects for one WWN. */
  function Hex16(w: u64): (s: string)
    ensures |s| == 16
  {
    var bs := BeBytes(w, 8);
    seq(16, j requires 0 <= j < 16 => if j % 2 == 0 then HexDigit(bs[j / 2] / 16) else HexDigit(bs[j / 2] % 16))
  }

  /** Sixteen digits of a WWN read back as that WWN. */
  lemma Hex16RoundTrip(w: u64)
    ensures AllHex(Hex16(w))
    ensures PairBytes(Hex16(w)) == BeBytes(w, 8)
    ensures BeValue(PairBytes(Hex16(w))) == w
  {
    var s := Hex16(w);
    var bs := BeBytes(w, 8);
    forall k | 0 <= k < 8
      ensures PairBytes(s)[k] == bs[k]
    {
      assert (2 * k) / 2 == k && (2 * k + 1) / 2 == k;
      assert (2 * k) % 2 == 0 && (2 * k + 1) % 2 == 1;
    }
    assert Pow256(8) == U64_MOD;
    BeValueOfBeBytes(w, 8);
  }

  /** The sixteen digits of a WWN denote it. */
  lemma Hex16Value(w: u64)
    ensures AllHex(Hex16(w)) && HexValue(Hex16(w)) == w
  {
    var s := Hex16(w);
    Hex16RoundTrip(w);
    HexValueOfPairs(s);
  }

  lemma HexValueOfPairs(s: string)
    requires |s| == 16 && AllHex(s)
    ensures HexValue(s) == BeValue(PairBytes(s))
  {
    assert s[..16] == s;
    PairBytesValue(s);
  }

  /**
   * "WWPN:WWNN" in sixteen-digit form, with or without a newline counted
   * at its end, passes every check of the pair parser, and each half reads
   * back as the WWN it was printed from.
   */
  lemma NpivParseRoundTrip(wwpn: u64, wwnn: u64, tail: string)
    requires tail == "" || tail == "\n"
    ensures var name := Hex16(wwpn) + [':'] + Hex16(wwnn) + tail;
      && NpivShapeOk(name, 33 + |tail|)
      && AllHex(name[..16]) && AllHex(name[17..33])
      && HexValue(name[..16]) == wwpn && HexValue(name[17..33]) == wwnn
  {
    var name := Hex16(wwpn) + [':'] + Hex16(wwnn) + tail;
    assert name[..16] == Hex16(wwpn);
    assert name[17..33] == Hex16(wwnn);
    assert name[16] == ':';
    Hex16Value(wwpn);
    Hex16Value(wwnn);
  }
}
