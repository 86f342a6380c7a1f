/**
 * World Wide Names of the qla2xxx target fabric: tcm_qla2xxx_parse_wwn,
 * which reads a WWN from a configuration directory name, and
 * tcm_qla2xxx_format_wwn, which prints one as eight colon-separated bytes.
 *
 * A name is a C string: `At` reads the character at an index and yields
 * NUL past the end of the sequence.
 */
module Wwn {
  import opened Common

  /** TCM_QLA2XXX_NAMELEN: the scan stops before the last byte of the buffer. */
  const NAMELEN: nat := 32

  function At(name: string, i: nat): char {
    if i < |name| then name[i] else '\0'
  }

  predicate IsDigit(c: char) { '0' <= c <= '9' }
  predicate IsLower(c: char) { 'a' <= c <= 'z' }
  predicate IsXDigit(c: char) { IsDigit(c) || 'a' <= c <= 'f' || 'A' <= c <= 'F' }
  /** The hex digits a strict name may use: digits and lower-case letters. */
  predicate IsLowerHex(c: char) { IsDigit(c) || 'a' <= c <= 'f' }

  function ToLower(c: char): char {
    if 'A' <= c <= 'Z' then (c as int - 'A' as int + 'a' as int) as char else c
  }

  /** The nibble parse_wwn takes from a hex digit: `c - '0'` or `tolower(c) - 'a' + 10`. */
  function Nibble(c: char): (n: nat)
    requires IsXDigit(c)
    ensures n < 16
  {
    if IsDigit(c) then c as int - '0' as int else ToLower(c) as int - 'a' as int + 10
  }

  /** The digit `%x` prints for a nibble; it reads back as the same nibble. */
  function HexDigit(n: nat): (c: char)
    requires n < 16
    ensures IsLowerHex(c)
    ensures Nibble(c) == n
  {
    if n < 10 then ('0' as int + n) as char else ('a' as int + n - 10) as char
  }

  lemma HexDigitOfNibble(c: char)
    requires IsLowerHex(c)
    ensures HexDigit(Nibble(c)) == c
  {
  }

  // ---------------------------------------------------------------------
  // Formatting
  // ---------------------------------------------------------------------

  /** put_unaligned_be64 on the low `n` bytes: most significant byte first. */
  function BeBytes(w: nat, n: nat): (bs: seq<u8>)
    ensures |bs| == n
  {
    if n == 0 then [] else BeBytes(w / 256, n - 1) + [w % 256]
  }

  /** The number a big-endian byte string denotes (wwn_to_u64). */
  function BeValue(bs: seq<u8>): nat {
    if |bs| == 0 then 0 else BeValue(bs[..|bs| - 1]) * 256 + bs[|bs| - 1]
  }

  /** The bytes printed with `%2.2x`, separated by colons. */
  function JoinHex(bs: seq<u8>): (s: string)
    requires |bs| >= 1
    ensures |s| == 3 * |bs| - 1
  {
    seq(3 * |bs| - 1, j requires 0 <= j < 3 * |bs| - 1 =>
      if j % 3 == 2 then ':' else if j % 3 == 0 then HexDigit(bs[j / 3] / 16) else HexDigit(bs[j / 3] % 16))
  }

  lemma ModThree(k: nat)
    ensures (3 * k) / 3 == k && (3 * k + 1) / 3 == k && (3 * k + 2) / 3 == k
    ensures (3 * k) % 3 == 0 && (3 * k + 1) % 3 == 1 && (3 * k + 2) % 3 == 2
  {
  }

  /** The characters of JoinHex(bs) for byte k: its two digits and the separator after it. */
  lemma JoinHexAt(bs: seq<u8>, k: nat)
    requires k < |bs|
    ensures JoinHex(bs)[3 * k] == HexDigit(bs[k] / 16)
    ensures JoinHex(bs)[3 * k + 1] == HexDigit(bs[k] % 16)
    ensures k + 1 < |bs| ==> JoinHex(bs)[3 * k + 2] == ':'
  {
    ModThree(k);
  }

  /** tcm_qla2xxx_format_wwn: "xx:xx:xx:xx:xx:xx:xx:xx", 23 characters. */
  function FormatWwn(w: u64): (s: string)
    ensures |s| == 23
  {
    JoinHex(BeBytes(w, 8))
  }

  /** What snprintf leaves in a buffer (without its terminator) and what it returns. */
  datatype Printed = Printed(buf: string, ret: nat)

  /**
   * snprintf(buf, len, ...) of the text `s`: the buffer keeps the first
   * `len - 1` characters and a terminator, nothing when `len` is 0; the
   * return value is the length of the whole text, truncated or not.
   */
  function Snprintf(s: string, len: nat): (p: Printed)
    ensures p.ret == |s|
    ensures p.buf <= s
    ensures len == 0 ==> p.buf == []
    ensures len > 0 ==> |p.buf| < len
    ensures len > |s| ==> p.buf == s
    ensures 0 < len <= |s| ==> |p.buf| == len - 1
  {
    if len == 0 then Printed([], |s|)
    else if len - 1 < |s| then Printed(s[..len - 1], |s|)
    else Printed(s, |s|)
  }

  /** tcm_qla2xxx_format_wwn into a buffer of `len` bytes: it returns 23 however much fits. */
  function FormatWwnInto(w: u64, len: nat): (p: Printed)
    ensures p.ret == 23
    ensures p.buf <= FormatWwn(w)
    ensures len >= 24 ==> p.buf == FormatWwn(w)
    ensures 0 < len < 24 ==> |p.buf| == len - 1
  {
    Snprintf(FormatWwn(w), len)
  }

  function Pow256(n: nat): (p: nat)
    ensures p >= 1
  {
    if n == 0 then 1 else 256 * Pow256(n - 1)
  }

  lemma {:induction false} BeValueBound(bs: seq<u8>)
    ensures BeValue(bs) < Pow256(|bs|)
  {
    if |bs| > 0 {
      BeValueBound(bs[..|bs| - 1]);
    }
  }

  lemma {:induction false} Pow256Mono(m: nat, n: nat)
    requires m <= n
    ensures Pow256(m) <= Pow256(n)
    decreases n
  {
    if m < n {
      Pow256Mono(m, n - 1);
    }
  }

  /** A value of up to eight bytes fits a u64. */
  lemma BeValueFits(bs: seq<u8>)
    requires |bs| <= 8
    ensures BeValue(bs) < U64_MOD
  {
    BeValueBound(bs);
    Pow256Mono(|bs|, 8);
    assert Pow256(8) == U64_MOD;
  }

  /** Printing the bytes of `w` and reading them back gives `w`. */
  lemma {:induction false} BeValueOfBeBytes(w: nat, n: nat)
    requires w < Pow256(n)
    ensures BeValue(BeBytes(w, n)) == w
  {
    if n > 0 {
      BeValueOfBeBytes(w / 256, n - 1);
      var bs := BeBytes(w, n);
      assert bs[..n - 1] == BeBytes(w / 256, n - 1);
    }
  }

  /** Reading the value of a byte string and printing it back gives the bytes. */
  lemma {:induction false} BeBytesOfBeValue(bs: seq<u8>)
    ensures BeBytes(BeValue(bs), |bs|) == bs
  {
    if |bs| > 0 {
      var n := |bs|;
      BeBytesOfBeValue(bs[..n - 1]);
      assert BeValue(bs) / 256 == BeValue(bs[..n - 1]);
      assert BeValue(bs) % 256 == bs[n - 1];
      assert bs == bs[..n - 1] + [bs[n - 1]];
    }
  }

  /** `(*wwn << 4) | nibble` on a 64-bit value, for a nibble below 16. */
  function ShiftIn(w: u64, n: nat): u64 {
    (w * 16 + n) % U64_MOD
  }

  /** Two hex digits of byte `b` appended to the value read so far (`*wwn << 4 | nibble`, twice). */
  function GroupAcc(acc: u64, b: u8): u64 {
    ShiftIn(ShiftIn(acc, b / 16), b % 16)
  }

  /** Reading the bytes of a value one at a time never wraps. */
  lemma AccumulateByte(bs: seq<u8>, k: nat)
    requires k < |bs| <= 8
    ensures BeValue(bs[..k + 1]) < U64_MOD
    ensures BeValue(bs[..k]) < U64_MOD
    ensures GroupAcc(BeValue(bs[..k]), bs[k]) == BeValue(bs[..k + 1])
  {
    var a := BeValue(bs[..k]);
    var b := bs[k];
    BeValueFits(bs[..k + 1]);
    BeValueFits(bs[..k]);
    assert bs[..k + 1][..k] == bs[..k];
    assert BeValue(bs[..k + 1]) == a * 256 + b;
    assert (a * 16 + b / 16) * 16 + b % 16 == a * 256 + b;
    assert ShiftIn(a, b / 16) == a * 16 + b / 16;
  }

  // ---------------------------------------------------------------------
  // Parsing
  // ---------------------------------------------------------------------

  /** The locals of the parse loop: separator position, bytes seen, value so far. */
  datatype ScanState = ScanState(pos: nat, byte: nat, wwn: u64)

  /** Return value (the length consumed, or -1) and the `*wwn` left behind. */
  datatype ParseResult = ParseResult(ret: int, wwn: u64)

  /** What one pass of the parse loop does: go on with new locals, or return. */
  datatype Step = Next(st: ScanState) | Stop(r: ParseResult)

  /**
   * One pass of the parse loop at index `i`. `fixed` adds the check a
   * strict name needs to be one-to-one with its WWN: once eight bytes have
   * been read, only the terminator may follow. With `fixed` false this is
   * the loop body of tcm_qla2xxx_parse_wwn as written.
   */
  function ScanStep(name: string, strict: bool, fixed: bool, i: nat, st: ScanState): Step {
    var c := At(name, i);
    if c == '\n' && At(name, i + 1) == '\0' then Next(st)
    else
      // `strict && pos++ == 2 && byte++ < 7`
      var st1 := if strict then st.(pos := st.pos + 1, byte := if st.pos == 2 then st.byte + 1 else st.byte)
                 else st;
      if strict && st.pos == 2 && st.byte < 7 then
        if c == ':' then Next(st1.(pos := 0)) else Stop(ParseResult(-1, st.wwn))
      else if fixed && strict && st1.byte == 8 && c != '\0' then
        Stop(ParseResult(-1, st.wwn))
      else if c == '\0' then
        if strict && st1.byte != 8 then Stop(ParseResult(-1, st.wwn)) else Stop(ParseResult(i, st.wwn))
      else if IsDigit(c) || (IsXDigit(c) && (IsLower(c) || !strict)) then
        // `(*wwn << 4) | nibble`: the shift clears the low nibble
        Next(st1.(wwn := ShiftIn(st.wwn, Nibble(c))))
      else
        Stop(ParseResult(-1, st.wwn))
  }

  /** The parse loop from index `i` on; the scan never returns past the buffer. */
  function Scan(name: string, strict: bool, fixed: bool, i: nat, st: ScanState): (r: ParseResult)
    ensures r.ret == -1 || i <= r.ret < NAMELEN - 1
    decreases NAMELEN - i
  {
    if i >= NAMELEN - 1 then ParseResult(-1, st.wwn)
    else
      match ScanStep(name, strict, fixed, i, st)
      case Next(st') => Scan(name, strict, fixed, i + 1, st')
      case Stop(r) => r
  }

  /** tcm_qla2xxx_parse_wwn as written. */
  function ParseAsWritten(name: string, strict: bool): (r: ParseResult)
    ensures r.ret == -1 || 0 <= r.ret < NAMELEN - 1
  {
    Scan(name, strict, false, 0, ScanState(0, 0, 0))
  }

  /** tcm_qla2xxx_parse_wwn with the strict check completed. */
  function ParseCorrected(name: string, strict: bool): (r: ParseResult)
    ensures r.ret == -1 || 0 <= r.ret < NAMELEN - 1
  {
    Scan(name, strict, true, 0, ScanState(0, 0, 0))
  }

  /** The parse loop of tcm_qla2xxx_parse_wwn. */
  method ParseWwn(name: string, strict: bool) returns (ret: int, wwn: u64)
    ensures ParseResult(ret, wwn) == ParseAsWritten(name, strict)
  {
    wwn := 0;
    var pos: nat, byte: nat := 0, 0;
    var i: nat := 0;
    while i < NAMELEN - 1
      invariant i <= NAMELEN - 1
      invariant Scan(name, strict, false, i, ScanState(pos, byte, wwn)) == ParseAsWritten(name, strict)
    {
      var c := At(name, i);
      if c == '\n' && At(name, i + 1) == '\0' {
        i := i + 1;
        continue;
      }
      if strict {
        var oldPos := pos;
        pos := pos + 1;
        if oldPos == 2 {
          var oldByte := byte;
          byte := byte + 1;
          if oldByte < 7 {
            pos := 0;
            if c == ':' {
              i := i + 1;
              continue;
            }
            return -1, wwn;
          }
        }
      }
      if c == '\0' {
        if strict && byte != 8 {
          return -1, wwn;
        }
        return i, wwn;
      }
      var nibble: nat;
      if IsDigit(c) {
        nibble := c as int - '0' as int;
      } else if IsXDigit(c) && (IsLower(c) || !strict) {
        nibble := ToLower(c) as int - 'a' as int + 10;
      } else {
        return -1, wwn;
      }
      wwn := ShiftIn(wwn, nibble);
      i := i + 1;
    }
    return -1, wwn;
  }

  // ---------------------------------------------------------------------
  // One step of a strict scan
  // ---------------------------------------------------------------------

  /** A digit position of a strict name: a lower-case hex digit is taken, anything else fails. */
  lemma DigitStep(name: string, fixed: bool, i: nat, st: ScanState)
    requires i < NAMELEN - 1 && st.pos < 2 && st.byte < 8
    ensures IsLowerHex(At(name, i)) ==>
              Scan(name, true, fixed, i, st)
              == Scan(name, true, fixed, i + 1,
                      st.(pos := st.pos + 1, wwn := ShiftIn(st.wwn, Nibble(At(name, i)))))
    ensures !IsLowerHex(At(name, i)) ==> Scan(name, true, fixed, i, st).ret == -1
  {
    if At(name, i) == '\n' && At(name, i + 1) == '\0' && i + 1 < NAMELEN - 1 {
      assert Scan(name, true, fixed, i + 1, st).ret == -1;
    }
  }

  /** A separator position before the eighth byte: only ':' is accepted. */
  lemma SepStep(name: string, fixed: bool, i: nat, st: ScanState)
    requires i < NAMELEN - 1 && st.pos == 2 && st.byte < 7
    ensures At(name, i) == ':' ==>
              Scan(name, true, fixed, i, st) == Scan(name, true, fixed, i + 1, st.(pos := 0, byte := st.byte + 1))
    ensures At(name, i) != ':' ==> Scan(name, true, fixed, i, st).ret == -1
  {
    if At(name, i) == '\n' && At(name, i + 1) == '\0' && i + 1 < NAMELEN - 1 {
      assert Scan(name, true, fixed, i + 1, st).ret == -1;
    }
  }

  /**
   * The position after the eighth byte: the terminator (possibly after a
   * newline) ends the name; with the corrected check nothing else may follow.
   */
  lemma FinalStep(name: string, fixed: bool, i: nat, st: ScanState)
    requires i + 1 < NAMELEN - 1 && st.pos == 2 && st.byte == 7
    ensures At(name, i) == '\0' ==> Scan(name, true, fixed, i, st) == ParseResult(i, st.wwn)
    ensures At(name, i) == '\n' && At(name, i + 1) == '\0' ==>
              Scan(name, true, fixed, i, st) == ParseResult(i + 1, st.wwn)
    ensures fixed && At(name, i) != '\0' && !(At(name, i) == '\n' && At(name, i + 1) == '\0') ==>
              Scan(name, true, fixed, i, st).ret == -1
  {
    if At(name, i) == '\n' && At(name, i + 1) == '\0' {
      assert Scan(name, true, fixed, i + 1, st) == ParseResult(i + 1, st.wwn);
    }
  }

  // ---------------------------------------------------------------------
  // Strict names
  // ---------------------------------------------------------------------

  /** The character a strict name holds at position j < 23. */
  predicate StrictCharOk(name: string, j: nat) {
    if j % 3 == 2 then At(name, j) == ':' else IsLowerHex(At(name, j))
  }

  /** The nibble of a hex digit; zero for anything else. */
  function HexNib(c: char): (n: nat)
    ensures n < 16
  {
    if IsXDigit(c) then Nibble(c) else 0
  }

  /** The eight bytes spelled by the hex pairs of a strict name. */
  function DecodeBytes(name: string): (bs: seq<u8>)
    ensures |bs| == 8
  {
    seq(8, k requires 0 <= k < 8 => 16 * HexNib(At(name, 3 * k)) + HexNib(At(name, 3 * k + 1)))
  }

  lemma DecodeBytesAt(name: string, k: nat)
    requires k < 8
    requires StrictCharOk(name, 3 * k) && StrictCharOk(name, 3 * k + 1)
    requires k < 7 ==> StrictCharOk(name, 3 * k + 2)
    ensures At(name, 3 * k) == JoinHex(DecodeBytes(name))[3 * k]
    ensures At(name, 3 * k + 1) == JoinHex(DecodeBytes(name))[3 * k + 1]
    ensures k < 7 ==> At(name, 3 * k + 2) == JoinHex(DecodeBytes(name))[3 * k + 2]
  {
    JoinHexAt(DecodeBytes(name), k);
    ModThree(k);
    HexDigitOfNibble(At(name, 3 * k));
    HexDigitOfNibble(At(name, 3 * k + 1));
  }

  /** A name of strict shape is the formatting of the bytes it spells. */
  lemma DecodeBytesFormat(name: string)
    requires forall j :: 0 <= j < 23 ==> StrictCharOk(name, j)
    ensures |name| >= 23 && name[..23] == JoinHex(DecodeBytes(name))
  {
    assert StrictCharOk(name, 22);
    var bs := DecodeBytes(name);
    forall j | 0 <= j < 23
      ensures name[..23][j] == JoinHex(bs)[j]
    {
      var k := j / 3;
      assert j == 3 * k || j == 3 * k + 1 || j == 3 * k + 2;
      assert StrictCharOk(name, 3 * k) && StrictCharOk(name, 3 * k + 1);
      assert k < 7 ==> StrictCharOk(name, 3 * k + 2);
      DecodeBytesAt(name, k);
    }
  }

  /** One digit of a strict name that spells nibble `n`. */
  lemma DigitRead(name: string, fixed: bool, i: nat, st: ScanState, n: nat)
    requires i < NAMELEN - 1 && st.pos < 2 && st.byte < 8 && n < 16
    requires At(name, i) == HexDigit(n)
    ensures Scan(name, true, fixed, i, st)
            == Scan(name, true, fixed, i + 1, st.(pos := st.pos + 1, wwn := ShiftIn(st.wwn, n)))
  {
    DigitStep(name, fixed, i, st);
  }

  /** The two digits of one byte of a strict name. */
  lemma TwoDigits(name: string, fixed: bool, i: nat, st: ScanState, b: u8)
    requires i + 1 < NAMELEN - 1 && st.pos == 0 && st.byte < 8
    requires At(name, i) == HexDigit(b / 16) && At(name, i + 1) == HexDigit(b % 16)
    ensures Scan(name, true, fixed, i, st)
            == Scan(name, true, fixed, i + 2, st.(pos := 2, wwn := GroupAcc(st.wwn, b)))
  {
    var st1 := st.(pos := 1, wwn := ShiftIn(st.wwn, b / 16));
    var st2 := st1.(pos := 2, wwn := ShiftIn(st1.wwn, b % 16));
    assert st2 == st.(pos := 2, wwn := GroupAcc(st.wwn, b));
    DigitRead(name, fixed, i, st, b / 16);
    DigitRead(name, fixed, i + 1, st1, b % 16);
    assert Scan(name, true, fixed, i + 1, st1) == Scan(name, true, fixed, i + 2, st2);
  }

  /** Reading the two digits of group k of a name that spells `bs`. */
  lemma GroupRead(name: string, bs: seq<u8>, fixed: bool, k: nat, st: ScanState)
    requires |bs| == 8 && |name| >= 23 && name[..23] == JoinHex(bs)
    requires k <= 7 && st.pos == 0 && st.byte == k && st.wwn == BeValue(bs[..k])
    requires BeValue(bs) < U64_MOD
    ensures BeValue(bs[..k + 1]) < U64_MOD
    ensures Scan(name, true, fixed, 3 * k, st) == Scan(name, true, fixed, 3 * k + 2, ScanState(2, k, BeValue(bs[..k + 1])))
  {
    var i := 3 * k;
    JoinHexAt(bs, k);
    assert At(name, i) == JoinHex(bs)[i] && At(name, i + 1) == JoinHex(bs)[i + 1];
    TwoDigits(name, fixed, i, st, bs[k]);
    AccumulateByte(bs, k);
  }

  /** Reading the 8 groups of a name that spells `bs`, from group k on. */
  lemma {:induction false} ScanGroups(name: string, bs: seq<u8>, fixed: bool, k: nat, st: ScanState)
    requires |bs| == 8 && |name| >= 23 && name[..23] == JoinHex(bs)
    requires k <= 7 && st.pos == 0 && st.byte == k && st.wwn == BeValue(bs[..k])
    requires BeValue(bs) < U64_MOD
    ensures Scan(name, true, fixed, 3 * k, st) == Scan(name, true, fixed, 23, ScanState(2, 7, BeValue(bs)))
    decreases 7 - k
  {
    AccumulateByte(bs, k);
    var st2 := ScanState(2, k, BeValue(bs[..k + 1]));
    assert Scan(name, true, fixed, 3 * k, st) == Scan(name, true, fixed, 3 * k + 2, st2) by {
      GroupRead(name, bs, fixed, k, st);
    }
    if k < 7 {
      var st3 := st2.(pos := 0, byte := st2.byte + 1);
      assert Scan(name, true, fixed, 3 * k + 2, st2) == Scan(name, true, fixed, 3 * (k + 1), st3) by {
        JoinHexAt(bs, k);
        assert At(name, 3 * k + 2) == JoinHex(bs)[3 * k + 2];
        SepStep(name, fixed, 3 * k + 2, st2);
        assert 3 * (k + 1) == 3 * k + 2 + 1;
      }
      ScanGroups(name, bs, fixed, k + 1, st3);
    } else {
      assert bs[..k + 1] == bs;
    }
  }

  /** The two digits of one byte of a name a strict scan accepts. */
  lemma TwoDigitsAccepted(name: string, fixed: bool, i: nat, st: ScanState)
    requires i + 1 < NAMELEN - 1 && st.pos == 0 && st.byte < 8
    requires Scan(name, true, fixed, i, st).ret != -1
    ensures IsLowerHex(At(name, i)) && IsLowerHex(At(name, i + 1))
    ensures Scan(name, true, fixed, i, st)
            == Scan(name, true, fixed, i + 2,
                    st.(pos := 2, wwn := ShiftIn(ShiftIn(st.wwn, Nibble(At(name, i))), Nibble(At(name, i + 1)))))
  {
    DigitStep(name, fixed, i, st);
    var st1 := st.(pos := 1, wwn := ShiftIn(st.wwn, Nibble(At(name, i))));
    DigitStep(name, fixed, i + 1, st1);
  }

  /**
   * Every name a strict scan accepts (as written or corrected) starts with
   * eight two-digit lower-case hex bytes separated by colons: an upper-case
   * digit, a missing or misplaced separator or fewer than eight bytes all
   * fail.
   */
  lemma {:induction false} StrictSuccessShape(name: string, fixed: bool, k: nat, st: ScanState)
    requires k <= 7 && st.pos == 0 && st.byte == k
    requires Scan(name, true, fixed, 3 * k, st).ret != -1
    ensures forall j :: 3 * k <= j < 23 ==> StrictCharOk(name, j)
    decreases 7 - k
  {
    var i := 3 * k;
    TwoDigitsAccepted(name, fixed, i, st);
    var st2 := st.(pos := 2, wwn := ShiftIn(ShiftIn(st.wwn, Nibble(At(name, i))), Nibble(At(name, i + 1))));
    if k < 7 {
      SepStep(name, fixed, i + 2, st2);
      var st3 := st2.(pos := 0, byte := st2.byte + 1);
      assert Scan(name, true, fixed, 3 * (k + 1), st3).ret != -1 by {
        assert 3 * (k + 1) == i + 3;
      }
      StrictSuccessShape(name, fixed, k + 1, st3);
    }
    GroupChars(name, k);
  }

  /** The three characters of byte k: two lower-case hex digits, then a colon unless it is the last byte. */
  lemma GroupChars(name: string, k: nat)
    requires k <= 7 && IsLowerHex(At(name, 3 * k)) && IsLowerHex(At(name, 3 * k + 1))
    requires k < 7 ==> At(name, 3 * k + 2) == ':'
    ensures forall j :: 3 * k <= j < 3 * k + 3 && j < 23 ==> StrictCharOk(name, j)
  {
    ModThree(k);
  }

  /** A name strict parsing accepts, as written or corrected, begins with the formatted shape. */
  lemma StrictAcceptsOnlyFormattedShape(name: string, fixed: bool)
    requires Scan(name, true, fixed, 0, ScanState(0, 0, 0)).ret != -1
    ensures forall j :: 0 <= j < 23 ==> StrictCharOk(name, j)
    ensures Scan(name, true, fixed, 0, ScanState(0, 0, 0)).ret >= 23
  {
    StrictSuccessShape(name, fixed, 0, ScanState(0, 0, 0));
    var bs := DecodeBytes(name);
    DecodeBytesFormat(name);
    BeValueFits(bs);
    ScanGroups(name, bs, fixed, 0, ScanState(0, 0, 0));
  }

  /** A strict scan of a name that starts with the formatting of `w` reads `w` in its first 23 characters. */
  lemma FormattedPrefix(name: string, w: u64, fixed: bool)
    requires |name| >= 23 && name[..23] == FormatWwn(w)
    ensures Scan(name, true, fixed, 0, ScanState(0, 0, 0)) == Scan(name, true, fixed, 23, ScanState(2, 7, w))
  {
    var bs := BeBytes(w, 8);
    assert Pow256(8) == U64_MOD;
    BeValueOfBeBytes(w, 8);
    ScanGroups(name, bs, fixed, 0, ScanState(0, 0, 0));
  }

  /** Formatting a WWN and parsing it strictly, with or without a newline, gives it back. */
  lemma StrictRoundTrip(w: u64, tail: string)
    requires tail == "" || tail == "\n"
    ensures ParseAsWritten(FormatWwn(w) + tail, true) == ParseResult(23 + |tail|, w)
    ensures ParseCorrected(FormatWwn(w) + tail, true) == ParseResult(23 + |tail|, w)
  {
    var name := FormatWwn(w) + tail;
    assert name[..23] == FormatWwn(w);
    FormattedPrefix(name, w, false);
    FormattedPrefix(name, w, true);
    FinalStep(name, false, 23, ScanState(2, 7, w));
    FinalStep(name, true, 23, ScanState(2, 7, w));
  }

  /**
   * A buffer that holds the whole formatted WWN parses strictly back to
   * it; a buffer of 23 bytes or fewer holds a truncated name, which
   * strict parsing rejects.
   */
  lemma FormatWwnIntoParses(w: u64, len: nat)
    ensures len >= 24 ==> ParseAsWritten(FormatWwnInto(w, len).buf, true) == ParseResult(23, w)
    ensures len < 24 ==> ParseAsWritten(FormatWwnInto(w, len).buf, true).ret == -1
  {
    var buf := FormatWwnInto(w, len).buf;
    if len >= 24 {
      StrictRoundTrip(w, "");
      assert FormatWwn(w) + "" == buf;
    } else {
      ShortStrictRejected(buf);
    }
  }

  /** A strict name shorter than the 23-character form is rejected. */
  lemma ShortStrictRejected(name: string)
    requires |name| < 23
    ensures ParseAsWritten(name, true).ret == -1
  {
    assert !StrictCharOk(name, 22);
    if ParseAsWritten(name, true).ret != -1 {
      StrictAcceptsOnlyFormattedShape(name, false);
      assert false;
    }
  }

  /**
   * The corrected strict parse is one-to-one: an accepted name is the
   * formatting of the WWN it yields, followed by the terminator or by a
   * newline and the terminator.
   */
  lemma CorrectedStrictIsFormat(name: string)
    requires ParseCorrected(name, true).ret != -1
    ensures |name| >= 23 && name[..23] == FormatWwn(ParseCorrected(name, true).wwn)
    ensures var r := ParseCorrected(name, true);
            (r.ret == 23 && At(name, 23) == '\0')
            || (r.ret == 24 && At(name, 23) == '\n' && At(name, 24) == '\0')
  {
    StrictAcceptsOnlyFormattedShape(name, true);
    var bs := DecodeBytes(name);
    DecodeBytesFormat(name);
    BeValueFits(bs);
    ScanGroups(name, bs, true, 0, ScanState(0, 0, 0));
    FinalStep(name, true, 23, ScanState(2, 7, BeValue(bs)));
    BeBytesOfBeValue(bs);
  }

  /** Two names the corrected strict parse maps to the same WWN agree up to the terminator. */
  lemma CorrectedStrictInjective(n1: string, n2: string)
    requires ParseCorrected(n1, true).ret != -1 && ParseCorrected(n2, true).ret != -1
    requires ParseCorrected(n1, true).wwn == ParseCorrected(n2, true).wwn
    ensures forall j :: 0 <= j < 23 ==> At(n1, j) == At(n2, j)
  {
    CorrectedStrictIsFormat(n1);
    CorrectedStrictIsFormat(n2);
  }

  lemma {:induction false} BeBytesSmall(w: nat, n: nat)
    requires w < 256 && n >= 1
    ensures BeBytes(w, n) == seq(n - 1, _ => 0) + [w]
  {
    if n > 1 {
      BeBytesSmall(0, n - 1);
    }
  }

  lemma FormatZero()
    ensures FormatWwn(0) == "00:00:00:00:00:00:00:00"
  {
    BeBytesSmall(0, 8);
  }

  lemma FormatTen()
    ensures FormatWwn(10) == "00:00:00:00:00:00:00:0a"
  {
    BeBytesSmall(10, 8);
  }

  /**
   * As written, a strict scan that has read eight bytes still takes a
   * further hex digit, shifting it into the WWN.
   */
  lemma TrailingDigitAccepted(name: string, i: nat, st: ScanState)
    requires i + 1 < NAMELEN - 1 && st.pos == 2 && st.byte == 7
    requires IsLowerHex(At(name, i)) && At(name, i + 1) == '\0'
    ensures Scan(name, true, false, i, st)
            == ParseResult(i + 1, ShiftIn(st.wwn, Nibble(At(name, i))))
  {
    var st1 := ScanState(3, 8, ShiftIn(st.wwn, Nibble(At(name, i))));
    assert ScanStep(name, true, false, i, st) == Next(st1);
    assert ScanStep(name, true, false, i + 1, st1) == Stop(ParseResult(i + 1, st1.wwn));
  }

  /**
   * As written, strict parsing accepts any formatted WWN followed by one
   * more hex digit, shifting that digit into the result; the corrected
   * scan rejects such a name.
   */
  lemma StrictAcceptsExtraDigit(w: u64, c: char)
    requires IsLowerHex(c)
    ensures ParseAsWritten(FormatWwn(w) + [c], true) == ParseResult(24, (w * 16 + Nibble(c)) % U64_MOD)
    ensures ParseCorrected(FormatWwn(w) + [c], true).ret == -1
  {
    var name := FormatWwn(w) + [c];
    assert name[..23] == FormatWwn(w);
    assert At(name, 23) == c && At(name, 24) == '\0';
    var tail := ScanState(2, 7, w);
    assert ParseAsWritten(name, true) == ParseResult(24, ShiftIn(w, Nibble(c))) by {
      FormattedPrefix(name, w, false);
      TrailingDigitAccepted(name, 23, tail);
    }
    assert ParseCorrected(name, true).ret == -1 by {
      FormattedPrefix(name, w, true);
      FinalStep(name, true, 23, tail);
    }
  }

  /**
   * As written, the strict parse gives the same WWN for two different names:
   * the formatting of `w` followed by one more lower-case hex digit `c`, and
   * the formatting of the WWN that results. With w = 0 and c = 'a' these are
   * "00:00:00:00:00:00:00:00a" and "00:00:00:00:00:00:00:0a" (FormatZero,
   * FormatTen). The corrected parse rejects the longer name.
   */
  lemma StrictAcceptsTrailingDigits(w: u64, c: char)
    requires IsLowerHex(c)
    ensures var v := (w * 16 + Nibble(c)) % U64_MOD;
      && FormatWwn(w) + [c] != FormatWwn(v)
      && ParseAsWritten(FormatWwn(w) + [c], true) == ParseResult(24, v)
      && ParseAsWritten(FormatWwn(v), true) == ParseResult(23, v)
      && ParseCorrected(FormatWwn(w) + [c], true).ret == -1
  {
    var v := (w * 16 + Nibble(c)) % U64_MOD;
    StrictRoundTrip(v, "");
    assert FormatWwn(v) + "" == FormatWwn(v);
    StrictAcceptsExtraDigit(w, c);
    assert |FormatWwn(w) + [c]| == 24;
  }

  // ---------------------------------------------------------------------
  // Non-strict names and the buffer bound
  // ---------------------------------------------------------------------

  /** The value of a string of hex digits of either case. */
  function HexValue(cs: string): nat
    requires forall j :: 0 <= j < |cs| ==> IsXDigit(cs[j])
  {
    if |cs| == 0 then 0 else HexValue(cs[..|cs| - 1]) * 16 + Nibble(cs[|cs| - 1])
  }

  lemma ModStep(a: nat, d: nat)
    ensures (a % U64_MOD * 16 + d) % U64_MOD == (a * 16 + d) % U64_MOD
  {
    var q := a / U64_MOD;
    assert a * 16 + d == (a % U64_MOD * 16 + d) + (q * 16) * U64_MOD;
  }

  /** One digit of a non-strict name is taken into the value. */
  lemma NonStrictStep(name: string, n: nat, i: nat, fixed: bool, st: ScanState)
    requires n < NAMELEN - 1 && n <= |name| && i < n
    requires forall j :: 0 <= j < n ==> IsXDigit(name[j])
    requires st.wwn == HexValue(name[..i]) % U64_MOD
    ensures Scan(name, false, fixed, i, st)
            == Scan(name, false, fixed, i + 1, st.(wwn := HexValue(name[..i + 1]) % U64_MOD))
  {
    var c := name[i];
    assert name[..i + 1][..i] == name[..i];
    ModStep(HexValue(name[..i]), Nibble(c));
    assert ScanStep(name, false, fixed, i, st) == Next(st.(wwn := HexValue(name[..i + 1]) % U64_MOD));
  }

  /**
   * Where a non-strict name of `n` digits ends: at the terminator, or one
   * further when a newline precedes it, unless that newline is the last
   * character the loop reads.
   */
  function NonStrictEnd(name: string, n: nat): int {
    if At(name, n) == '\0' then n else if n + 1 < NAMELEN - 1 then n + 1 else -1
  }

  lemma {:induction false} NonStrictFrom(name: string, n: nat, i: nat, fixed: bool, st: ScanState)
    requires n < NAMELEN - 1 && n <= |name| && i <= n
    requires forall j :: 0 <= j < n ==> IsXDigit(name[j])
    requires At(name, n) == '\0' || (At(name, n) == '\n' && At(name, n + 1) == '\0')
    requires st.wwn == HexValue(name[..i]) % U64_MOD
    ensures Scan(name, false, fixed, i, st) == ParseResult(NonStrictEnd(name, n), HexValue(name[..n]) % U64_MOD)
    decreases n - i
  {
    if i < n {
      NonStrictStep(name, n, i, fixed, st);
      NonStrictFrom(name, n, i + 1, fixed, st.(wwn := HexValue(name[..i + 1]) % U64_MOD));
    } else if At(name, n) == '\0' {
      assert ScanStep(name, false, fixed, i, st) == Stop(ParseResult(n, st.wwn));
    } else {
      assert ScanStep(name, false, fixed, i, st) == Next(st);
      if n + 1 < NAMELEN - 1 {
        assert ScanStep(name, false, fixed, n + 1, st) == Stop(ParseResult(n + 1, st.wwn));
      }
    }
  }

  /**
   * Without strict checking, a run of up to 30 hex digits of either case
   * before the terminator is accepted whole, and the WWN is its value
   * truncated to 64 bits. A newline just before the terminator is counted
   * in the length, unless it sits where the loop stops reading.
   */
  lemma NonStrictParse(name: string, n: nat)
    requires n < NAMELEN - 1 && n <= |name|
    requires forall j :: 0 <= j < n ==> IsXDigit(name[j])
    requires At(name, n) == '\0' || (At(name, n) == '\n' && At(name, n + 1) == '\0')
    ensures At(name, n) == '\0' ==> ParseAsWritten(name, false) == ParseResult(n, HexValue(name[..n]) % U64_MOD)
    ensures At(name, n) == '\n' && n + 1 < NAMELEN - 1 ==>
              ParseAsWritten(name, false) == ParseResult(n + 1, HexValue(name[..n]) % U64_MOD)
    ensures At(name, n) == '\n' && n + 1 == NAMELEN - 1 ==> ParseAsWritten(name, false).ret == -1
    ensures ParseCorrected(name, false) == ParseAsWritten(name, false)
  {
    NonStrictFrom(name, n, 0, false, ScanState(0, 0, 0));
    NonStrictFrom(name, n, 0, true, ScanState(0, 0, 0));
  }

  /** A name without a terminator in the first 31 characters is rejected. */
  lemma {:induction false} UnterminatedFails(name: string, strict: bool, fixed: bool, i: nat, st: ScanState)
    requires forall j :: i <= j < NAMELEN - 1 ==> At(name, j) != '\0'
    ensures Scan(name, strict, fixed, i, st).ret == -1
    decreases NAMELEN - i
  {
    if i < NAMELEN - 1 {
      match ScanStep(name, strict, fixed, i, st)
      case Next(st') => UnterminatedFails(name, strict, fixed, i + 1, st');
      case Stop(r) =>
    }
  }
}
