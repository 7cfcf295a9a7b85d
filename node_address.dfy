/*
 * The node-address text form of the plexi scheduler interface
 * (examples/rich-EIT-demo-Topology/tools/plexi.c, na_to_linkaddr and
 * linkaddr_to_na).
 *
 * A 64-bit link-layer address is written as four hex groups "X:X:X:X", the
 * lower 64 bits of an IPv6 address: the universal/local bit of the first byte
 * is inverted on the way, as the Modified EUI-64 rule of Appendix A of
 * RFC 4291 requires.
 *
 * The text handed to na_to_linkaddr is a NUL-terminated C string: `s` holds
 * its characters and every position at or past |s| reads as NUL.  strtoul is
 * taken to read a run of hex digits with no leading blanks, sign or "0x", and
 * to report ERANGE exactly when the run's value exceeds ULONG_MAX (32 bits).
 */
module NodeAddress {
  import opened Wrappers

  /** A uint8_t. */
  type byte = b: int | 0 <= b < 256

  const LinkAddrSize: nat := 8
  const ULongMax: nat := 0xFFFF_FFFF

  // ---------------------------------------------------------------------------
  // Reading hex: what strtoul(_, &end, 16) sees

  predicate IsHexChar(c: char)
  {
    '0' <= c <= '9' || 'a' <= c <= 'f' || 'A' <= c <= 'F'
  }

  /** A run of characters that are all hex digits. */
  predicate AllHex(d: seq<char>)
  {
    forall k :: 0 <= k < |d| ==> IsHexChar(d[k])
  }

  /** The value of a hex digit (0 for any other character). */
  function DigitValue(c: char): (n: nat)
    ensures n < 16
  {
    if !IsHexChar(c) then 0
    else if c <= '9' then c as int - '0' as int
    else if c <= 'F' then c as int - 'A' as int + 10
    else c as int - 'a' as int + 10
  }

  /** The value of a run of hex digits, most significant first. */
  function HexNumber(d: seq<char>): nat
  {
    if d == [] then 0 else HexNumber(d[..|d| - 1]) * 16 + DigitValue(d[|d| - 1])
  }

  /** The character at position k of the NUL-terminated string s. */
  function CharAt(s: seq<char>, k: nat): char
  {
    if k < |s| then s[k] else Nul
  }

  /** The characters s[p], ..., s[e-1] are all hex digits. */
  predicate HexBetween(s: seq<char>, p: nat, e: nat)
    requires p <= e <= |s|
  {
    forall k :: p <= k < e ==> IsHexChar(s[k])
  }

  /** Where strtoul stops: the end of the run of hex digits starting at p. */
  function HexRunEnd(s: seq<char>, p: nat): (e: nat)
    requires p <= |s|
    ensures p <= e <= |s|
    ensures HexBetween(s, p, e)
    ensures !IsHexChar(CharAt(s, e))
    decreases |s| - p
  {
    if p < |s| && IsHexChar(s[p]) then HexRunEnd(s, p + 1) else p
  }

  /** The value strtoul computes from the digits s[p], ..., s[e-1]. */
  function RunValue(s: seq<char>, p: nat, e: nat): nat
    requires p <= e <= |s|
    decreases e - p
  {
    if e == p then 0 else RunValue(s, p, e - 1) * 16 + DigitValue(s[e - 1])
  }

  /** RunValue reads the same number as HexNumber of the slice. */
  lemma {:induction false} RunValueIs(s: seq<char>, p: nat, e: nat)
    requires p <= e <= |s|
    ensures RunValue(s, p, e) == HexNumber(s[p..e])
    decreases e - p
  {
    if e > p {
      RunValueIs(s, p, e - 1);
      var d := s[p..e];
      assert d[..|d| - 1] == s[p..e - 1];
      assert d[|d| - 1] == s[e - 1];
    }
  }

  /** A run of hex digits ended by a non-digit is exactly what strtoul consumes. */
  lemma HexRunEndOf(s: seq<char>, p: nat, d: seq<char>)
    requires p + |d| <= |s| && s[p..p + |d|] == d
    requires AllHex(d) && !IsHexChar(CharAt(s, p + |d|))
    ensures HexRunEnd(s, p) == p + |d|
    decreases |d|
  {
    if d != [] {
      assert s[p] == d[0];
      assert s[p + 1..p + 1 + |d[1..]|] == d[1..];
      HexRunEndOf(s, p + 1, d[1..]);
    }
  }

  /** The digits strtoul consumed, as a string. */
  lemma RunDigits(s: seq<char>, p: nat, e: nat)
    requires p <= e <= |s| && HexBetween(s, p, e)
    ensures AllHex(s[p..e])
  {
    forall k | 0 <= k < e - p
      ensures IsHexChar(s[p..e][k])
    {
      assert s[p..e][k] == s[p + k];
    }
  }

  // ---------------------------------------------------------------------------
  // na_to_linkaddr, as a specification

  /** The character that must end group i: ':' for the first three, NUL for the last. */
  function Separator(i: nat): char
  {
    if i == 3 then Nul else ':'
  }

  /**
   * The values of the groups accepted from position p on, starting with
   * group i, and whether all remaining groups were accepted.
   */
  datatype Scan = Scan(values: seq<nat>, complete: bool)

  /** One group is accepted when it starts before the last byte of the buffer,
      is a non-empty hex run, is ended by its separator and fits strtoul. */
  predicate GroupAccepted(s: seq<char>, size: int, p: nat, i: nat)
    requires p <= |s|
  {
    var e := HexRunEnd(s, p);
    p < size - 1 && e != p && CharAt(s, e) == Separator(i) && RunValue(s, p, e) <= ULongMax
  }

  function ScanFrom(s: seq<char>, size: int, p: nat, i: nat): (r: Scan)
    requires i <= 4 && (i < 4 ==> p <= |s|)
    ensures |r.values| <= 4 - i
    ensures r.complete ==> |r.values| == 4 - i
    decreases 4 - i
  {
    if i == 4 then Scan([], true)
    else if !GroupAccepted(s, size, p, i) then Scan([], false)
    else
      var e := HexRunEnd(s, p);
      var rest := ScanFrom(s, size, e + 1, i + 1);
      Scan([RunValue(s, p, e)] + rest.values, rest.complete)
  }

  /** One accepted group, ending at e, then the scan of the rest. */
  lemma ScanStep(s: seq<char>, size: int, p: nat, i: nat, e: nat)
    requires i < 4 && p <= |s| && GroupAccepted(s, size, p, i) && e == HexRunEnd(s, p)
    ensures i + 1 < 4 ==> e + 1 <= |s|
    ensures ScanFrom(s, size, p, i) ==
      Scan([RunValue(s, p, e)] + ScanFrom(s, size, e + 1, i + 1).values, ScanFrom(s, size, e + 1, i + 1).complete)
  {
  }

  /** A group that is not accepted ends the scan. */
  lemma ScanStops(s: seq<char>, size: int, p: nat, i: nat)
    requires i < 4 && p <= |s| && !GroupAccepted(s, size, p, i)
    ensures ScanFrom(s, size, p, i) == Scan([], false)
  {
  }

  /** The scan that has accepted the values `done` and goes on at position p with group i. */
  function Resume(done: seq<nat>, s: seq<char>, size: int, p: nat, i: nat): Scan
    requires i <= 4 && (i < 4 ==> p <= |s|)
  {
    var rest := ScanFrom(s, size, p, i);
    Scan(done + rest.values, rest.complete)
  }

  /** Accepting the group at p, which ends at e, moves its value from the scan
      still to come to `done`. */
  lemma ScanAdvance(s: seq<char>, size: int, p: nat, i: nat, done: seq<nat>, e: nat)
    requires i < 4 && p <= |s| && GroupAccepted(s, size, p, i) && e == HexRunEnd(s, p)
    ensures i + 1 < 4 ==> e + 1 <= |s|
    ensures Resume(done, s, size, p, i) == Resume(done + [RunValue(s, p, e)], s, size, e + 1, i + 1)
  {
    ScanStep(s, size, p, i, e);
    var rest := ScanFrom(s, size, e + 1, i + 1);
    assert done + ([RunValue(s, p, e)] + rest.values) == (done + [RunValue(s, p, e)]) + rest.values;
  }

  /** A group that is not accepted ends the scan with what has been accepted so far. */
  lemma ScanEnds(s: seq<char>, size: int, p: nat, i: nat, done: seq<nat>)
    requires i < 4 && p <= |s| && !GroupAccepted(s, size, p, i)
    ensures Resume(done, s, size, p, i) == Scan(done, false)
  {
    ScanStops(s, size, p, i);
    assert done + [] == done;
  }

  /** The whole parse of na_to_linkaddr: four groups from the start of the buffer. */
  function Parse(s: seq<char>, size: int): Scan
  {
    ScanFrom(s, size, 0, 0)
  }

  /** linkaddress->u8[2i] = val >> 8 and u8[2i+1] = val, each truncated to a byte. */
  function HighByte(v: nat): byte { (v / 256) % 256 }
  function LowByte(v: nat): byte { v % 256 }

  /** The bytes after the values of groups j, j+1, ... have been stored into la. */
  function StoreFrom(la: seq<byte>, values: seq<nat>, j: nat): (r: seq<byte>)
    requires |la| == LinkAddrSize && j + |values| <= 4
    ensures |r| == LinkAddrSize
    decreases |values|
  {
    if values == [] then la
    else StoreFrom(la[2 * j := HighByte(values[0])][2 * j + 1 := LowByte(values[0])], values[1..], j + 1)
  }

  /** b ^ 0x02: invert bit 1, the universal/local bit of an EUI-64. */
  function FlipBit(b: byte): (r: byte)
    ensures (r / 2) % 2 != (b / 2) % 2 && r % 2 == b % 2 && r / 4 == b / 4
  {
    if (b / 2) % 2 == 1 then b - 2 else b + 2
  }

  /** Flipping twice gives the byte back. */
  lemma FlipBitTwice(b: byte)
    ensures FlipBit(FlipBit(b)) == b
  {
  }

  /** u8[0] ^= 0x02. */
  function FlipUniversalLocal(la: seq<byte>): (r: seq<byte>)
    requires |la| == LinkAddrSize
    ensures |r| == LinkAddrSize && r[1..] == la[1..] && FlipBit(r[0]) == la[0]
  {
    FlipBitTwice(la[0]);
    la[0 := FlipBit(la[0])]
  }

  /** The address na_to_linkaddr leaves behind: every accepted group is stored,
      and the bit flip happens only when all four were accepted. */
  function ParsedAddress(s: seq<char>, size: int, old_la: seq<byte>): seq<byte>
    requires |old_la| == LinkAddrSize
  {
    var sc := Parse(s, size);
    var stored := StoreFrom(old_la, sc.values, 0);
    if sc.complete then FlipUniversalLocal(stored) else stored
  }

  lemma {:induction false} StoreFromSnoc(la: seq<byte>, values: seq<nat>, v: nat, j: nat)
    requires |la| == LinkAddrSize && j + |values| + 1 <= 4
    ensures StoreFrom(la, values + [v], j) ==
      StoreFrom(la, values, j)[2 * (j + |values|) := HighByte(v)][2 * (j + |values|) + 1 := LowByte(v)]
    decreases |values|
  {
    if values == [] {
      assert ([] + [v])[1..] == [];
    } else {
      assert (values + [v])[0] == values[0] && (values + [v])[1..] == values[1..] + [v];
      StoreFromSnoc(la[2 * j := HighByte(values[0])][2 * j + 1 := LowByte(values[0])], values[1..], v, j + 1);
    }
  }

  /** The eight bytes four group values leave in the address, high byte first. */
  function Bytes4(v: seq<nat>): (r: seq<byte>)
    requires |v| == 4
    ensures |r| == LinkAddrSize
  {
    [HighByte(v[0]), LowByte(v[0]), HighByte(v[1]), LowByte(v[1]),
     HighByte(v[2]), LowByte(v[2]), HighByte(v[3]), LowByte(v[3])]
  }

  /** Storing four groups fills all eight bytes, whatever la held. */
  lemma StoreFour(la: seq<byte>, v: seq<nat>)
    requires |la| == LinkAddrSize && |v| == 4
    ensures StoreFrom(la, v, 0) == Bytes4(v)
  {
    var l1 := la[0 := HighByte(v[0])][1 := LowByte(v[0])];
    var l2 := l1[2 := HighByte(v[1])][3 := LowByte(v[1])];
    var l3 := l2[4 := HighByte(v[2])][5 := LowByte(v[2])];
    var l4 := l3[6 := HighByte(v[3])][7 := LowByte(v[3])];
    assert v[1..][0] == v[1] && v[1..][1..] == v[2..];
    assert v[2..][0] == v[2] && v[2..][1..] == v[3..];
    assert v[3..][0] == v[3] && v[3..][1..] == [];
    assert StoreFrom(la, v, 0) == StoreFrom(l1, v[1..], 1);
    assert StoreFrom(l1, v[1..], 1) == StoreFrom(l2, v[2..], 2);
    assert StoreFrom(l2, v[2..], 2) == StoreFrom(l3, v[3..], 3);
    assert StoreFrom(l3, v[3..], 3) == StoreFrom(l4, [], 4) == l4;
  }

  /**
   * On success the old contents of the address do not matter: group k gives
   * bytes 2k and 2k+1, high byte first, and byte 0 is then flipped.
   */
  lemma ParsedBytes(s: seq<char>, size: int, old_la: seq<byte>)
    requires |old_la| == LinkAddrSize && Parse(s, size).complete
    ensures ParsedAddress(s, size, old_la) == FlipUniversalLocal(Bytes4(Parse(s, size).values))
  {
    StoreFour(old_la, Parse(s, size).values);
  }

  // ---------------------------------------------------------------------------
  // The parse rules, stated on the digits of the text

  /**
   * From position p on, s holds the digit groups f, numbered from i: each
   * group is a non-empty run of hex digits within ULONG_MAX that starts
   * before the last byte of the buffer and is ended by its separator (':'
   * after groups 0 to 2, NUL after group 3), and the groups run up to group 3.
   */
  predicate GroupsFrom(f: seq<seq<char>>, i: nat, p: nat, s: seq<char>, size: int)
    decreases |f|
  {
    if f == [] then i == 4
    else GroupAt(f[0], i, p, s, size) && GroupsFrom(f[1..], i + 1, p + |f[0]| + 1, s, size)
  }

  /** s holds group i, the digits d, at position p. */
  predicate GroupAt(d: seq<char>, i: nat, p: nat, s: seq<char>, size: int)
  {
    i < 4 && p + |d| <= |s| && s[p..p + |d|] == d &&
    d != [] && AllHex(d) && HexNumber(d) <= ULongMax &&
    CharAt(s, p + |d|) == Separator(i) && p < size - 1
  }

  /** The values of digit groups. */
  function Values(f: seq<seq<char>>): (v: seq<nat>)
    ensures |v| == |f|
  {
    if f == [] then [] else [HexNumber(f[0])] + Values(f[1..])
  }

  /** A group that GroupAt describes is the one the scanner accepts. */
  lemma GroupMatches(s: seq<char>, size: int, p: nat, i: nat, d: seq<char>)
    requires GroupAt(d, i, p, s, size)
    ensures p <= |s| && GroupAccepted(s, size, p, i) && HexRunEnd(s, p) == p + |d|
    ensures RunValue(s, p, p + |d|) == HexNumber(d)
  {
    HexRunEndOf(s, p, d);
    RunValueIs(s, p, p + |d|);
  }

  /** A group described by GroupAt, followed by a complete scan of the rest. */
  lemma ScanCons(s: seq<char>, size: int, p: nat, i: nat, d: seq<char>, rest: seq<nat>)
    requires GroupAt(d, i, p, s, size)
    requires p + |d| + 1 <= |s| || i + 1 == 4
    requires ScanFrom(s, size, p + |d| + 1, i + 1) == Scan(rest, true)
    ensures ScanFrom(s, size, p, i) == Scan([HexNumber(d)] + rest, true)
  {
    var e := p + |d|;
    GroupMatches(s, size, p, i, d);
    ScanStep(s, size, p, i, e);
    assert ScanFrom(s, size, e + 1, i + 1) == Scan(rest, true);
  }

  lemma {:induction false} GroupsScanned(s: seq<char>, size: int, p: nat, i: nat, f: seq<seq<char>>)
    requires i <= 4 && (i < 4 ==> p <= |s|)
    requires GroupsFrom(f, i, p, s, size)
    ensures ScanFrom(s, size, p, i) == Scan(Values(f), true)
    decreases |f|
  {
    if f != [] {
      GroupsScanned(s, size, p + |f[0]| + 1, i + 1, f[1..]);
      ScanCons(s, size, p, i, f[0], Values(f[1..]));
    }
  }

  /** The digits of an accepted group make a group as GroupAt describes it. */
  lemma AcceptedGroup(s: seq<char>, size: int, p: nat, i: nat)
    requires i < 4 && p <= |s| && GroupAccepted(s, size, p, i)
    ensures GroupAt(s[p..HexRunEnd(s, p)], i, p, s, size)
    ensures HexNumber(s[p..HexRunEnd(s, p)]) == RunValue(s, p, HexRunEnd(s, p))
  {
    var e := HexRunEnd(s, p);
    RunDigits(s, p, e);
    RunValueIs(s, p, e);
  }

  /** A complete scan is made of digit groups f whose values it returns. */
  lemma {:induction false} ScannedGroups(s: seq<char>, size: int, p: nat, i: nat) returns (f: seq<seq<char>>)
    requires i <= 4 && (i < 4 ==> p <= |s|)
    requires ScanFrom(s, size, p, i).complete
    ensures GroupsFrom(f, i, p, s, size) && Values(f) == ScanFrom(s, size, p, i).values
    decreases 4 - i
  {
    if i == 4 {
      f := [];
    } else {
      assert GroupAccepted(s, size, p, i);
      var e := HexRunEnd(s, p);
      ScanStep(s, size, p, i, e);
      AcceptedGroup(s, size, p, i);
      var rest := ScannedGroups(s, size, e + 1, i + 1);
      f := [s[p..e]] + rest;
      assert f[0] == s[p..e] && f[1..] == rest;
    }
  }

  /**
   * The parse rules: na_to_linkaddr accepts the text exactly when the text
   * holds four digit groups as GroupsFrom states, and the values it stores
   * are those groups' values.
   */
  lemma ParseRules(s: seq<char>, size: int)
    ensures Parse(s, size).complete <==>
      exists f :: GroupsFrom(f, 0, 0, s, size) && Values(f) == Parse(s, size).values
  {
    if Parse(s, size).complete {
      var f := ScannedGroups(s, size, 0, 0);
    }
    if exists f :: GroupsFrom(f, 0, 0, s, size) && Values(f) == Parse(s, size).values {
      var f :| GroupsFrom(f, 0, 0, s, size) && Values(f) == Parse(s, size).values;
      GroupsScanned(s, size, 0, 0, f);
    }
  }

  /** Digit groups as GroupsFrom describes them are parsed to their values. */
  lemma ParseGroups(s: seq<char>, size: int, f: seq<seq<char>>)
    requires GroupsFrom(f, 0, 0, s, size)
    ensures Parse(s, size) == Scan(Values(f), true)
  {
    GroupsScanned(s, size, 0, 0, f);
  }

  // ---------------------------------------------------------------------------
  // linkaddr_to_na, as a specification

  /** "0123456789abcdef"[n]. */
  function HexDigit(n: nat): (c: char)
    requires n < 16
    ensures IsHexChar(c) && c != Nul && DigitValue(c) == n
  {
    if n < 10 then ('0' as int + n) as char else ('a' as int + n - 10) as char
  }

  /** sprintf("%02x", b): two digits, high nibble first. */
  function Hex2(b: byte): (t: seq<char>)
    ensures |t| == 2
  {
    [HexDigit(b / 16), HexDigit(b % 16)]
  }

  /** sprintf("%x", v) for a byte value: one digit below 16, else two. */
  function HexMin(v: byte): (t: seq<char>)
    ensures 1 <= |t| <= 2
    ensures t[0] == HexDigit(if v < 16 then v else v / 16)
  {
    if v < 16 then [HexDigit(v)] else Hex2(v)
  }

  /**
   * The text linkaddr_to_na leaves in buf: only the first digit of the
   * flipped first byte survives (the pointer moves on by one), byte 4 is not
   * printed, and ':' precedes bytes 2, 5 and 6.
   */
  function NaText(a: seq<byte>): (t: seq<char>)
    requires |a| == LinkAddrSize
    ensures |t| == 16
  {
    [HexMin(FlipBit(a[0]))[0], HexDigit(a[1] / 16), HexDigit(a[1] % 16), ':',
     HexDigit(a[2] / 16), HexDigit(a[2] % 16), HexDigit(a[3] / 16), HexDigit(a[3] % 16), ':',
     HexDigit(a[5] / 16), HexDigit(a[5] % 16), ':',
     HexDigit(a[6] / 16), HexDigit(a[6] % 16), HexDigit(a[7] / 16), HexDigit(a[7] % 16)]
  }

  // ---------------------------------------------------------------------------
  // Round trip

  lemma HexNumber2(d: seq<char>)
    requires |d| == 2 && AllHex(d)
    ensures HexNumber(d) == DigitValue(d[0]) * 16 + DigitValue(d[1])
  {
    assert d[..1][..0] == [];
    assert HexNumber(d[..1]) == DigitValue(d[0]);
  }

  lemma HexNumber3(d: seq<char>)
    requires |d| == 3 && AllHex(d)
    ensures HexNumber(d) == DigitValue(d[0]) * 256 + DigitValue(d[1]) * 16 + DigitValue(d[2])
  {
    HexNumber2(d[..2]);
  }

  lemma HexNumber4(d: seq<char>)
    requires |d| == 4 && AllHex(d)
    ensures HexNumber(d) == (DigitValue(d[0]) * 16 + DigitValue(d[1])) * 256 + DigitValue(d[2]) * 16 + DigitValue(d[3])
  {
    HexNumber3(d[..3]);
  }

  lemma ByteOfDigits(b: byte)
    ensures b == (b / 16) * 16 + b % 16
  {
  }

  lemma WordBytes(x: byte, y: byte)
    ensures HighByte(x as int * 256 + y) == x && LowByte(x as int * 256 + y) == y
  {
  }

  /** The four digit groups of NaText(a): "XYY", "ZZWW", "AA" and "BBCC". */
  function NaGroups(a: seq<byte>): (f: seq<seq<char>>)
    requires |a| == LinkAddrSize
    ensures |f| == 4
  {
    [[HexMin(FlipBit(a[0]))[0]] + Hex2(a[1]), Hex2(a[2]) + Hex2(a[3]), Hex2(a[5]), Hex2(a[6]) + Hex2(a[7])]
  }

  /** Four groups joined by ':'. */
  function Joined(f: seq<seq<char>>): seq<char>
    requires |f| == 4
  {
    f[0] + ([':'] + (f[1] + ([':'] + (f[2] + ([':'] + f[3])))))
  }

  lemma NaTextJoined(a: seq<byte>)
    requires |a| == LinkAddrSize
    ensures NaText(a) == Joined(NaGroups(a))
  {
  }

  /** The value of a two-digit group. */
  lemma Hex2Value(b: byte)
    ensures AllHex(Hex2(b)) && HexNumber(Hex2(b)) == b
  {
    HexNumber2(Hex2(b));
  }

  /** The value of a four-digit group. */
  lemma Hex4Value(x: byte, y: byte)
    ensures AllHex(Hex2(x) + Hex2(y)) && HexNumber(Hex2(x) + Hex2(y)) == x as int * 256 + y
  {
    var d := Hex2(x) + Hex2(y);
    assert d == [HexDigit(x / 16), HexDigit(x % 16), HexDigit(y / 16), HexDigit(y % 16)];
    HexNumber4(d);
  }

  /** The value of the first group, when the flipped first byte is one digit. */
  lemma FirstValue(c: byte, y: byte)
    requires c < 16
    ensures AllHex([HexMin(c)[0]] + Hex2(y)) && HexNumber([HexMin(c)[0]] + Hex2(y)) == c as int * 256 + y
  {
    var d := [HexMin(c)[0]] + Hex2(y);
    assert d == [HexDigit(c), HexDigit(y / 16), HexDigit(y % 16)];
    HexNumber3(d);
  }

  /** The groups of NaText(a) are hex runs and carry the address bytes. */
  lemma NaGroupValues(a: seq<byte>)
    requires |a| == LinkAddrSize && FlipBit(a[0]) < 16
    ensures HexGroups(NaGroups(a))
    ensures Values(NaGroups(a)) ==
      [FlipBit(a[0]) as int * 256 + a[1], a[2] as int * 256 + a[3], a[5], a[6] as int * 256 + a[7]]
  {
    var f := NaGroups(a);
    FirstValue(FlipBit(a[0]), a[1]);
    Hex4Value(a[2], a[3]);
    Hex2Value(a[5]);
    Hex4Value(a[6], a[7]);
    FourValues(f);
  }

  /** Four groups, each where the previous one and its separator end, make a whole text. */
  lemma FourGroups(f: seq<seq<char>>, s: seq<char>, size: int)
    requires |f| == 4
    requires GroupAt(f[0], 0, 0, s, size)
    requires GroupAt(f[1], 1, |f[0]| + 1, s, size)
    requires GroupAt(f[2], 2, |f[0]| + |f[1]| + 2, s, size)
    requires GroupAt(f[3], 3, |f[0]| + |f[1]| + |f[2]| + 3, s, size)
    ensures GroupsFrom(f, 0, 0, s, size)
  {
    var p3 := |f[0]| + |f[1]| + |f[2]| + 3;
    assert GroupsFrom(f[3..], 3, p3, s, size) by {
      assert f[3..][0] == f[3] && f[3..][1..] == [];
    }
    assert GroupsFrom(f[2..], 2, |f[0]| + |f[1]| + 2, s, size) by {
      assert f[2..][0] == f[2] && f[2..][1..] == f[3..];
    }
    assert GroupsFrom(f[1..], 1, |f[0]| + 1, s, size) by {
      assert f[1..][0] == f[1] && f[1..][1..] == f[2..];
    }
  }

  /** The values of four groups. */
  lemma FourValues(f: seq<seq<char>>)
    requires |f| == 4
    ensures Values(f) == [HexNumber(f[0]), HexNumber(f[1]), HexNumber(f[2]), HexNumber(f[3])]
  {
    assert f[3..][0] == f[3] && f[3..][1..] == [];
    assert Values(f[3..]) == [HexNumber(f[3])];
    assert f[2..][0] == f[2] && f[2..][1..] == f[3..];
    assert Values(f[2..]) == [HexNumber(f[2]), HexNumber(f[3])];
    assert f[1..][0] == f[1] && f[1..][1..] == f[2..];
    assert Values(f[1..]) == [HexNumber(f[1]), HexNumber(f[2]), HexNumber(f[3])];
  }

  /** The group d, then the separator c, then the rest r: d sits at position 0. */
  lemma GroupInFront(d: seq<char>, c: char, r: seq<char>)
    ensures (d + ([c] + r))[0..|d|] == d && CharAt(d + ([c] + r), |d|) == c
    ensures (d + ([c] + r))[|d| + 1..] == r
  {
    assert (d + ([c] + r))[|d|] == c;
  }

  /** A group at position q of r is at position q + |d| + 1 of d + [c] + r. */
  lemma GroupShift(d: seq<char>, c: char, r: seq<char>, q: nat, g: seq<char>, i: nat, size: int)
    requires GroupAt(g, i, q, r, size - |d| - 1)
    ensures GroupAt(g, i, q + |d| + 1, d + ([c] + r), size)
  {
    var s := d + ([c] + r);
    GroupInFront(d, c, r);
    assert s[q + |d| + 1..q + |d| + 1 + |g|] == r[q..q + |g|];
    assert CharAt(s, q + |d| + 1 + |g|) == CharAt(r, q + |g|);
  }

  /** The hex run conditions GroupAt asks of each of four groups. */
  predicate HexGroups(f: seq<seq<char>>)
  {
    forall k :: 0 <= k < |f| ==> f[k] != [] && AllHex(f[k]) && HexNumber(f[k]) <= ULongMax
  }

  /** Group 3 of a joined text. */
  lemma JoinedGroup3(f: seq<seq<char>>, size: int)
    requires |f| == 4 && HexGroups(f) && |f[0]| + |f[1]| + |f[2]| + 3 < size - 1
    ensures GroupAt(f[3], 3, |f[0]| + |f[1]| + |f[2]| + 3, Joined(f), size)
  {
    var r3 := f[3];
    var r2 := f[2] + ([':'] + r3);
    var r1 := f[1] + ([':'] + r2);
    var sz1 := size - |f[0]| - 1;
    var sz2 := sz1 - |f[1]| - 1;
    var sz3 := sz2 - |f[2]| - 1;
    assert GroupAt(f[3], 3, 0, r3, sz3) by {
      assert r3[0..|f[3]|] == f[3];
    }
    GroupShift(f[2], ':', r3, 0, f[3], 3, sz2);
    GroupShift(f[1], ':', r2, |f[2]| + 1, f[3], 3, sz1);
    GroupShift(f[0], ':', r1, |f[1]| + |f[2]| + 2, f[3], 3, size);
  }

  /** Group 2 of a joined text. */
  lemma JoinedGroup2(f: seq<seq<char>>, size: int)
    requires |f| == 4 && HexGroups(f) && |f[0]| + |f[1]| + |f[2]| + 3 < size - 1
    ensures GroupAt(f[2], 2, |f[0]| + |f[1]| + 2, Joined(f), size)
  {
    var r2 := f[2] + ([':'] + f[3]);
    var r1 := f[1] + ([':'] + r2);
    var sz1 := size - |f[0]| - 1;
    var sz2 := sz1 - |f[1]| - 1;
    assert GroupAt(f[2], 2, 0, r2, sz2) by {
      GroupInFront(f[2], ':', f[3]);
    }
    GroupShift(f[1], ':', r2, 0, f[2], 2, sz1);
    GroupShift(f[0], ':', r1, |f[1]| + 1, f[2], 2, size);
  }

  /** Group 1 of a joined text. */
  lemma JoinedGroup1(f: seq<seq<char>>, size: int)
    requires |f| == 4 && HexGroups(f) && |f[0]| + |f[1]| + |f[2]| + 3 < size - 1
    ensures GroupAt(f[1], 1, |f[0]| + 1, Joined(f), size)
  {
    var r2 := f[2] + ([':'] + f[3]);
    var r1 := f[1] + ([':'] + r2);
    assert GroupAt(f[1], 1, 0, r1, size - |f[0]| - 1) by {
      GroupInFront(f[1], ':', r2);
    }
    GroupShift(f[0], ':', r1, 0, f[1], 1, size);
  }

  /** Digit groups joined by ':' make a text the parse rules accept. */
  lemma JoinedGroups(f: seq<seq<char>>, size: int)
    requires |f| == 4 && HexGroups(f) && |f[0]| + |f[1]| + |f[2]| + 3 < size - 1
    ensures GroupsFrom(f, 0, 0, Joined(f), size)
  {
    var r1 := f[1] + ([':'] + (f[2] + ([':'] + f[3])));
    assert GroupAt(f[0], 0, 0, Joined(f), size) by {
      GroupInFront(f[0], ':', r1);
    }
    JoinedGroup1(f, size);
    JoinedGroup2(f, size);
    JoinedGroup3(f, size);
    FourGroups(f, Joined(f), size);
  }

  /** The four values parsed back from NaText(a). */
  lemma NaTextParse(a: seq<byte>, size: int)
    requires |a| == LinkAddrSize && size >= 14 && FlipBit(a[0]) < 16
    ensures Parse(NaText(a), size) ==
      Scan([FlipBit(a[0]) as int * 256 + a[1], a[2] as int * 256 + a[3], a[5], a[6] as int * 256 + a[7]], true)
  {
    var f := NaGroups(a);
    NaGroupValues(a);
    JoinedGroups(f, size);
    NaTextJoined(a);
    ParseGroups(Joined(f), size, f);
  }

  /** Storing the four words of an address whose byte 4 is zero gives back its bytes. */
  lemma AddressWords(a: seq<byte>)
    requires |a| == LinkAddrSize && a[4] == 0
    ensures Bytes4([FlipBit(a[0]) as int * 256 + a[1], a[2] as int * 256 + a[3], a[5], a[6] as int * 256 + a[7]]) ==
      a[0 := FlipBit(a[0])]
  {
    WordBytes(FlipBit(a[0]), a[1]);
    WordBytes(a[2], a[3]);
    WordBytes(0, a[5]);
    WordBytes(a[6], a[7]);
  }

  /**
   * Parsing the text linkaddr_to_na wrote gives back the address, whatever
   * the output array held before, when byte 4 is zero and the flipped first
   * byte is one hex digit; the groups start at 0, 4, 9 and 12, so the buffer
   * must be at least 14 bytes long.
   */
  lemma RoundTrip(a: seq<byte>, old_la: seq<byte>, size: int)
    requires |a| == LinkAddrSize && |old_la| == LinkAddrSize
    requires a[4] == 0 && FlipBit(a[0]) < 16 && size >= 14
    ensures Parse(NaText(a), size).complete
    ensures ParsedAddress(NaText(a), size, old_la) == a
  {
    var t := NaText(a);
    NaTextParse(a, size);
    ParsedBytes(t, size, old_la);
    AddressWords(a);
    FlipBitTwice(a[0]);
  }

  // ---------------------------------------------------------------------------
  // The C functions

  /**
   * na_to_linkaddr: parse the text into `la` (linkaddress->u8).  Each accepted
   * group is stored as soon as it is read, so a rejected text can leave the
   * earlier groups written; the bit flip happens only on success.
   */
  method NaToLinkaddr(s: seq<char>, size: int, la: array<byte>) returns (ok: int)
    requires la.Length == LinkAddrSize
    modifies la
    ensures ok == (if Parse(s, size).complete then 1 else 0)
    ensures la[..] == ParsedAddress(s, size, old(la[..]))
  {
    ghost var done: seq<nat> := [];
    var i := 0;
    var p := 0;
    assert [] + Parse(s, size).values == Parse(s, size).values;
    while i < 4
      invariant 0 <= i <= 4 && 0 <= p && (i < 4 ==> p <= |s|) && |done| == i
      invariant Parse(s, size) == Resume(done, s, size, p, i)
      invariant la[..] == StoreFrom(old(la[..]), done, 0)
    {
      var accepted;
      accepted, p, done := NextGroup(s, size, la, i, p, done, old(la[..]));
      if !accepted {
        return 0;
      }
      i := i + 1;
    }
    Finished(s, size, p, done, old(la[..]));
    FlipFirst(la);
    ok := 1;
  }

  /** One turn of na_to_linkaddr's loop: the end-of-input check, the conversion, the store. */
  method NextGroup(s: seq<char>, size: int, la: array<byte>, i: nat, p: nat,
                   ghost done: seq<nat>, ghost old_la: seq<byte>)
    returns (accepted: bool, p': nat, ghost done': seq<nat>)
    requires la.Length == LinkAddrSize && |old_la| == LinkAddrSize
    requires i < 4 && p <= |s| && |done| == i
    requires Parse(s, size) == Resume(done, s, size, p, i) && la[..] == StoreFrom(old_la, done, 0)
    modifies la
    ensures !accepted ==> !Parse(s, size).complete && ParsedAddress(s, size, old_la) == la[..]
    ensures accepted ==> ((i + 1 < 4 ==> p' <= |s|) && |done'| == i + 1 &&
      Parse(s, size) == Resume(done', s, size, p', i + 1) && la[..] == StoreFrom(old_la, done', 0))
  {
    done', p' := done, p;
    if p >= size - 1 {
      Rejected(s, size, p, i, done, old_la);
      return false, p', done';
    }
    var sep := if i == 3 then Nul else ':';
    var e, val;
    accepted, e, val := ReadGroup(s, size, p, i, sep);
    if !accepted {
      Rejected(s, size, p, i, done, old_la);
      return;
    }
    StoreGroup(la, i, val, old_la, done);
    ScanAdvance(s, size, p, i, done, e);
    done' := done + [val];
    p' := e + 1;
  }

  /** linkaddress->u8[0] ^= 0x02; */
  method FlipFirst(la: array<byte>)
    requires la.Length == LinkAddrSize
    modifies la
    ensures la[..] == FlipUniversalLocal(old(la[..]))
  {
    la[0] := FlipBit(la[0]);
  }

  /** A rejected group ends na_to_linkaddr with the groups before it stored. */
  lemma Rejected(s: seq<char>, size: int, p: nat, i: nat, done: seq<nat>, old_la: seq<byte>)
    requires i < 4 && p <= |s| && |done| == i && |old_la| == LinkAddrSize
    requires !GroupAccepted(s, size, p, i) && Parse(s, size) == Resume(done, s, size, p, i)
    ensures !Parse(s, size).complete && ParsedAddress(s, size, old_la) == StoreFrom(old_la, done, 0)
  {
    ScanEnds(s, size, p, i, done);
  }

  /** After four accepted groups na_to_linkaddr stores them all and flips the bit. */
  lemma Finished(s: seq<char>, size: int, p: nat, done: seq<nat>, old_la: seq<byte>)
    requires |done| == 4 && |old_la| == LinkAddrSize && Parse(s, size) == Resume(done, s, size, p, 4)
    ensures Parse(s, size).complete
    ensures ParsedAddress(s, size, old_la) == FlipUniversalLocal(StoreFrom(old_la, done, 0))
  {
    assert done + [] == done;
  }

  /**
   * val = strtoul(na_inbuf, &end, 16) and the conversion check: the digits
   * run up to `end`, and the group is taken when that run is not empty, is
   * followed by `sep` and does not overflow.
   */
  method ReadGroup(s: seq<char>, size: int, p: nat, i: nat, sep: char) returns (accepted: bool, e: nat, val: nat)
    requires i < 4 && p <= |s| && p < size - 1 && sep == Separator(i)
    ensures accepted == GroupAccepted(s, size, p, i)
    ensures e == HexRunEnd(s, p) && val == RunValue(s, p, e)
  {
    e := HexRunEnd(s, p);
    val := RunValue(s, p, e);
    accepted := e != p && CharAt(s, e) == sep && val <= ULongMax;
  }

  /**
   * linkaddress->u8[2*i] = val >> 8; linkaddress->u8[2*i+1] = val; where la
   * holds the groups `done` stored over old_la, and group i is the next one.
   */
  method StoreGroup(la: array<byte>, i: nat, val: nat, ghost old_la: seq<byte>, ghost done: seq<nat>)
    requires la.Length == LinkAddrSize && |old_la| == LinkAddrSize && i == |done| < 4
    requires la[..] == StoreFrom(old_la, done, 0)
    modifies la
    ensures la[..] == StoreFrom(old_la, done + [val], 0)
  {
    StoreFromSnoc(old_la, done, val, 0);
    la[2 * i] := HighByte(val);
    la[2 * i + 1] := LowByte(val);
  }

  /** The position of the write pointer after bytes 0 .. i-1 have been handled. */
  function Pos(i: nat): nat
    requires i <= LinkAddrSize
  {
    [0, 1, 3, 6, 8, 8, 11, 14, 16][i]
  }

  /** Where the characters byte i contributes sit in NaText(a). */
  lemma TextAt(a: seq<byte>, i: nat)
    requires |a| == LinkAddrSize && i < LinkAddrSize
    ensures i in {2, 5, 6} ==> NaText(a)[Pos(i)] == ':'
    ensures i == 0 ==> NaText(a)[0] == HexMin(FlipBit(a[0]))[0]
    ensures i != 0 && i != 4 ==> NaText(a)[Pos(i + 1) - 2] == Hex2(a[i])[0]
    ensures i != 0 && i != 4 ==> NaText(a)[Pos(i + 1) - 1] == Hex2(a[i])[1]
  {
    var t := NaText(a);
    if i == 0 {
    } else if i == 1 {
      assert t[1..3] == Hex2(a[1]);
    } else if i == 2 {
      assert t[3..6] == [':'] + Hex2(a[2]);
    } else if i == 3 {
      assert t[6..8] == Hex2(a[3]);
    } else if i == 5 {
      assert t[8..11] == [':'] + Hex2(a[5]);
    } else if i == 6 {
      assert t[11..14] == [':'] + Hex2(a[6]);
    } else if i == 7 {
      assert t[14..16] == Hex2(a[7]);
    }
  }

  /**
   * linkaddr_to_na: write the text form of `a` into buf, followed by NUL, and
   * return its length.  Nothing past the terminating NUL is touched.
   */
  method LinkaddrToNa(buf: array<char>, a: seq<byte>) returns (n: int)
    requires |a| == LinkAddrSize && buf.Length >= 17
    modifies buf
    ensures buf[..16] == NaText(a) && buf[16] == Nul
    ensures buf[17..] == old(buf[17..])
    ensures n == 16
  {
    var text := NaText(a);
    var pointer := 0;
    var i := 0;
    while i < LinkAddrSize
      invariant 0 <= i <= LinkAddrSize && pointer == Pos(i)
      invariant forall k :: 0 <= k < pointer ==> buf[k] == text[k]
      invariant forall k :: (if i <= 1 then 3 else pointer + 1) <= k < buf.Length ==> buf[k] == old(buf[k])
    {
      if i == 4 {
        i := i + 1;
        continue;
      }
      pointer := WriteByte(buf, a, i, pointer, text);
      i := i + 1;
    }
    buf[pointer] := Nul;
    n := 16;
  }

  /** One turn of linkaddr_to_na's loop for a byte it prints: the separator if any, then the digits. */
  method WriteByte(buf: array<char>, a: seq<byte>, i: nat, pointer: nat, ghost text: seq<char>) returns (pointer': nat)
    requires |a| == LinkAddrSize && i < LinkAddrSize && i != 4 && buf.Length >= 17
    requires text == NaText(a) && pointer == Pos(i)
    requires forall k :: 0 <= k < pointer ==> buf[k] == text[k]
    modifies buf
    ensures pointer' == Pos(i + 1)
    ensures forall k :: 0 <= k < pointer' ==> buf[k] == text[k]
    ensures forall k :: (if i == 0 then 3 else pointer' + 1) <= k < buf.Length ==> buf[k] == old(buf[k])
  {
    pointer' := pointer;
    if i > 1 && i != 3 && i != 7 {
      buf[pointer'] := ':';
      pointer' := pointer' + 1;
    }
    TextAt(a, i);
    if i == 0 {
      SprintfHex(buf, pointer', HexMin(FlipBit(a[0])));
      pointer' := pointer' + 1;
    } else {
      SprintfHex(buf, pointer', Hex2(a[i]));
      pointer' := pointer' + 2;
    }
  }

  /** sprintf(buf + at, ...) of the digits t: the digits, then NUL. */
  method SprintfHex(buf: array<char>, at: nat, t: seq<char>)
    requires at + |t| < buf.Length
    modifies buf
    ensures forall k :: 0 <= k < |t| ==> buf[at + k] == t[k]
    ensures buf[at + |t|] == Nul
    ensures forall k :: 0 <= k < buf.Length && !(at <= k <= at + |t|) ==> buf[k] == old(buf[k])
  {
    var k := 0;
    while k < |t|
      invariant 0 <= k <= |t|
      invariant forall j :: 0 <= j < k ==> buf[at + j] == t[j]
      invariant forall j :: 0 <= j < buf.Length && !(at <= j < at + k) ==> buf[j] == old(buf[j])
    {
      buf[at + k] := t[k];
      k := k + 1;
    }
    buf[at + |t|] := Nul;
  }
}
