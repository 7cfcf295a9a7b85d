/*
 * The SLIP fallback interface of the RPL border-router bridge
 * (examples/rich/rpl-bridge/slip-bridge.c).
 *
 * What the bridge does to the serial line is recorded, in order, as a trace
 * of events: single bytes written by slip_arch_writeb, whole frames handed to
 * slip_send, and calls to set_bridge_addr.  DEBUG is DEBUG_PRINT, so every
 * PRINTF is a printf through putchar; the bytes of those debug lines are not
 * in the trace, but their effect on putchar's frame state is: each of them
 * ends with '\n', so slip_input_callback and output leave no debug frame
 * open.  The shared packet
 * buffer uip_buf is an array of bytes; the link-layer header length in front
 * of the IP header is 0, so the message starts at uip_buf[0] and the IP
 * source address sits at bytes 8..23.  slip_send is taken to transmit the
 * first uip_len bytes of uip_buf.
 */
module SlipBridge {
  import opened Wrappers

  type byte = bv8

  const SlipEnd: byte := 0xC0      // SLIP_END, 0300 octal (RFC 1055)
  const CarriageReturn: byte := 13 // '\r': marks a debug line
  const Newline: int := 10         // '\n'
  const Bang: byte := 33           // '!': configuration message / reply
  const Question: byte := 63       // '?': request message
  const LetterA: byte := 65        // 'A'
  const LetterM: byte := 77        // 'M'

  /** Size of uip_buf the model needs: an IPv6 header (40 bytes). */
  const BufSize: nat := 40
  /** Offset of the IP source address in uip_buf. */
  const SrcOffset: nat := 8

  datatype Event = WriteByte(b: byte) | Send(frame: seq<byte>) | SetBridgeAddr(addr: seq<byte>)

  /** The byte that `(char)c` puts on the line: the low 8 bits of c. */
  function CharByte(c: int): byte
  {
    (c % 256) as byte
  }

  function Writes(bs: seq<byte>): (evs: seq<Event>)
    ensures |evs| == |bs|
    ensures forall i :: 0 <= i < |bs| ==> evs[i] == WriteByte(bs[i])
  {
    seq(|bs|, i requires 0 <= i < |bs| => WriteByte(bs[i]))
  }

  /** s with the bytes from position `at` on replaced by t, as memcpy does. */
  function Overwrite(s: seq<byte>, at: nat, t: seq<byte>): (r: seq<byte>)
    requires at + |t| <= |s|
    ensures |r| == |s|
    ensures forall i :: 0 <= i < |s| ==> r[i] == if at <= i < at + |t| then t[i - at] else s[i]
  {
    s[..at] + t + s[at + |t|..]
  }

  // ---------------------------------------------------------------------------
  // putchar: debug-line framing

  /** The bytes one putchar(c) writes, given whether a debug frame is open. */
  function PutcharBytes(open: bool, c: int): seq<byte>
  {
    (if open then [] else [SlipEnd, CarriageReturn]) + [CharByte(c)] +
    (if c == Newline then [SlipEnd] else [])
  }

  /** The bytes a run of putchar calls writes, starting in state `open`. */
  function PutsBytes(open: bool, cs: seq<int>): seq<byte>
    decreases |cs|
  {
    if cs == [] then []
    else PutcharBytes(open, cs[0]) + PutsBytes(cs[0] != Newline, cs[1..])
  }

  /** Whether a debug frame is open after a run of putchar calls. */
  function OpenAfter(open: bool, cs: seq<int>): bool
  {
    if cs == [] then open else cs[|cs| - 1] != Newline
  }

  function Bytes(cs: seq<int>): (bs: seq<byte>)
    ensures |bs| == |cs|
    ensures forall i :: 0 <= i < |cs| ==> bs[i] == CharByte(cs[i])
  {
    seq(|cs|, i requires 0 <= i < |cs| => CharByte(cs[i]))
  }

  predicate NoNewline(cs: seq<int>)
  {
    forall i :: 0 <= i < |cs| ==> cs[i] != Newline
  }

  /** Inside an open frame, characters other than '\n' go out verbatim. */
  lemma {:induction false} InsideFrame(cs: seq<int>)
    requires NoNewline(cs)
    ensures PutsBytes(true, cs) == Bytes(cs)
    decreases |cs|
  {
    if cs != [] {
      InsideFrame(cs[1..]);
      assert Bytes(cs) == [CharByte(cs[0])] + Bytes(cs[1..]);
    }
  }

  /** What putchar writes before a character when no debug frame is open. */
  function FrameStart(open: bool): seq<byte>
  {
    if open then [] else [SlipEnd, CarriageReturn]
  }

  /**
   * A debug line forms one frame: SLIP_END and '\r' unless a frame is already
   * open, the characters verbatim, the '\n', then SLIP_END; afterwards no
   * frame is open, so the next character starts a new frame.
   */
  lemma {:induction false} LineIsOneFrame(open: bool, line: seq<int>)
    requires NoNewline(line)
    ensures PutsBytes(open, line + [Newline]) ==
      FrameStart(open) + Bytes(line) + [CharByte(Newline), SlipEnd]
    ensures !OpenAfter(open, line + [Newline])
    decreases |line|
  {
    if line == [] {
      assert line + [Newline] == [Newline];
      assert PutsBytes(open, [Newline]) == PutcharBytes(open, Newline) + PutsBytes(false, []);
      assert Bytes(line) == [];
    } else {
      var rest := line[1..] + [Newline];
      var end := [CharByte(Newline), SlipEnd];
      assert line + [Newline] == [line[0]] + rest;
      calc {
        PutsBytes(open, [line[0]] + rest);
        { PutcharThenRest(open, line[0], rest); }
        FrameStart(open) + [CharByte(line[0])] + PutsBytes(true, rest);
        { LineIsOneFrame(true, line[1..]); }
        FrameStart(open) + [CharByte(line[0])] + (Bytes(line[1..]) + end);
        { Regroup(FrameStart(open), [CharByte(line[0])], Bytes(line[1..]), end); }
        FrameStart(open) + ([CharByte(line[0])] + Bytes(line[1..])) + end;
        { BytesCons(line); }
        FrameStart(open) + Bytes(line) + end;
      }
    }
  }

  lemma Regroup<T>(a: seq<T>, b: seq<T>, c: seq<T>, d: seq<T>)
    ensures a + b + (c + d) == a + (b + c) + d
  {
  }

  lemma PutcharThenRest(open: bool, c: int, rest: seq<int>)
    requires c != Newline
    ensures PutsBytes(open, [c] + rest) == FrameStart(open) + [CharByte(c)] + PutsBytes(true, rest)
  {
    assert ([c] + rest)[1..] == rest;
  }

  lemma BytesCons(cs: seq<int>)
    requires cs != []
    ensures Bytes(cs) == [CharByte(cs[0])] + Bytes(cs[1..])
  {
  }

  // ---------------------------------------------------------------------------
  // The '?M' reply: the link-layer address in lowercase hex

  /** A character of "0123456789abcdef". */
  predicate IsHexDigit(h: byte) { 48 <= h <= 57 || 97 <= h <= 102 }

  /** hexchar[n] of "0123456789abcdef". */
  function HexChar(n: byte): (h: byte)
    requires n < 16
    ensures IsHexDigit(h)
  {
    if n < 10 then 48 + n else 87 + n
  }

  /** The value of a lowercase hex digit, the inverse of HexChar. */
  function HexValue(h: byte): (n: byte)
    requires IsHexDigit(h)
    ensures n < 16
  {
    if h <= 57 then h - 48 else h - 87
  }

  lemma HexCharRoundTrip(n: byte)
    requires n < 16
    ensures HexValue(HexChar(n)) == n
  {
  }

  /** Two hex digits per byte, high nibble first. */
  function HexText(addr: seq<byte>): (t: seq<byte>)
    ensures |t| == 2 * |addr|
  {
    if addr == [] then []
    else [HexChar(addr[0] >> 4), HexChar(addr[0] & 15)] + HexText(addr[1..])
  }

  lemma {:induction false} HexTextAt(addr: seq<byte>, j: nat)
    requires j < |addr|
    ensures HexText(addr)[2 * j] == HexChar(addr[j] >> 4)
    ensures HexText(addr)[2 * j + 1] == HexChar(addr[j] & 15)
  {
    if j > 0 {
      HexTextAt(addr[1..], j - 1);
    }
  }

  /** Reading the reply back: pairs of hex digits to bytes. */
  function ParseHex(t: seq<byte>): seq<byte>
    requires |t| % 2 == 0
    requires forall i :: 0 <= i < |t| ==> IsHexDigit(t[i])
  {
    if t == [] then []
    else [(HexValue(t[0]) << 4) | HexValue(t[1])] + ParseHex(t[2..])
  }

  /** The hex text of the '?M' reply carries the whole address: reading it back gives the address. */
  lemma {:induction false} HexTextRoundTrip(addr: seq<byte>)
    ensures forall i :: 0 <= i < |HexText(addr)| ==> IsHexDigit(HexText(addr)[i])
    ensures ParseHex(HexText(addr)) == addr
  {
    if addr != [] {
      HexTextRoundTrip(addr[1..]);
      var b := addr[0];
      var t := HexText(addr);
      assert t[2..] == HexText(addr[1..]);
      NibblesJoin(b);
    }
  }

  lemma NibblesJoin(b: byte)
    ensures (HexValue(HexChar(b >> 4)) << 4) | HexValue(HexChar(b & 15)) == b
  {
    HexCharRoundTrip(b >> 4);
    HexCharRoundTrip(b & 15);
  }

  // ---------------------------------------------------------------------------
  // The bridge's state: uip_buf, uip_len, last_sender, debug_frame and the line

  class Bridge {
    var buf: array<byte>          // uip_buf
    var len: nat                  // uip_len
    var lastSender: seq<byte>     // last_sender
    var debugFrame: bool          // putchar's static debug_frame
    var events: seq<Event>        // the serial line in order, less the PRINTF debug lines

    ghost predicate Valid()
      reads this
    {
      buf.Length >= BufSize && len <= buf.Length && |lastSender| == 16
    }

    /** The IP source address of the packet now in uip_buf. */
    function Source(): (s: seq<byte>)
      reads this, buf
      requires Valid()
      ensures |s| == 16
    {
      buf[SrcOffset..SrcOffset + 16]
    }

    constructor (packet: array<byte>)
      requires packet.Length >= BufSize
      ensures Valid() && buf == packet
      ensures len == 0 && !debugFrame && events == []
      ensures lastSender == seq(16, _ => 0)
    {
      buf := packet;
      len := 0;
      lastSender := seq(16, _ => 0);
      debugFrame := false;
      events := [];
    }

    /** putchar: debug output framed for the host side of the SLIP line. */
    method Putchar(c: int) returns (r: int)
      requires Valid()
      modifies this`debugFrame, this`events
      ensures Valid()
      ensures r == c
      ensures events == old(events) + Writes(PutcharBytes(old(debugFrame), c))
      ensures debugFrame == (c != Newline)
    {
      var written: seq<byte> := [];
      if !debugFrame {
        events := events + [WriteByte(SlipEnd), WriteByte(CarriageReturn)];
        written := [SlipEnd, CarriageReturn];
        debugFrame := true;
      }
      events := events + [WriteByte(CharByte(c))];
      written := written + [CharByte(c)];
      if c == Newline {
        events := events + [WriteByte(SlipEnd)];
        written := written + [SlipEnd];
        debugFrame := false;
      }
      assert written == PutcharBytes(old(debugFrame), c);
      assert events == old(events) + Writes(written);
      r := c;
    }

    /**
     * slip_input_callback: a message has arrived over SLIP in uip_buf.
     * `lladdr` is uip_lladdr, `global` the preferred global address (NULL when
     * there is none yet) and `dagPrefix` the prefix length of any RPL DAG
     * (NULL when there is no DAG).
     */
    method InputCallback(lladdr: seq<byte>, global: Option<seq<byte>>, dagPrefix: Option<byte>)
      requires Valid() && |lladdr| == 8
      requires global.Some? ==> |global.value| == 16
      modifies this`len, this`lastSender, this`events, this`debugFrame, buf
      ensures Valid()
      ensures lastSender == Source() && !debugFrame
      ensures old(buf[0]) == Bang ==>
        buf[..] == old(buf[..]) && len == 0 &&
        events == old(events) + (if old(buf[1]) == LetterA then [SetBridgeAddr(old(buf[2..18]))] else [])
      ensures old(buf[0]) == Question && old(buf[1]) == LetterM ==>
        buf[..] == Overwrite(old(buf[..])[0 := Bang], 2, HexText(lladdr)) && len == 0 &&
        events == old(events) + [Send(buf[..18])]
      ensures old(buf[0]) == Question && old(buf[1]) == LetterA && global.None? ==>
        buf[..] == old(buf[..])[0 := Bang] && len == old(len) && events == old(events)
      ensures old(buf[0]) == Question && old(buf[1]) == LetterA && global.Some? ==>
        buf[..] == Overwrite(old(buf[..])[0 := Bang], 2, global.value)[18 := PrefixLength(dagPrefix)] &&
        len == 0 && events == old(events) + [Send(buf[..19])]
      ensures old(buf[0]) == Question && old(buf[1]) != LetterM && old(buf[1]) != LetterA ==>
        buf[..] == old(buf[..]) && len == 0 && events == old(events)
      ensures old(buf[0]) != Bang && old(buf[0]) != Question ==>
        buf[..] == old(buf[..]) && len == old(len) && events == old(events)
    {
      // PRINTF("SIN: %u\n", uip_len), and every later debug line, ends a debug frame.
      debugFrame := false;
      if buf[0] == Bang {
        len := 0;
        if buf[1] == LetterA {
          events := events + [SetBridgeAddr(buf[2..18])];
        }
      } else if buf[0] == Question {
        if buf[1] == LetterM {
          buf[0] := Bang;
          WriteHex(lladdr);
          len := 18;
          events := events + [Send(buf[..len])];
        } else if buf[1] == LetterA {
          buf[0] := Bang;
          if global.None? {
            lastSender := buf[SrcOffset..SrcOffset + 16];
            return;
          }
          CopyInto(global.value, 2);
          buf[18] := PrefixLength(dagPrefix);
          len := 19;
          events := events + [Send(buf[..len])];
        }
        len := 0;
      }
      lastSender := buf[SrcOffset..SrcOffset + 16];
    }

    /** The '?M' loop: uip_buf[2 + 2j] and uip_buf[3 + 2j] get the hex digits of lladdr[j]. */
    method WriteHex(lladdr: seq<byte>)
      requires |lladdr| == 8 && buf.Length >= 18
      modifies buf
      ensures buf[..] == Overwrite(old(buf[..]), 2, HexText(lladdr))
    {
      var j := 0;
      while j < 8
        invariant 0 <= j <= 8
        invariant forall k :: 0 <= k < buf.Length ==>
          buf[k] == if 2 <= k < 2 + 2 * j then HexText(lladdr)[k - 2] else old(buf[k])
      {
        HexTextAt(lladdr, j);
        buf[2 + j * 2] := HexChar(lladdr[j] >> 4);
        buf[3 + j * 2] := HexChar(lladdr[j] & 15);
        j := j + 1;
      }
      assert buf[..] == Overwrite(old(buf[..]), 2, HexText(lladdr));
    }

    /** memcpy(&uip_buf[at], src, |src|). */
    method CopyInto(src: seq<byte>, at: nat)
      requires at + |src| <= buf.Length
      modifies buf
      ensures buf[..] == Overwrite(old(buf[..]), at, src)
    {
      var k := 0;
      while k < |src|
        invariant 0 <= k <= |src|
        invariant forall i :: 0 <= i < buf.Length ==>
          buf[i] == if at <= i < at + k then src[i - at] else old(buf[i])
      {
        buf[at + k] := src[k];
        k := k + 1;
      }
      assert buf[..] == Overwrite(old(buf[..]), at, src);
    }

    /**
     * output: route a packet out over SLIP unless it came in over SLIP.  Both
     * branches print a debug line ending in '\n', which closes any open debug
     * frame; a sent packet is then followed by printf("\n"), which goes through
     * putchar as a debug line of its own.
     */
    method Output()
      requires Valid()
      modifies this`events, this`debugFrame
      ensures Valid()
      ensures !debugFrame
      ensures old(lastSender) == Source() ==> events == old(events)
      ensures old(lastSender) != Source() ==>
        events == old(events) + [Send(buf[..len])] + Writes(PutcharBytes(false, Newline))
    {
      // The "no route" or "SUT: %u" debug line ends any open debug frame.
      debugFrame := false;
      if lastSender != buf[SrcOffset..SrcOffset + 16] {
        events := events + [Send(buf[..len])];
        var _ := Putchar(Newline);
      }
    }
  }

  /** The prefix length the '?A' reply carries: the DAG's, or 64 when it is 0 or there is no DAG. */
  function PrefixLength(dagPrefix: Option<byte>): (p: byte)
    ensures p != 0
    ensures dagPrefix.Some? && dagPrefix.value != 0 ==> p == dagPrefix.value
    ensures dagPrefix.None? || dagPrefix.value == 0 ==> p == 64
  {
    var l := if dagPrefix.Some? then dagPrefix.value else 0;
    if l == 0 then 64 else l
  }
}
