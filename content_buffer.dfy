/*
 * The response buffer of the plexi scheduler interface: the static
 * `content` array of MAX_DATA_LEN characters, its fill count
 * `content_len`, and CONTENT_PRINTF, which appends formatted text with
 * snprintf (examples/rich-EIT-demo-Topology/tools/plexi.c:50-53, 131-132).
 *
 * Formatting is left out: each CONTENT_PRINTF is given the text its format
 * and arguments produce.  snprintf writes at most room-1 characters and a
 * NUL, and returns the length of the whole text, so once the text no longer
 * fits `content_len` runs past the buffer size and every later append is
 * skipped.
 */
module ContentBuffer {
  import opened Wrappers


  class Content {
    /** The `content` array; its length is MAX_DATA_LEN. */
    const buf: array<char>
    /** content_len. */
    var len: int
    /** The texts appended since the last reset while the buffer still had room, untruncated. */
    ghost var printed: seq<char>
    /** Every text CONTENT_PRINTF was given since the last reset. */
    ghost var wanted: seq<char>

    ghost predicate Valid()
      reads this, buf
    {
      Shows(buf[..], len, printed) &&
      printed <= wanted && (len < buf.Length ==> printed == wanted)
    }

    /** Overflow happened: the buffer lost characters. */
    function Truncated(): bool
      reads this
    {
      len >= buf.Length
    }

    constructor(size: nat)
      requires size > 0
      ensures Valid() && fresh(buf) && buf.Length == size && wanted == []
    {
      buf := new char[size](_ => Nul);
      len := 0;
      printed, wanted := [], [];
    }

    /** `content_len = 0`, done by every handler before it builds a reply. */
    method Reset()
      requires Valid()
      modifies this
      ensures Valid() && wanted == [] && len == 0
    {
      len := 0;
      printed, wanted := [], [];
    }

    /** CONTENT_PRINTF, given the text the format produces. */
    method Printf(text: seq<char>)
      requires Valid()
      modifies this, buf
      ensures Valid()
      ensures wanted == old(wanted) + text
      ensures len == old(len) + (if old(len) < buf.Length then |text| else 0)
      ensures old(len) >= buf.Length ==> unchanged(buf)
    {
      if len >= buf.Length {
        wanted := wanted + text;
        return;
      }
      var room := buf.Length - len;
      var k := if |text| < room - 1 then |text| else room - 1;
      Snprintf(len, text[..k]);
      Appended(old(buf[..]), buf[..], printed, text, k);
      printed := printed + text;
      wanted := printed;
      len := len + |text|;
    }

    /** What snprintf leaves at `at`: the characters that fit, then a NUL. */
    method Snprintf(at: nat, t: seq<char>)
      requires at + |t| < buf.Length
      modifies buf
      ensures buf[..at] == old(buf[..at]) && buf[at..at + |t|] == t && buf[at + |t|] == Nul
    {
      var i := 0;
      while i < |t|
        invariant 0 <= i <= |t|
        invariant buf[..at] == old(buf[..at])
        invariant buf[at..at + i] == t[..i]
      {
        buf[at + i] := t[i];
        i := i + 1;
      }
      buf[at + |t|] := Nul;
    }

    /**
     * The payload a handler hands to the CoAP engine: content_len characters
     * of `content`, which the engine clamps to REST_MAX_CHUNK_SIZE, the
     * buffer's own size.
     */
    function Payload(): (p: seq<char>)
      reads this, buf
      requires 0 <= len
    {
      buf[..if len < buf.Length then len else buf.Length]
    }

    /**
     * A reply that fits is sent whole; one that does not is cut to all but
     * the last byte of the buffer, which holds the NUL of snprintf.
     */
    lemma PayloadIsPrinted()
      requires Valid()
      ensures !Truncated() ==> Payload() == wanted
      ensures Truncated() ==> Payload() == wanted[..buf.Length - 1] + [Nul]
    {
      if Truncated() {
        var n := buf.Length - 1;
        assert buf[..n + 1] == buf[..n] + [buf[n]];
        assert printed[..n] == wanted[..n];
      } else {
        assert printed[..len] == printed;
      }
    }
  }

  /** How many characters of what was printed a buffer of `size` holds when `len` were printed. */
  function Kept(size: int, len: int): int
  {
    if len < size then len else size - 1
  }

  /**
   * A buffer shows what was printed: the characters it keeps are the first
   * ones printed, and a NUL follows them once anything was printed.
   */
  ghost predicate Shows(b: seq<char>, len: int, printed: seq<char>)
  {
    |b| > 0 && len == |printed| &&
    b[..Kept(|b|, len)] == printed[..Kept(|b|, len)] &&
    (printed != [] ==> b[Kept(|b|, len)] == Nul)
  }

  /** Writing the part of the text that fits and a NUL after what was shown shows the longer text. */
  lemma Appended(before: seq<char>, after: seq<char>, printed: seq<char>, text: seq<char>, k: nat)
    requires Shows(before, |printed|, printed) && |printed| < |before| == |after|
    requires k == if |text| < |before| - |printed| - 1 then |text| else |before| - |printed| - 1
    requires after[..|printed|] == before[..|printed|]
    requires after[|printed|..|printed| + k] == text[..k] && after[|printed| + k] == Nul
    ensures Shows(after, |printed| + |text|, printed + text)
  {
    var n := |printed|;
    assert Kept(|after|, n + |text|) == n + k;
    assert before[..n] == printed;
    assert after[..n + k] == after[..n] + after[n..n + k];
    assert (printed + text)[..n + k] == printed + text[..k];
  }
}
