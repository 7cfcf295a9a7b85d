/*
 * The inbox lock of the plexi scheduler interface
 * (examples/rich-EIT-demo-Topology/tools/plexi.c): `inbox_msg_lock` names
 * the handler whose block-wise POST (the Block1 option, section 2.5 of
 * RFC 7959) is being reassembled in `inbox_msg`, and every handler consults
 * it before it serves a request.
 *
 * The CoAP engine is left out.  Whether the request accepts JSON, the
 * length of its payload, and what coap_block1_handler does (its result
 * -1, 0 or 1 and the reassembled message it leaves in `inbox_msg`) are
 * inputs.  Replies are the response codes of section 5.9 of RFC 7252.
 */
module InboxLock {
  import opened Wrappers
  import opened ContentBuffer

  /** The lock values of plexi.c:38-46 and 75-77. */
  datatype Lock =
    | NoLock | DagGet | NeighborsGet | SlotframeGet | SlotframeDel | SlotframePost
    | LinkGet | LinkDel | LinkPost | StatsGet | StatsDel | StatsPost

  /** The number each lock has in the source. */
  function Code(l: Lock): nat
  {
    match l
    case NoLock => 0
    case DagGet => 1
    case NeighborsGet => 2
    case SlotframeGet => 3
    case SlotframeDel => 4
    case SlotframePost => 5
    case LinkGet => 6
    case LinkDel => 7
    case LinkPost => 8
    case StatsGet => 9
    case StatsDel => 10
    case StatsPost => 11
  }

  /** Distinct locks have distinct numbers, so comparing numbers compares locks. */
  lemma CodesDistinct(a: Lock, b: Lock)
    ensures Code(a) == Code(b) <==> a == b
  {
  }

  /** How a handler's dealing with the lock ends. */
  datatype Reply =
    | Busy           // 5.03 "Server too busy. Retry later."
    | NotAcceptable  // 4.06: the statistics POST, when the request does not accept JSON
    | NoStatus       // the link POST, when the request does not accept JSON: it sets no status
    | TooLarge       // 5.01 "Server reached internal buffer limit. Shorten payload."
    | MoreBlocks     // the block handler answered 1: more blocks follow
    | BlockFailed    // the block handler answered -1
    | Proceed        // the handler goes on to serve the request

  /** The lock and the length of the message being reassembled (inbox_msg_len). */
  datatype Inbox = Inbox(lock: Lock, len: int)

  /** A block of a POST request, with what the block handler makes of it. */
  datatype Block = Block(accept: bool, payloadLen: nat, x: int, message: seq<char>)

  /** A handler may go on when no lock is held or the lock is its own. */
  predicate Admits(lock: Lock, own: Lock)
  {
    lock == NoLock || lock == own
  }

  /** The guard at the head of every GET and DELETE handler and of the slotframe POST. */
  function GuardStep(s: Inbox, own: Lock): (Reply, Inbox)
  {
    if Admits(s.lock, own) then (Proceed, s.(lock := NoLock)) else (Busy, s)
  }

  /**
   * The lock handling of the link POST (own == LinkPost) and of the
   * statistics POST (own == StatsPost), up to the point where the
   * reassembled message is parsed.  A first block empties the inbox; the
   * statistics POST releases the lock before it checks the request, the link
   * POST only once the block handler has answered.
   */
  function PostStep(s: Inbox, own: Lock, b: Block, max: nat): (Reply, Inbox)
  {
    if !Admits(s.lock, own) then (Busy, s)
    else
      var start := if s.lock == NoLock then 0 else s.len;
      var held := if own == StatsPost then NoLock else s.lock;
      if !b.accept then (if own == LinkPost then NoStatus else NotAcceptable, Inbox(held, start))
      else if start + b.payloadLen > max then (TooLarge, Inbox(held, start))
      else if b.x == 1 then (MoreBlocks, Inbox(own, |b.message|))
      else if b.x == -1 then (BlockFailed, Inbox(NoLock, |b.message|))
      else (Proceed, Inbox(NoLock, |b.message|))
  }

  /** A call of one handler. */
  datatype Call =
    | Guarded(own: Lock)   // a GET or DELETE handler, or the slotframe POST
    | PostLinks(b: Block)
    | PostStats(b: Block)

  function Step(s: Inbox, c: Call, max: nat): (Reply, Inbox)
  {
    match c
    case Guarded(own) => GuardStep(s, own)
    case PostLinks(b) => PostStep(s, LinkPost, b, max)
    case PostStats(b) => PostStep(s, StatsPost, b, max)
  }

  /** The state after a sequence of calls. */
  function Run(s: Inbox, cs: seq<Call>, max: nat): Inbox
    decreases |cs|
  {
    if cs == [] then s else Run(Step(s, cs[0], max).1, cs[1..], max)
  }

  /** The only owner a handler can be refused for. */
  function Owner(c: Call): Lock
  {
    match c
    case Guarded(own) => own
    case PostLinks(_) => LinkPost
    case PostStats(_) => StatsPost
  }

  /**
   * A handler finding another handler's lock answers 5.03 and changes
   * nothing; every other handler call gets past the lock.
   */
  lemma RefusedIffLockedByOther(s: Inbox, c: Call, max: nat)
    ensures Step(s, c, max).0 == Busy <==> !Admits(s.lock, Owner(c))
    ensures Step(s, c, max).0 == Busy ==> Step(s, c, max).1 == s
  {
  }

  /** A GET or DELETE that gets past the guard releases the lock and keeps the inbox. */
  lemma GuardReleases(s: Inbox, own: Lock)
    requires Admits(s.lock, own)
    ensures GuardStep(s, own) == (Proceed, Inbox(NoLock, s.len))
  {
  }

  /**
   * A lock is taken only by a POST whose block handler answered 1; a failed
   * block or the final block releases it.
   */
  lemma LockTakenOnlyForMoreBlocks(s: Inbox, c: Call, max: nat)
    ensures Step(s, c, max).1.lock != NoLock && Step(s, c, max).1.lock != s.lock ==>
      Step(s, c, max).0 == MoreBlocks
    ensures Step(s, c, max).0 == MoreBlocks ==> !c.Guarded? && c.b.x == 1 && Step(s, c, max).1.lock == Owner(c)
    ensures Step(s, c, max).0 == BlockFailed || Step(s, c, max).0 == Proceed ==> Step(s, c, max).1.lock == NoLock
  {
  }

  /** A block that would take the message past MAX_DATA_LEN is refused with 5.01. */
  lemma OverflowRefused(s: Inbox, own: Lock, b: Block, max: nat)
    requires own == LinkPost || own == StatsPost
    ensures var start := if s.lock == NoLock then 0 else s.len;
      PostStep(s, own, b, max).0 == TooLarge <==> Admits(s.lock, own) && b.accept && start + b.payloadLen > max
  {
  }

  /**
   * A request that does not accept JSON: the statistics POST answers 4.06,
   * while the link POST has no else branch and sets no status, so the CoAP
   * engine's default response goes out.  Neither changes the lock it found,
   * except that the statistics POST has already released its own.
   */
  lemma NonJsonReply(s: Inbox, b: Block, max: nat)
    requires !b.accept
    ensures s.lock == NoLock || s.lock == LinkPost <==> PostStep(s, LinkPost, b, max).0 == NoStatus
    ensures s.lock == NoLock || s.lock == StatsPost <==> PostStep(s, StatsPost, b, max).0 == NotAcceptable
    ensures PostStep(s, LinkPost, b, max).0 == NoStatus ==> PostStep(s, LinkPost, b, max).1.lock == s.lock
    ensures PostStep(s, StatsPost, b, max).0 == NotAcceptable ==> PostStep(s, StatsPost, b, max).1.lock == NoLock
  {
  }

  /** The only locks ever held are the two block-wise POSTs'. */
  predicate Reachable(s: Inbox)
  {
    s.lock == NoLock || s.lock == LinkPost || s.lock == StatsPost
  }

  lemma {:induction false} OnlyPostLocksHeld(s: Inbox, cs: seq<Call>, max: nat)
    requires Reachable(s)
    ensures Reachable(Run(s, cs, max))
    decreases |cs|
  {
    if cs != [] {
      OnlyPostLocksHeld(Step(s, cs[0], max).1, cs[1..], max);
    }
  }

  /** While one POST reassembles its message, the other POST is refused. */
  lemma PostsExclude(s: Inbox, b: Block, max: nat)
    ensures s.lock == LinkPost ==> PostStep(s, StatsPost, b, max) == (Busy, s)
    ensures s.lock == StatsPost ==> PostStep(s, LinkPost, b, max) == (Busy, s)
  {
  }

  /** The globals the handlers share: inbox_msg, inbox_msg_len, inbox_msg_lock. */
  class Handlers {
    var lock: Lock
    /** inbox_msg; its length is MAX_DATA_LEN. */
    const inbox: array<char>
    var len: int

    function State(): Inbox
      reads this
    {
      Inbox(lock, len)
    }

    constructor(max: nat)
      requires max > 0
      ensures State() == Inbox(NoLock, 0) && fresh(inbox) && inbox.Length == max
    {
      lock := NoLock;
      inbox := new char[max](_ => Nul);
      len := 0;
    }

    /** The guard of a GET or DELETE handler (plexi.c:168-173 and its like). */
    method Guard(own: Lock) returns (r: Reply)
      modifies this
      ensures (r, State()) == GuardStep(old(State()), own)
    {
      if lock != NoLock && lock != own {
        return Busy;
      }
      lock := NoLock;
      r := Proceed;
    }

    /**
     * The link POST (own == LinkPost) or statistics POST (own == StatsPost)
     * handler up to the parse of the reassembled message.  The reply buffer
     * is reset once the lock admits the request.
     */
    method Post(own: Lock, b: Block, content: Content) returns (r: Reply)
      requires own == LinkPost || own == StatsPost
      requires 0 < inbox.Length && |b.message| <= inbox.Length
      requires content.Valid() && content.buf != inbox
      modifies this, inbox, content
      ensures (r, State()) == PostStep(old(State()), own, b, inbox.Length)
      ensures r == Busy ==> unchanged(inbox) && unchanged(content)
      ensures r != Busy ==> content.Valid() && content.wanted == [] && content.len == 0
      ensures r == MoreBlocks || r == BlockFailed || r == Proceed ==>
        inbox[..len] == b.message && (len < inbox.Length ==> inbox[len] == Nul)
      ensures old(lock) == NoLock && (r == NotAcceptable || r == NoStatus || r == TooLarge) ==> inbox[0] == Nul
      ensures r == NotAcceptable || r == NoStatus || r == TooLarge ==>
        inbox[1..] == old(inbox[1..]) && (old(lock) != NoLock ==> inbox[..] == old(inbox[..]))
    {
      if lock == NoLock {
        len := 0;
        inbox[0] := Nul;
      } else if lock != own {
        return Busy;
      }
      if own == StatsPost {
        lock := NoLock;
      }
      content.Reset();
      if !b.accept {
        return if own == LinkPost then NoStatus else NotAcceptable;
      }
      if len + b.payloadLen > inbox.Length {
        return TooLarge;
      }
      var x := BlockHandler(b);
      if len < inbox.Length {
        inbox[len] := Nul;
      }
      if x == 1 {
        lock := own;
        return MoreBlocks;
      } else if x == -1 {
        lock := NoLock;
        return BlockFailed;
      }
      lock := NoLock;
      r := Proceed;
    }

    /** coap_block1_handler, given what it does: the message it leaves and its answer. */
    method BlockHandler(b: Block) returns (x: int)
      requires |b.message| <= inbox.Length
      modifies this, inbox
      ensures x == b.x && len == |b.message| && lock == old(lock)
      ensures inbox[..len] == b.message
    {
      forall i | 0 <= i < |b.message| {
        inbox[i] := b.message[i];
      }
      len := |b.message|;
      x := b.x;
    }
  }
}
