/*
 * The link listing of the plexi scheduler interface: GET on the cell-list
 * resource (plexi_get_links_handler in
 * examples/rich-EIT-demo-Topology/tools/plexi.c).  A request may query the
 * link id, the slotframe, the timeslot and the channel offset; a link is
 * listed when it agrees with every value queried, and the reply is a JSON
 * array of the listed items unless a single object was asked for.
 *
 * The TSCH schedule is a sequence of slotframes, each a sequence of links,
 * in the order the schedule iterators visit them.  The query values arrive
 * already converted by strtoul.  The text of one item comes from a
 * renderer given with the request: which field a subresource prints and
 * the JSON labels are defined in plexi.h, which is not part of this model.
 */
module LinkQuery {
  import opened Wrappers
  import InboxLock
  import opened ContentBuffer

  datatype Link = Link(handle: nat, timeslot: nat, channel: nat)

  datatype Slotframe = Slotframe(handle: nat, links: seq<Link>)

  type Schedule = seq<Slotframe>

  /** The values of the link, frame, slot and channel query variables that are present. */
  datatype Query = Query(id: Option<nat>, frame: Option<nat>, slot: Option<nat>, channel: Option<nat>)

  /** The path after the resource name: none, one of the eight known subresources, or another. */
  datatype Path = Base | Known | Unknown

  /**
   * A request as the handler sees it.  `hasQuery` is a non-empty query
   * string; `render` gives the text of one listed link under the requested
   * subresource, or None when that link has nothing to show (no target
   * address, no statistics), which the handler answers with 4.04.  The
   * handler reads the query variables out of the query string, so a request
   * with no query string has no values in `q`; the model does not need that
   * fact, and a request breaking it describes no real request.
   */
  datatype Request = Request(accept: bool, hasQuery: bool, q: Query, path: Path,
                             render: Link -> Option<seq<char>>)

  datatype LinkReply =
    | Busy           // 5.03
    | NotAcceptable  // 4.06
    | Unsupported    // 5.01 "Supports queries only on slot frame id and/or slotoffset and channeloffset"
    | NotFound       // 4.04
    | Listed(text: seq<char>)

  /** The bits of `flag`: 8 for the link id, 4 the frame, 2 the slot, 1 the channel. */
  function Flag(q: Query): (f: nat)
    ensures f < 16
  {
    (if q.id.Some? then 8 else 0) + (if q.frame.Some? then 4 else 0) +
    (if q.slot.Some? then 2 else 0) + (if q.channel.Some? then 1 else 0)
  }

  /** A single object is asked for when the link id, or frame, slot and channel together, are queried. */
  lemma FlagAtLeastSeven(q: Query)
    ensures Flag(q) >= 7 <==> q.id.Some? || (q.frame.Some? && q.slot.Some? && q.channel.Some?)
    ensures Flag(q) == 0 <==> q == Query(None, None, None, None)
  {
  }

  predicate Agrees(v: Option<nat>, x: nat)
  {
    v.None? || v.value == x
  }

  /** The link of slotframe `sf` agrees with every value queried. */
  predicate Matches(q: Query, sf: Slotframe, l: Link)
  {
    Agrees(q.frame, sf.handle) && Agrees(q.slot, l.timeslot) && Agrees(q.channel, l.channel) &&
    Agrees(q.id, l.handle)
  }

  /** The matching links among the first n of a slotframe, in order. */
  function MatchedIn(q: Query, sf: Slotframe, n: nat): seq<Link>
    requires n <= |sf.links|
  {
    if n == 0 then []
    else MatchedIn(q, sf, n - 1) + (if Matches(q, sf, sf.links[n - 1]) then [sf.links[n - 1]] else [])
  }

  /** The matching links of the first m slotframes, in order. */
  function Matched(q: Query, sch: Schedule, m: nat): seq<Link>
    requires m <= |sch|
  {
    if m == 0 then [] else Matched(q, sch, m - 1) + MatchedIn(q, sch[m - 1], |sch[m - 1].links|)
  }

  /** A link is matched in a slotframe exactly when it is one of its links that agrees with the query. */
  lemma {:induction false} MatchedInIff(q: Query, sf: Slotframe, n: nat)
    requires n <= |sf.links|
    ensures forall l :: l in MatchedIn(q, sf, n) <==> exists j :: 0 <= j < n && sf.links[j] == l && Matches(q, sf, l)
  {
    if n > 0 {
      MatchedInIff(q, sf, n - 1);
    }
  }

  /** A link is listed exactly when some slotframe holds it and it agrees with every value queried. */
  lemma {:induction false} MatchedIff(q: Query, sch: Schedule, m: nat)
    requires m <= |sch|
    ensures forall l :: l in Matched(q, sch, m) <==>
      exists i, j :: 0 <= i < m && 0 <= j < |sch[i].links| && sch[i].links[j] == l && Matches(q, sch[i], l)
  {
    if m > 0 {
      MatchedIff(q, sch, m - 1);
      MatchedInIff(q, sch[m - 1], |sch[m - 1].links|);
    }
  }

  /** Link handles are unique across the schedule. */
  predicate UniqueHandles(sch: Schedule)
  {
    forall i, j, i', j' :: 0 <= i < |sch| && 0 <= j < |sch[i].links| && 0 <= i' < |sch| && 0 <= j' < |sch[i'].links| &&
      sch[i].links[j].handle == sch[i'].links[j'].handle
      ==> i == i' && j == j'
  }

  /** A query on the link id lists at most one link when handles are unique, so the bare object is a single item. */
  lemma IdQueryListsOne(q: Query, sch: Schedule)
    requires q.id.Some? && UniqueHandles(sch)
    ensures |Matched(q, sch, |sch|)| <= 1
  {
    AtMostOne(q, sch, |sch|);
  }

  lemma {:induction false} AtMostOne(q: Query, sch: Schedule, m: nat)
    requires q.id.Some? && UniqueHandles(sch) && m <= |sch|
    ensures |Matched(q, sch, m)| <= 1
    ensures |Matched(q, sch, m)| == 1 ==> exists i, j :: 0 <= i < m && 0 <= j < |sch[i].links| && sch[i].links[j].handle == q.id.value
  {
    if m > 0 {
      AtMostOne(q, sch, m - 1);
      var sf := sch[m - 1];
      AtMostOneIn(q, sch, m - 1, |sf.links|);
      if |Matched(q, sch, m - 1)| == 1 && |MatchedIn(q, sf, |sf.links|)| == 1 {
      }
    }
  }

  lemma {:induction false} AtMostOneIn(q: Query, sch: Schedule, i: nat, n: nat)
    requires q.id.Some? && UniqueHandles(sch) && i < |sch| && n <= |sch[i].links|
    ensures |MatchedIn(q, sch[i], n)| <= 1
    ensures |MatchedIn(q, sch[i], n)| == 1 ==> exists j :: 0 <= j < n && sch[i].links[j].handle == q.id.value
  {
    if n > 0 {
      AtMostOneIn(q, sch, i, n - 1);
      var sf := sch[i];
      if |MatchedIn(q, sf, n - 1)| == 1 && Matches(q, sf, sf.links[n - 1]) {
      }
    }
  }

  /** Every listed link has something to show. */
  predicate AllShown(ls: seq<Link>, render: Link -> Option<seq<char>>)
  {
    forall k :: 0 <= k < |ls| ==> render(ls[k]).Some?
  }

  /** The items of the listed links separated by commas, as the loop prints them. */
  function Items(ls: seq<Link>, render: Link -> Option<seq<char>>): seq<char>
    requires AllShown(ls, render)
  {
    if ls == [] then []
    else Items(ls[..|ls| - 1], render) + (if |ls| > 1 then [','] else []) + render(ls[|ls| - 1]).value
  }

  /** The reply is framed as an array unless a single object was asked for on the resource itself. */
  predicate Framed(req: Request)
  {
    Flag(req.q) < 7 || req.path != Base
  }

  /** What the handler answers once past the lock, and the text it lists. */
  function Listing(req: Request, sch: Schedule): LinkReply
  {
    if !req.accept then NotAcceptable
    else if req.hasQuery && Flag(req.q) == 0 then Unsupported
    else if req.path == Unknown then NotFound
    else
      var ls := Matched(req.q, sch, |sch|);
      if ls == [] || !AllShown(ls, req.render) then NotFound
      else if Framed(req) then Listed(['['] + Items(ls, req.render) + [']'])
      else Listed(Items(ls, req.render))
  }

  /**
   * A query on the link id, on the resource itself, of a link that exists
   * and has something to show: with unique handles the reply is that link's
   * text alone, with no brackets and no comma.
   */
  lemma {:induction false} IdQueryOnResource(req: Request, sch: Schedule, i: nat, j: nat)
    requires req.accept && req.q.id.Some? && req.path == Base && UniqueHandles(sch)
    requires i < |sch| && j < |sch[i].links| && Matches(req.q, sch[i], sch[i].links[j])
    requires req.render(sch[i].links[j]).Some?
    ensures Listing(req, sch) == Listed(req.render(sch[i].links[j]).value)
  {
    var l := sch[i].links[j];
    var ls := Matched(req.q, sch, |sch|);
    MatchedIff(req.q, sch, |sch|);
    assert l in ls;
    IdQueryListsOne(req.q, sch);
    assert ls == [l] by {
      assert |ls| == 1 && ls[0] == l;
    }
    assert Items(ls, req.render) == req.render(l).value by {
      assert ls[..0] == [];
    }
  }

  /** The reply lists something exactly when some link matches and every match has something to show. */
  lemma ListingShape(req: Request, sch: Schedule)
    requires req.accept && !(req.hasQuery && Flag(req.q) == 0) && req.path != Unknown
    ensures var ls := Matched(req.q, sch, |sch|);
      Listing(req, sch).Listed? <==> ls != [] && AllShown(ls, req.render)
    ensures Listing(req, sch).Listed? && Framed(req) ==>
      var t := Listing(req, sch).text;
      |t| >= 2 && t[0] == '[' && t[|t| - 1] == ']' && t[1..|t| - 1] == Items(Matched(req.q, sch, |sch|), req.render)
    ensures Listing(req, sch).Listed? && !Framed(req) ==>
      Listing(req, sch).text == Items(Matched(req.q, sch, |sch|), req.render)
  {
  }

  // ---------------------------------------------------------------------------
  // The handler

  /** The text printed after `count` listed links: the opening bracket, if any, and their items. */
  function Printed(req: Request, listed: seq<Link>): seq<char>
    requires AllShown(listed, req.render)
  {
    if listed == [] then [] else (if Framed(req) then ['['] else []) + Items(listed, req.render)
  }

  /** plexi_get_links_handler: the lock, then the checks, then the listing built in `content`. */
  method GetLinks(h: InboxLock.Handlers, content: Content, req: Request, sch: Schedule) returns (r: LinkReply)
    requires content.Valid()
    modifies h, content, content.buf
    ensures h.State() == InboxLock.GuardStep(old(h.State()), InboxLock.LinkGet).1
    ensures !InboxLock.Admits(old(h.lock), InboxLock.LinkGet) ==> r == Busy && unchanged(content) && unchanged(content.buf)
    ensures InboxLock.Admits(old(h.lock), InboxLock.LinkGet) ==> r == Listing(req, sch) && content.Valid()
    ensures r.Listed? ==> content.wanted == r.text
  {
    var g := h.Guard(InboxLock.LinkGet);
    if g == InboxLock.Busy {
      return Busy;
    }
    content.Reset();
    if !req.accept {
      return NotAcceptable;
    }
    if req.hasQuery && Flag(req.q) == 0 {
      return Unsupported;
    }
    if req.path == Unknown {
      return NotFound;
    }
    r := ListSchedule(content, req, sch);
  }

  /** The outer loop over the slotframes, then the closing bracket and the 4.04 for an empty listing. */
  method ListSchedule(content: Content, req: Request, sch: Schedule) returns (r: LinkReply)
    requires content.Valid() && content.wanted == []
    requires req.accept && !(req.hasQuery && Flag(req.q) == 0) && req.path != Unknown
    modifies content, content.buf
    ensures r == Listing(req, sch) && content.Valid()
    ensures r.Listed? ==> content.wanted == r.text
  {
    ghost var listed: seq<Link> := [];
    var first := true;
    var i := 0;
    while i < |sch|
      invariant 0 <= i <= |sch| && content.Valid()
      invariant listed == Matched(req.q, sch, i) && AllShown(listed, req.render)
      invariant first == (listed == []) && content.wanted == Printed(req, listed)
    {
      var shown;
      shown, first := ListFrame(content, req, sch[i], first, listed);
      if !shown {
        MatchedPrefix(req, sch, i, |sch|);
        return NotFound;
      }
      listed := listed + MatchedIn(req.q, sch[i], |sch[i].links|);
      i := i + 1;
    }
    if Framed(req) {
      content.Printf("]");
    }
    if first {
      return NotFound;
    }
    r := Listing(req, sch);
  }

  /**
   * The inner loop over the links of one slotframe.  `shown` is false when
   * a matching link has nothing to show.
   */
  method ListFrame(content: Content, req: Request, sf: Slotframe, first: bool, ghost before: seq<Link>)
    returns (shown: bool, first': bool)
    requires content.Valid() && AllShown(before, req.render)
    requires first == (before == []) && content.wanted == Printed(req, before)
    modifies content, content.buf
    ensures content.Valid()
    ensures shown <==> AllShown(before + MatchedIn(req.q, sf, |sf.links|), req.render)
    ensures shown ==> (first' == (before + MatchedIn(req.q, sf, |sf.links|) == []) &&
      content.wanted == Printed(req, before + MatchedIn(req.q, sf, |sf.links|)))
  {
    first' := first;
    ghost var listed := before;
    var j := 0;
    assert before + MatchedIn(req.q, sf, 0) == before;
    while j < |sf.links|
      invariant 0 <= j <= |sf.links| && content.Valid()
      invariant listed == before + MatchedIn(req.q, sf, j) && AllShown(listed, req.render)
      invariant first' == (listed == []) && content.wanted == Printed(req, listed)
    {
      var ok;
      ok, first', listed := ListAt(content, req, sf, j, first', before, listed);
      if !ok {
        return false, first';
      }
      j := j + 1;
    }
    shown := true;
  }

  /** The inner loop's body for the j-th link of the slotframe. */
  method ListAt(content: Content, req: Request, sf: Slotframe, j: nat, first: bool,
                ghost before: seq<Link>, ghost listed: seq<Link>)
    returns (ok: bool, first': bool, ghost listed': seq<Link>)
    requires j < |sf.links| && content.Valid()
    requires listed == before + MatchedIn(req.q, sf, j) && AllShown(listed, req.render)
    requires first == (listed == []) && content.wanted == Printed(req, listed)
    modifies content, content.buf
    ensures content.Valid()
    ensures !ok ==> !AllShown(before + MatchedIn(req.q, sf, |sf.links|), req.render)
    ensures ok ==> (listed' == before + MatchedIn(req.q, sf, j + 1) && AllShown(listed', req.render) &&
      first' == (listed' == []) && content.wanted == Printed(req, listed'))
  {
    var l := sf.links[j];
    Extend(before, MatchedIn(req.q, sf, j), if Matches(req.q, sf, l) then [l] else []);
    first', listed' := first, listed;
    if Matches(req.q, sf, l) {
      if req.render(l).None? {
        NotShown(before, req.q, sf, j, req.render);
        return false, first', listed';
      }
      first' := ListOne(content, req, l, first, listed);
      listed' := listed + [l];
    }
    ok := true;
  }

  /** One matching link: '[' before the first when framed, ',' before the others, then its item. */
  method ListOne(content: Content, req: Request, l: Link, first: bool, ghost done: seq<Link>) returns (first': bool)
    requires content.Valid() && AllShown(done, req.render) && req.render(l).Some?
    requires first == (done == []) && content.wanted == Printed(req, done)
    modifies content, content.buf
    ensures content.Valid() && !first' && AllShown(done + [l], req.render)
    ensures content.wanted == Printed(req, done + [l])
  {
    PrintedSnoc(req, done, l);
    if first {
      if Framed(req) {
        content.Printf("[");
      }
    } else {
      content.Printf(",");
    }
    content.Printf(req.render(l).value);
    first' := false;
  }

  lemma Extend(a: seq<Link>, b: seq<Link>, c: seq<Link>)
    ensures (a + b) + c == a + (b + c)
  {
  }

  /** Printing one more listed link extends the text by its separator and its item. */
  lemma PrintedSnoc(req: Request, done: seq<Link>, l: Link)
    requires AllShown(done, req.render) && req.render(l).Some?
    ensures AllShown(done + [l], req.render)
    ensures Printed(req, done + [l]) ==
      Printed(req, done) + (if done == [] then (if Framed(req) then ['['] else []) else [',']) + req.render(l).value
  {
    assert forall k :: 0 <= k < |done| ==> (done + [l])[k] == done[k];
    var ls := done + [l];
    assert ls[..|ls| - 1] == done;
    if done == [] {
      assert Items(ls, req.render) == Items([], req.render) + req.render(l).value;
    }
  }

  /** A matching link with nothing to show is among all the matches, which then are not all shown. */
  lemma NotShown(before: seq<Link>, q: Query, sf: Slotframe, j: nat, render: Link -> Option<seq<char>>)
    requires j < |sf.links| && Matches(q, sf, sf.links[j]) && render(sf.links[j]).None?
    ensures !AllShown(before + MatchedIn(q, sf, |sf.links|), render)
  {
    MatchedInIff(q, sf, |sf.links|);
    assert sf.links[j] in MatchedIn(q, sf, |sf.links|);
    var k :| 0 <= k < |MatchedIn(q, sf, |sf.links|)| && MatchedIn(q, sf, |sf.links|)[k] == sf.links[j];
    assert (before + MatchedIn(q, sf, |sf.links|))[|before| + k] == sf.links[j];
  }

  /** A match left unshown in the first slotframes stays unshown among all of them. */
  lemma MatchedPrefix(req: Request, sch: Schedule, i: nat, m: nat)
    requires i < m <= |sch|
    requires !AllShown(Matched(req.q, sch, i + 1), req.render)
    ensures !AllShown(Matched(req.q, sch, m), req.render)
    decreases m - i
  {
    if m > i + 1 {
      MatchedPrefix(req, sch, i, m - 1);
      var ls := Matched(req.q, sch, m - 1);
      var k :| 0 <= k < |ls| && req.render(ls[k]).None?;
      assert Matched(req.q, sch, m)[k] == ls[k];
    }
  }
}
