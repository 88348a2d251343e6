/** The walk over a pipeline that numbers its pads and records its links for the inspector. */
module PipelineGraph {
  import opened Sequences
  import opened Wrappers

  // ---- The pipeline ----

  /** The identity of a pad. */
  type Handle = nat

  type Caps = string

  datatype Direction = Src | Sink | UnknownDirection

  /** A ghost pad sits on a bin's border and has a target inside; its internal side is a proxy pad, which
      knows its ghost. */
  datatype Kind = Ordinary | Ghost(target: Option<Handle>) | Proxy(internal: Option<Handle>)

  datatype Pad = Pad(name: string, detail: string, direction: Direction, kind: Kind, peer: Option<Handle>,
                     caps: Option<Caps>)

  /** What is known of each pad, whether the walk visits it or not; texts are as GStreamer gives them. */
  type Pads = Handle -> Pad

  /** The children of a bin are listed newest first. An element that is no bin has none. */
  datatype Element = Element(name: string, typeName: string, state: string, properties: seq<string>, pads: seq<Handle>,
                             isBin: bool, children: seq<Element>)

  // ---- The snapshot ----

  datatype GraphPad = GraphPad(id: nat, name: string, detail: string, ghostPad: bool)

  datatype GraphCell = GraphCell(name: string, typeName: string, state: string, properties: seq<string>,
                                 sinkPads: seq<GraphPad>, srcPads: seq<GraphPad>, isBin: bool,
                                 children: seq<GraphCell>)

  datatype GraphLink = GraphLink(srcPad: nat, sinkPad: nat, caps: Option<Caps>)

  datatype GraphSnapshot = GraphSnapshot(root: GraphCell, links: seq<GraphLink>)

  datatype RawLink = RawLink(src: Handle, sink: Handle, caps: Option<Caps>)

  // ---- The order of the walk ----

  /** An element's own pads, then those of its children, oldest first. */
  function Visit(e: Element): seq<Handle>
    decreases e
  {
    e.pads + if e.isBin then VisitFrom(e.children, 0) else []
  }

  /** The last child down to child `i`. */
  function VisitFrom(children: seq<Element>, i: nat): seq<Handle>
    requires i <= |children|
    decreases children, |children| - i
  {
    if i == |children| then [] else VisitFrom(children, i + 1) + Visit(children[i])
  }

  // ---- Numbers ----

  type Ids = map<Handle, nat>

  /** Pads get the numbers 1, 2, ... when they are first met. */
  function Numbering(visited: seq<Handle>): Ids {
    if visited == [] then
      map[]
    else
      Numbered(Numbering(visited[..|visited| - 1]), visited[|visited| - 1])
  }

  function Numbered(ids: Ids, pad: Handle): Ids {
    if pad in ids then ids else ids[pad := |ids| + 1]
  }

  ghost predicate Extends(ids: Ids, later: Ids) {
    forall p :: p in ids ==> p in later && later[p] == ids[p]
  }

  ghost predicate Covers(ids: Ids, visited: seq<Handle>) {
    forall p :: p in ids <==> p in visited
  }

  lemma NumberingStep(visited: seq<Handle>, pad: Handle)
    ensures Numbering(visited + [pad]) == Numbered(Numbering(visited), pad)
  {
    assert (visited + [pad])[..|visited|] == visited;
  }

  /** Every visited pad has a number, no two have the same, and there are no gaps. */
  lemma {:induction false} NumbersAreDistinct(visited: seq<Handle>)
    ensures var ids := Numbering(visited);
            && Covers(ids, visited)
            && (forall p :: p in ids ==> 1 <= ids[p] <= |ids|)
            && (forall p, q :: p in ids && q in ids && ids[p] == ids[q] ==> p == q)
  {
    if visited == [] {
    } else {
      var before, last := visited[..|visited| - 1], visited[|visited| - 1];
      NumbersAreDistinct(before);
      assert visited == before + [last];
    }
  }

  /** A pad keeps its number for the rest of the walk. */
  lemma {:induction false} NumbersAreStable(visited: seq<Handle>, more: seq<Handle>)
    ensures Extends(Numbering(visited), Numbering(visited + more))
  {
    if more == [] {
      assert visited + more == visited;
    } else {
      var before, last := more[..|more| - 1], more[|more| - 1];
      NumbersAreStable(visited, before);
      assert visited + more == (visited + before) + [last];
      NumberingStep(visited + before, last);
    }
  }

  predicate Distinct(visited: seq<nat>) {
    forall i, j :: 0 <= i < j < |visited| ==> visited[i] != visited[j]
  }

  /** The numbers count the pads in the order of the walk. */
  ghost predicate InTurn(ids: Ids, visited: seq<Handle>) {
    && |ids| == |visited|
    && forall i :: 0 <= i < |visited| ==> visited[i] in ids && ids[visited[i]] == i + 1
  }

  lemma OneMoreInTurn(ids: Ids, visited: seq<Handle>, pad: Handle)
    requires InTurn(ids, visited) && pad !in ids
    ensures InTurn(Numbered(ids, pad), visited + [pad])
  {
  }

  lemma DistinctBefore(visited: seq<Handle>, pad: Handle)
    requires Distinct(visited + [pad])
    ensures Distinct(visited) && pad !in visited
  {
    var all := visited + [pad];
    assert forall i :: 0 <= i < |visited| ==> visited[i] == all[i] && all[i] != all[|visited|];
  }

  /** With one owner for each pad. */
  lemma {:induction false} NumbersFollowTheWalk(visited: seq<Handle>)
    requires Distinct(visited)
    ensures InTurn(Numbering(visited), visited)
  {
    if visited == [] {
    } else {
      var before, last := visited[..|visited| - 1], visited[|visited| - 1];
      assert visited == before + [last];
      DistinctBefore(before, last);
      NumbersFollowTheWalk(before);
      NumbersAreDistinct(before);
      OneMoreInTurn(Numbering(before), before, last);
    }
  }

  // ---- Links ----

  /** `resolve_peer`: a proxy stands for its ghost. */
  function ResolvePeer(pads: Pads, peer: Handle): Handle {
    match pads(peer).kind
    case Ghost(_) => peer
    case Proxy(internal) => if internal.Some? then internal.value else peer
    case Ordinary => peer
  }

  /** The link that a visit records: from a source pad to its resolved peer, or from a ghost sink pad to its
      target. */
  function LinkOf(pads: Pads, pad: Handle): Option<RawLink> {
    var info := pads(pad);
    match info.direction
    case Src => if info.peer.Some? then Some(RawLink(pad, ResolvePeer(pads, info.peer.value), info.caps)) else None
    case Sink =>
      if info.kind.Ghost? && info.kind.target.Some? then Some(RawLink(pad, info.kind.target.value, info.caps)) else None
    case UnknownDirection => None
  }

  function RawLinks(pads: Pads, visited: seq<Handle>): seq<RawLink> {
    if visited == [] then
      []
    else
      var link := LinkOf(pads, visited[|visited| - 1]);
      RawLinks(pads, visited[..|visited| - 1]) + if link.Some? then [link.value] else []
  }

  lemma RawLinksStep(pads: Pads, visited: seq<Handle>, pad: Handle)
    ensures var link := LinkOf(pads, pad);
            RawLinks(pads, visited + [pad]) == RawLinks(pads, visited) + if link.Some? then [link.value] else []
  {
    assert (visited + [pad])[..|visited|] == visited;
  }

  /** The links of the snapshot: those with a number at both ends. */
  function Resolve(ids: Ids, raw: seq<RawLink>): seq<GraphLink> {
    if raw == [] then
      []
    else
      var link := raw[|raw| - 1];
      Resolve(ids, raw[..|raw| - 1]) +
      if link.src in ids && link.sink in ids then [GraphLink(ids[link.src], ids[link.sink], link.caps)] else []
  }

  lemma {:induction false} RawLinkIsRecorded(pads: Pads, visited: seq<Handle>, link: RawLink)
    ensures link in RawLinks(pads, visited) <==> exists p :: p in visited && LinkOf(pads, p) == Some(link)
  {
    if visited == [] {
    } else {
      var before, last := visited[..|visited| - 1], visited[|visited| - 1];
      RawLinkIsRecorded(pads, before, link);
      assert visited == before + [last];
      assert forall p :: p in visited <==> p in before || p == last;
    }
  }

  ghost predicate Resolves(ids: Ids, raw: RawLink, link: GraphLink) {
    raw.src in ids && raw.sink in ids && link == GraphLink(ids[raw.src], ids[raw.sink], raw.caps)
  }

  lemma {:induction false} LinkIsResolved(ids: Ids, raw: seq<RawLink>, link: GraphLink)
    ensures link in Resolve(ids, raw) <==> exists r :: r in raw && Resolves(ids, r, link)
  {
    if raw == [] {
    } else {
      var before, last := raw[..|raw| - 1], raw[|raw| - 1];
      LinkIsResolved(ids, before, link);
      assert raw == before + [last];
      if link in Resolve(ids, raw) {
        if link in Resolve(ids, before) {
          var r :| r in before && Resolves(ids, r, link);
          assert r in raw;
        } else {
          assert last in raw && Resolves(ids, last, link);
        }
      }
      if r :| r in raw && Resolves(ids, r, link) {
        assert r in before || r == last;
      }
    }
  }

  /** The links after a walk: those of the visited pads whose other end was visited too, at whatever time. */
  function Links(pads: Pads, visited: seq<Handle>): seq<GraphLink> {
    Resolve(Numbering(visited), RawLinks(pads, visited))
  }

  /** A link belongs to the visited pad `p`. */
  ghost predicate LinkFrom(pads: Pads, visited: seq<Handle>, p: Handle, link: GraphLink) {
    && p in visited && LinkOf(pads, p).Some? && LinkOf(pads, p).value.sink in visited
    && Resolves(Numbering(visited), LinkOf(pads, p).value, link)
  }

  lemma LinksAreThoseOfVisitedPads(pads: Pads, visited: seq<Handle>, link: GraphLink)
    ensures link in Links(pads, visited) <==> exists p :: LinkFrom(pads, visited, p, link)
  {
    var ids, raw := Numbering(visited), RawLinks(pads, visited);
    NumbersAreDistinct(visited);
    LinkIsResolved(ids, raw, link);
    if link in Links(pads, visited) {
      var r :| r in raw && Resolves(ids, r, link);
      RawLinkIsRecorded(pads, visited, r);
      var p :| p in visited && LinkOf(pads, p) == Some(r);
      assert LinkFrom(pads, visited, p, link);
    }
    if p :| LinkFrom(pads, visited, p, link) {
      RawLinkIsRecorded(pads, visited, LinkOf(pads, p).value);
    }
  }

  /** If every recorded end is visited, no link is dropped. */
  lemma {:induction false} NoLinkIsDropped(ids: Ids, raw: seq<RawLink>)
    requires forall i :: 0 <= i < |raw| ==> raw[i].src in ids && raw[i].sink in ids
    ensures |Resolve(ids, raw)| == |raw|
    ensures forall i :: 0 <= i < |raw| ==> Resolves(ids, raw[i], Resolve(ids, raw)[i])
  {
    if raw == [] {
    } else {
      var before, last := raw[..|raw| - 1], raw[|raw| - 1];
      assert raw == before + [last];
      NoLinkIsDropped(ids, before);
      var earlier := Resolve(ids, before);
      assert Resolve(ids, raw) == earlier + [GraphLink(ids[last.src], ids[last.sink], last.caps)];
      forall i | 0 <= i < |raw| ensures Resolves(ids, raw[i], Resolve(ids, raw)[i]) {
        if i < |before| {
          assert raw[i] == before[i] && Resolve(ids, raw)[i] == earlier[i];
        }
      }
    }
  }

  ghost predicate AllNumbered(ids: Ids, raw: seq<RawLink>) {
    forall r :: r in raw ==> r.src in ids && r.sink in ids
  }

  /** The links are as many as were recorded exactly if every recorded end has a number. */
  lemma {:induction false} AllKeptIffAllNumbered(ids: Ids, raw: seq<RawLink>)
    ensures |Resolve(ids, raw)| <= |raw|
    ensures |Resolve(ids, raw)| == |raw| <==> AllNumbered(ids, raw)
  {
    if raw == [] {
    } else {
      var before, last := raw[..|raw| - 1], raw[|raw| - 1];
      AllKeptIffAllNumbered(ids, before);
      assert raw == before + [last];
      assert forall r :: r in raw <==> r in before || r == last;
    }
  }

  /** What a visited pad leads to is visited: a source pad's peer, or the ghost of that peer if it is a
      proxy, and a ghost sink pad's target. */
  ghost predicate LeadsInside(pads: Pads, visited: seq<Handle>, p: Handle) {
    var info := pads(p);
    && (info.direction.Src? && info.peer.Some? ==>
          || info.peer.value in visited
          || exists outer :: pads(info.peer.value).kind == Proxy(Some(outer)) && outer in visited)
    && (info.direction.Sink? && info.kind.Ghost? && info.kind.target.Some? ==> info.kind.target.value in visited)
  }

  /** Proxies are inside their ghosts and no element's own pads. */
  ghost predicate NoProxies(pads: Pads, visited: seq<Handle>) {
    forall p :: p in visited ==> !pads(p).kind.Proxy?
  }

  lemma LinkEndIffInside(pads: Pads, visited: seq<Handle>, p: Handle)
    requires NoProxies(pads, visited)
    ensures LeadsInside(pads, visited, p) <==> (LinkOf(pads, p).Some? ==> LinkOf(pads, p).value.sink in visited)
  {
    var info := pads(p);
    if info.direction.Src? && info.peer.Some? {
      var kind := pads(info.peer.value).kind;
      if kind.Proxy? && kind.internal.Some? {
        assert kind == Proxy(Some(kind.internal.value));
      }
    }
  }

  /** No recorded connection is dropped exactly if no visited pad leads outside; each link then joins the
      numbers of the two pads that were recorded, in the order of the recording. */
  lemma NothingIsDroppedIffAllLeadInside(pads: Pads, visited: seq<Handle>)
    requires NoProxies(pads, visited)
    ensures |Links(pads, visited)| == |RawLinks(pads, visited)| <==>
            forall p :: p in visited ==> LeadsInside(pads, visited, p)
    ensures (forall p :: p in visited ==> LeadsInside(pads, visited, p)) ==>
              forall i :: 0 <= i < |RawLinks(pads, visited)| ==>
                i < |Links(pads, visited)| &&
                Resolves(Numbering(visited), RawLinks(pads, visited)[i], Links(pads, visited)[i])
  {
    var ids, raw := Numbering(visited), RawLinks(pads, visited);
    NumbersAreDistinct(visited);
    AllKeptIffAllNumbered(ids, raw);
    if AllNumbered(ids, raw) {
      NumberedEndsAreVisited(pads, visited);
    }
    if AllEndsVisited(pads, visited) {
      VisitedEndsAreNumbered(pads, visited);
    }
    forall p | p in visited
      ensures LeadsInside(pads, visited, p) <==> (LinkOf(pads, p).Some? ==> LinkOf(pads, p).value.sink in visited)
    {
      LinkEndIffInside(pads, visited, p);
    }
    if AllNumbered(ids, raw) {
      NoLinkIsDropped(ids, raw);
    }
  }

  ghost predicate AllEndsVisited(pads: Pads, visited: seq<Handle>) {
    forall p :: p in visited ==> LinkOf(pads, p).Some? ==> LinkOf(pads, p).value.sink in visited
  }

  lemma NumberedEndsAreVisited(pads: Pads, visited: seq<Handle>)
    requires AllNumbered(Numbering(visited), RawLinks(pads, visited))
    ensures AllEndsVisited(pads, visited)
  {
    NumbersAreDistinct(visited);
    forall p | p in visited && LinkOf(pads, p).Some? ensures LinkOf(pads, p).value.sink in visited {
      RawLinkIsRecorded(pads, visited, LinkOf(pads, p).value);
    }
  }

  lemma VisitedEndsAreNumbered(pads: Pads, visited: seq<Handle>)
    requires AllEndsVisited(pads, visited)
    ensures AllNumbered(Numbering(visited), RawLinks(pads, visited))
  {
    NumbersAreDistinct(visited);
    forall r | r in RawLinks(pads, visited) ensures r.src in visited && r.sink in visited {
      RawLinkIsRecorded(pads, visited, r);
      var p :| p in visited && LinkOf(pads, p) == Some(r);
    }
  }

  predicate SourcesAscend(links: seq<GraphLink>, bound: nat) {
    && (forall i, j :: 0 <= i < j < |links| ==> links[i].srcPad < links[j].srcPad)
    && (forall i :: 0 <= i < |links| ==> links[i].srcPad <= bound)
  }

  lemma AscendOneMore(links: seq<GraphLink>, bound: nat, more: seq<GraphLink>)
    requires SourcesAscend(links, bound) && (more == [] || (|more| == 1 && more[0].srcPad == bound + 1))
    ensures SourcesAscend(links + more, bound + 1)
  {
  }

  lemma LinksOneMore(pads: Pads, ids: Ids, raw: seq<RawLink>, p: Handle, bound: nat)
    requires SourcesAscend(Resolve(ids, raw), bound) && p in ids && ids[p] == bound + 1
    ensures var link := LinkOf(pads, p);
            SourcesAscend(Resolve(ids, raw + if link.Some? then [link.value] else []), bound + 1)
  {
    var link := LinkOf(pads, p);
    if link.Some? {
      ResolveStep(ids, raw, link.value);
      AscendOneMore(Resolve(ids, raw), bound, if link.value.sink in ids then
                                                [GraphLink(ids[p], ids[link.value.sink], link.value.caps)]
                                              else
                                                []);
    } else {
      assert raw + [] == raw;
    }
  }

  lemma {:induction false} LinksUpTo(pads: Pads, visited: seq<Handle>, n: nat)
    requires Distinct(visited) && n <= |visited|
    ensures SourcesAscend(Resolve(Numbering(visited), RawLinks(pads, visited[..n])), n)
  {
    if n == 0 {
    } else {
      var before, p := visited[..n - 1], visited[n - 1];
      LinksUpTo(pads, visited, n - 1);
      NumbersFollowTheWalk(visited);
      assert visited[..n] == before + [p];
      RawLinksStep(pads, before, p);
      LinksOneMore(pads, Numbering(visited), RawLinks(pads, before), p, n - 1);
    }
  }

  lemma ResolveStep(ids: Ids, raw: seq<RawLink>, link: RawLink)
    ensures Resolve(ids, raw + [link]) == Resolve(ids, raw) +
              if link.src in ids && link.sink in ids then [GraphLink(ids[link.src], ids[link.sink], link.caps)] else []
  {
    assert (raw + [link])[..|raw|] == raw;
  }

  /** With one owner for each pad, no pad is the source of two links, and the links come in the order of
      their sources. */
  lemma LinksComeInOrder(pads: Pads, visited: seq<Handle>)
    requires Distinct(visited)
    ensures SourcesAscend(Links(pads, visited), |visited|)
  {
    LinksUpTo(pads, visited, |visited|);
    assert visited[..|visited|] == visited;
  }

  // ---- Cells ----

  function PadOf(pads: Pads, ids: Ids, pad: Handle): GraphPad {
    GraphPad(if pad in ids then ids[pad] else 0, pads(pad).name, pads(pad).detail, pads(pad).kind.Ghost?)
  }

  /** The first `n` pads that have a direction. */
  function PadsOf(pads: Pads, ids: Ids, handles: seq<Handle>, direction: Direction, n: nat): seq<GraphPad>
    requires n <= |handles|
  {
    if n == 0 then
      []
    else
      var before := PadsOf(pads, ids, handles, direction, n - 1);
      if pads(handles[n - 1]).direction == direction then before + [PadOf(pads, ids, handles[n - 1])] else before
  }

  /** The snapshot of an element under a numbering. */
  function CellOf(pads: Pads, ids: Ids, e: Element): GraphCell
    decreases e
  {
    GraphCell(e.name, e.typeName, e.state, e.properties, PadsOf(pads, ids, e.pads, Sink, |e.pads|),
              PadsOf(pads, ids, e.pads, Src, |e.pads|), e.isBin,
              if e.isBin then CellsFrom(pads, ids, e.children, 0) else [])
  }

  /** Oldest first, that is from the last child down to child `i`. */
  function CellsFrom(pads: Pads, ids: Ids, children: seq<Element>, i: nat): seq<GraphCell>
    requires i <= |children|
    decreases children, |children| - i
  {
    if i == |children| then [] else CellsFrom(pads, ids, children, i + 1) + [CellOf(pads, ids, children[i])]
  }

  lemma {:induction false} PadsAreStable(pads: Pads, ids: Ids, later: Ids, handles: seq<Handle>, direction: Direction,
                                         n: nat)
    requires Extends(ids, later) && n <= |handles| && forall j :: 0 <= j < n ==> handles[j] in ids
    ensures PadsOf(pads, later, handles, direction, n) == PadsOf(pads, ids, handles, direction, n)
  {
    if n == 0 {
    } else {
      PadsAreStable(pads, ids, later, handles, direction, n - 1);
    }
  }

  /** What is listed of an element's pads is right for the rest of the walk. */
  lemma ListedPadsKeep(pads: Pads, start: seq<Handle>, handles: seq<Handle>, n: nat, more: seq<Handle>,
                       direction: Direction)
    requires n <= |handles|
    ensures PadsOf(pads, Numbering(start + handles[..n] + more), handles, direction, n) ==
            PadsOf(pads, Numbering(start + handles[..n]), handles, direction, n)
  {
    var before := start + handles[..n];
    NumbersAreStable(before, more);
    NumbersAreDistinct(before);
    forall j | 0 <= j < n ensures handles[j] in before {
      assert before[|start| + j] == handles[j];
    }
    PadsAreStable(pads, Numbering(before), Numbering(before + more), handles, direction, n);
  }

  /** Listing pad `i` after it has been visited. */
  lemma ListedPadStep(pads: Pads, start: seq<Handle>, handles: seq<Handle>, i: nat, direction: Direction)
    requires i < |handles|
    ensures start + handles[..i] + [handles[i]] == start + handles[..i + 1]
    ensures var ids := Numbering(start + handles[..i + 1]);
            PadsOf(pads, ids, handles, direction, i + 1) ==
              PadsOf(pads, Numbering(start + handles[..i]), handles, direction, i) +
              if pads(handles[i]).direction == direction then [PadOf(pads, ids, handles[i])] else []
  {
    assert start + handles[..i] + [handles[i]] == start + handles[..i + 1];
    ListedPadsKeep(pads, start, handles, i, [handles[i]], direction);
  }

  ghost predicate AllIn(handles: seq<Handle>, ids: Ids) {
    forall p :: p in handles ==> p in ids
  }

  lemma AllInBoth(a: seq<Handle>, b: seq<Handle>, ids: Ids)
    requires AllIn(a + b, ids)
    ensures AllIn(a, ids) && AllIn(b, ids)
  {
    forall p | p in a || p in b ensures p in ids {
      assert p in a + b;
    }
  }

  /** A finished cell is right for the whole walk. */
  lemma {:induction false} CellIsStable(pads: Pads, ids: Ids, later: Ids, e: Element)
    requires Extends(ids, later) && AllIn(Visit(e), ids)
    ensures CellOf(pads, later, e) == CellOf(pads, ids, e)
    decreases e
  {
    AllInBoth(e.pads, if e.isBin then VisitFrom(e.children, 0) else [], ids);
    PadsAreStable(pads, ids, later, e.pads, Sink, |e.pads|);
    PadsAreStable(pads, ids, later, e.pads, Src, |e.pads|);
    if e.isBin {
      CellsAreStable(pads, ids, later, e.children, 0);
    }
  }

  lemma {:induction false} CellsAreStable(pads: Pads, ids: Ids, later: Ids, children: seq<Element>, i: nat)
    requires i <= |children| && Extends(ids, later) && AllIn(VisitFrom(children, i), ids)
    ensures CellsFrom(pads, later, children, i) == CellsFrom(pads, ids, children, i)
    decreases children, |children| - i
  {
    if i == |children| {
    } else {
      AllInBoth(VisitFrom(children, i + 1), Visit(children[i]), ids);
      CellsAreStable(pads, ids, later, children, i + 1);
      CellIsStable(pads, ids, later, children[i]);
    }
  }

  // ---- The walker ----

  class Walker {
    const pads: Pads
    var nextPadId: nat
    var padIds: Ids
    var rawLinks: seq<RawLink>
    ghost var visited: seq<Handle>

    constructor (pads: Pads)
      ensures Valid() && visited == [] && this.pads == pads
    {
      this.pads := pads;
      nextPadId := 0;
      padIds := map[];
      rawLinks := [];
      visited := [];
    }

    ghost predicate Valid()
      reads this
    {
      padIds == Numbering(visited) && nextPadId == |padIds| && rawLinks == RawLinks(pads, visited)
    }

    /** Gets or inserts. */
    method PadId(pad: Handle) returns (id: nat)
      requires nextPadId == |padIds|
      modifies `nextPadId, `padIds
      ensures nextPadId == |padIds| && padIds == Numbered(old(padIds), pad)
      ensures pad in padIds && id == padIds[pad]
    {
      if pad !in padIds {
        nextPadId := nextPadId + 1;
        padIds := padIds[pad := nextPadId];
      }
      id := padIds[pad];
    }

    /** Numbers one pad and records the link that starts at it. */
    method VisitPad(pad: Handle) returns (entry: GraphPad)
      requires Valid()
      modifies this
      ensures Valid() && visited == old(visited) + [pad]
      ensures pad in padIds && entry == PadOf(pads, padIds, pad)
    {
      var id := PadId(pad);
      var info := pads(pad);
      entry := GraphPad(id, info.name, info.detail, info.kind.Ghost?);
      match info.direction {
        case Src =>
          if info.peer.Some? {
            rawLinks := rawLinks + [RawLink(pad, ResolvePeer(pads, info.peer.value), info.caps)];
          }
        case Sink =>
          if info.kind.Ghost? && info.kind.target.Some? {
            rawLinks := rawLinks + [RawLink(pad, info.kind.target.value, info.caps)];
          }
        case UnknownDirection =>
      }
      NumberingStep(visited, pad);
      RawLinksStep(pads, visited, pad);
      visited := visited + [pad];
    }

    /** Visits pad `i` of an element and lists it by its direction. */
    method ListPad(handles: seq<Handle>, i: nat, sinks: seq<GraphPad>, srcs: seq<GraphPad>, ghost start: seq<Handle>)
      returns (sinkPads: seq<GraphPad>, srcPads: seq<GraphPad>)
      requires Valid() && i < |handles| && visited == start + handles[..i]
      requires sinks == PadsOf(pads, padIds, handles, Sink, i) && srcs == PadsOf(pads, padIds, handles, Src, i)
      modifies this
      ensures Valid() && visited == start + handles[..i + 1]
      ensures sinkPads == PadsOf(pads, padIds, handles, Sink, i + 1)
      ensures srcPads == PadsOf(pads, padIds, handles, Src, i + 1)
    {
      ListedPadStep(pads, start, handles, i, Sink);
      ListedPadStep(pads, start, handles, i, Src);
      var entry := VisitPad(handles[i]);
      sinkPads, srcPads := sinks, srcs;
      match pads(handles[i]).direction {
        case Src => srcPads := srcPads + [entry];
        case Sink => sinkPads := sinkPads + [entry];
        case UnknownDirection =>
      }
    }

    method ListPads(handles: seq<Handle>) returns (sinkPads: seq<GraphPad>, srcPads: seq<GraphPad>)
      requires Valid()
      modifies this
      ensures Valid() && visited == old(visited) + handles
      ensures sinkPads == PadsOf(pads, padIds, handles, Sink, |handles|)
      ensures srcPads == PadsOf(pads, padIds, handles, Src, |handles|)
    {
      sinkPads, srcPads := [], [];
      ghost var start := visited;
      for i := 0 to |handles|
        invariant Valid() && visited == start + handles[..i]
        invariant sinkPads == PadsOf(pads, padIds, handles, Sink, i)
        invariant srcPads == PadsOf(pads, padIds, handles, Src, i)
      {
        sinkPads, srcPads := ListPad(handles, i, sinkPads, srcPads, start);
      }
    }

    /** The cell of an element without its children. */
    method ElementCell(e: Element) returns (cell: GraphCell)
      requires Valid()
      modifies this
      ensures Valid() && visited == old(visited) + e.pads
      ensures cell == OwnCell(pads, padIds, e)
    {
      var sinkPads, srcPads := ListPads(e.pads);
      cell := GraphCell(e.name, e.typeName, e.state, e.properties, sinkPads, srcPads, false, []);
    }

    method Cell(e: Element) returns (cell: GraphCell)
      requires Valid()
      modifies this
      ensures Valid() && visited == old(visited) + Visit(e) && cell == CellOf(pads, padIds, e)
      decreases e
    {
      if e.isBin {
        cell := BinCell(e);
      } else {
        cell := ElementCell(e);
        assert Visit(e) == e.pads;
      }
    }

    /** Walks the children from the last to the first and lists their cells. */
    method ListChildren(children: seq<Element>) returns (cells: seq<GraphCell>)
      requires Valid()
      modifies this
      ensures Valid() && visited == old(visited) + VisitFrom(children, 0)
      ensures cells == CellsFrom(pads, padIds, children, 0)
      decreases children, 0
    {
      cells := [];
      ghost var own := visited;
      for i := |children| downto 0
        invariant Valid() && visited == own + VisitFrom(children, i)
        invariant cells == CellsFrom(pads, padIds, children, i)
      {
        WalkedCellsKeep(pads, own, children, i);
        VisitOneMore(own, children, i);
        var child := Cell(children[i]);
        cells := cells + [child];
      }
    }

    /** The cell of a bin: its own pads, then the children in the reverse of their listing. */
    method BinCell(bin: Element) returns (cell: GraphCell)
      requires Valid() && bin.isBin
      modifies this
      ensures Valid() && visited == old(visited) + Visit(bin) && cell == CellOf(pads, padIds, bin)
      decreases bin, 0
    {
      cell := ElementCell(bin);
      var children := ListChildren(bin.children);
      OwnPadsKeep(pads, old(visited), bin, VisitFrom(bin.children, 0));
      VisitBin(old(visited), bin);
      cell := cell.(isBin := true, children := children);
    }
  }

  /** An element's cell before its children are added. */
  function OwnCell(pads: Pads, ids: Ids, e: Element): GraphCell {
    GraphCell(e.name, e.typeName, e.state, e.properties, PadsOf(pads, ids, e.pads, Sink, |e.pads|),
              PadsOf(pads, ids, e.pads, Src, |e.pads|), false, [])
  }

  lemma VisitOneMore(own: seq<Handle>, children: seq<Element>, i: nat)
    requires i < |children|
    ensures own + VisitFrom(children, i + 1) + Visit(children[i]) == own + VisitFrom(children, i)
  {
    AppendAssociates(own, VisitFrom(children, i + 1), Visit(children[i]));
  }

  /** Walking child `i` comes after walking the children after it, whose cells are still right then. */
  lemma WalkedCellsKeep(pads: Pads, own: seq<Handle>, children: seq<Element>, i: nat)
    requires i < |children|
    ensures CellsFrom(pads, Numbering(own + VisitFrom(children, i + 1) + Visit(children[i])), children, i + 1) ==
            CellsFrom(pads, Numbering(own + VisitFrom(children, i + 1)), children, i + 1)
  {
    var before := own + VisitFrom(children, i + 1);
    NumbersAreStable(before, Visit(children[i]));
    NumbersAreDistinct(before);
    AllInBoth(own, VisitFrom(children, i + 1), Numbering(before));
    CellsAreStable(pads, Numbering(before), Numbering(before + Visit(children[i])), children, i + 1);
  }

  lemma VisitBin(start: seq<Handle>, bin: Element)
    requires bin.isBin
    ensures start + bin.pads + VisitFrom(bin.children, 0) == start + Visit(bin)
  {
    AppendAssociates(start, bin.pads, VisitFrom(bin.children, 0));
  }

  lemma OwnPadsKeep(pads: Pads, start: seq<Handle>, bin: Element, more: seq<Handle>)
    ensures OwnCell(pads, Numbering(start + bin.pads + more), bin) == OwnCell(pads, Numbering(start + bin.pads), bin)
  {
    assert bin.pads[..|bin.pads|] == bin.pads;
    ListedPadsKeep(pads, start, bin.pads, |bin.pads|, more, Sink);
    ListedPadsKeep(pads, start, bin.pads, |bin.pads|, more, Src);
  }

  // ---- The numbers in a snapshot ----

  function IdsIn(pads: seq<GraphPad>): seq<nat> {
    seq(|pads|, i requires 0 <= i < |pads| => pads[i].id)
  }

  /** All pad numbers in a tree of cells. */
  function CellIds(cell: GraphCell): seq<nat>
    decreases cell
  {
    IdsIn(cell.sinkPads) + IdsIn(cell.srcPads) + CellsIds(cell.children)
  }

  function CellsIds(cells: seq<GraphCell>): seq<nat>
    decreases cells
  {
    if cells == [] then [] else CellsIds(cells[..|cells| - 1]) + CellIds(cells[|cells| - 1])
  }

  /** The pads of an element that are listed for a direction. */
  function OfDirection(pads: Pads, handles: seq<Handle>, direction: Direction, n: nat): seq<Handle>
    requires n <= |handles|
  {
    if n == 0 then []
    else
      var before := OfDirection(pads, handles, direction, n - 1);
      if pads(handles[n - 1]).direction == direction then before + [handles[n - 1]] else before
  }

  /** The pads whose numbers a cell lists, in the order of the listing. */
  function Listed(pads: Pads, e: Element): seq<Handle>
    decreases e
  {
    OfDirection(pads, e.pads, Sink, |e.pads|) + OfDirection(pads, e.pads, Src, |e.pads|) +
    if e.isBin then ListedFrom(pads, e.children, 0) else []
  }

  function ListedFrom(pads: Pads, children: seq<Element>, i: nat): seq<Handle>
    requires i <= |children|
    decreases children, |children| - i
  {
    if i == |children| then [] else ListedFrom(pads, children, i + 1) + Listed(pads, children[i])
  }

  function IdsOf(ids: Ids, handles: seq<Handle>): seq<nat> {
    seq(|handles|, i requires 0 <= i < |handles| => if handles[i] in ids then ids[handles[i]] else 0)
  }

  lemma IdsOfBoth(ids: Ids, a: seq<Handle>, b: seq<Handle>)
    ensures IdsOf(ids, a + b) == IdsOf(ids, a) + IdsOf(ids, b)
  {
  }

  lemma {:induction false} ListedPadIds(pads: Pads, ids: Ids, handles: seq<Handle>, direction: Direction, n: nat)
    requires n <= |handles|
    ensures IdsIn(PadsOf(pads, ids, handles, direction, n)) == IdsOf(ids, OfDirection(pads, handles, direction, n))
  {
    if n == 0 {
    } else {
      ListedPadIds(pads, ids, handles, direction, n - 1);
      var before, h := OfDirection(pads, handles, direction, n - 1), handles[n - 1];
      IdsOfBoth(ids, before, [h]);
      IdsInOneMore(PadsOf(pads, ids, handles, direction, n - 1), PadOf(pads, ids, h));
      assert IdsOf(ids, [h]) == [PadOf(pads, ids, h).id];
    }
  }

  lemma IdsInOneMore(pads: seq<GraphPad>, pad: GraphPad)
    ensures IdsIn(pads + [pad]) == IdsIn(pads) + [pad.id]
  {
  }

  lemma CellsIdsOneMore(cells: seq<GraphCell>, cell: GraphCell)
    ensures CellsIds(cells + [cell]) == CellsIds(cells) + CellIds(cell)
  {
    assert (cells + [cell])[..|cells|] == cells;
  }

  lemma CellListed(ids: Ids, cells: seq<GraphCell>, cell: GraphCell, before: seq<Handle>, handles: seq<Handle>)
    requires CellsIds(cells) == IdsOf(ids, before) && CellIds(cell) == IdsOf(ids, handles)
    ensures CellsIds(cells + [cell]) == IdsOf(ids, before + handles)
  {
    CellsIdsOneMore(cells, cell);
    IdsOfBoth(ids, before, handles);
  }

  /** The numbers in a cell are those of the listed pads. */
  lemma {:induction false} CellListsItsPads(pads: Pads, ids: Ids, e: Element)
    ensures CellIds(CellOf(pads, ids, e)) == IdsOf(ids, Listed(pads, e))
    decreases e
  {
    var sinks, srcs := OfDirection(pads, e.pads, Sink, |e.pads|), OfDirection(pads, e.pads, Src, |e.pads|);
    ListedPadIds(pads, ids, e.pads, Sink, |e.pads|);
    ListedPadIds(pads, ids, e.pads, Src, |e.pads|);
    IdsOfBoth(ids, sinks, srcs);
    if e.isBin {
      CellsListTheirPads(pads, ids, e.children, 0);
      IdsOfBoth(ids, sinks + srcs, ListedFrom(pads, e.children, 0));
    } else {
      IdsOfBoth(ids, sinks + srcs, []);
    }
  }

  lemma {:induction false} CellsListTheirPads(pads: Pads, ids: Ids, children: seq<Element>, i: nat)
    requires i <= |children|
    ensures CellsIds(CellsFrom(pads, ids, children, i)) == IdsOf(ids, ListedFrom(pads, children, i))
    decreases children, |children| - i
  {
    if i == |children| {
    } else {
      CellsListTheirPads(pads, ids, children, i + 1);
      CellListsItsPads(pads, ids, children[i]);
      CellListed(ids, CellsFrom(pads, ids, children, i + 1), CellOf(pads, ids, children[i]),
                 ListedFrom(pads, children, i + 1), Listed(pads, children[i]));
    }
  }

  lemma {:induction false} DirectionsDivide(pads: Pads, handles: seq<Handle>, n: nat)
    requires n <= |handles|
    ensures multiset(OfDirection(pads, handles, Sink, n)) + multiset(OfDirection(pads, handles, Src, n)) <=
            multiset(handles[..n])
  {
    if n == 0 {
    } else {
      DirectionsDivide(pads, handles, n - 1);
      assert handles[..n] == handles[..n - 1] + [handles[n - 1]];
    }
  }

  /** No pad is listed more often than it is visited. */
  lemma {:induction false} ListedIsVisited(pads: Pads, e: Element)
    ensures multiset(Listed(pads, e)) <= multiset(Visit(e))
    decreases e
  {
    DirectionsDivide(pads, e.pads, |e.pads|);
    assert e.pads[..|e.pads|] == e.pads;
    if e.isBin {
      ListedFromIsVisited(pads, e.children, 0);
      var own := OfDirection(pads, e.pads, Sink, |e.pads|) + OfDirection(pads, e.pads, Src, |e.pads|);
      FewerTogether(own, ListedFrom(pads, e.children, 0), e.pads, VisitFrom(e.children, 0));
    }
  }

  lemma FewerTogether(a: seq<Handle>, b: seq<Handle>, c: seq<Handle>, d: seq<Handle>)
    requires multiset(a) <= multiset(c) && multiset(b) <= multiset(d)
    ensures multiset(a + b) <= multiset(c + d)
  {
  }

  lemma {:induction false} ListedFromIsVisited(pads: Pads, children: seq<Element>, i: nat)
    requires i <= |children|
    ensures multiset(ListedFrom(pads, children, i)) <= multiset(VisitFrom(children, i))
    decreases children, |children| - i
  {
    if i == |children| {
    } else {
      ListedFromIsVisited(pads, children, i + 1);
      ListedIsVisited(pads, children[i]);
      FewerTogether(ListedFrom(pads, children, i + 1), Listed(pads, children[i]),
                    VisitFrom(children, i + 1), Visit(children[i]));
    }
  }

  lemma {:induction false} DistinctCounts(s: seq<nat>, x: nat)
    requires Distinct(s)
    ensures multiset(s)[x] <= 1
  {
    if s == [] {
    } else {
      var front, last := s[..|s| - 1], s[|s| - 1];
      assert s == front + [last];
      DistinctCounts(front, x);
      assert last !in front;
    }
  }

  lemma TwiceCounts(s: seq<nat>, i: nat, j: nat)
    requires i < j < |s| && s[i] == s[j]
    ensures multiset(s)[s[i]] >= 2
  {
    assert s == s[..j] + s[j..];
    assert s[..j][i] == s[i] && s[j..][0] == s[i];
    assert s[i] in multiset(s[..j]) && s[i] in multiset(s[j..]);
  }

  lemma FewerAreDistinct(s: seq<nat>, all: seq<nat>)
    requires multiset(s) <= multiset(all) && Distinct(all)
    ensures Distinct(s) && forall x :: x in s ==> x in all
  {
    forall i, j | 0 <= i < j < |s| ensures s[i] != s[j] {
      if s[i] == s[j] {
        TwiceCounts(s, i, j);
        DistinctCounts(all, s[i]);
      }
    }
    forall x | x in s ensures x in all {
      assert x in multiset(s);
      assert x in multiset(all);
    }
  }

  /** With one owner for each pad, the numbers in the whole tree of cells are pairwise distinct. */
  lemma SnapshotIdsAreDistinct(pads: Pads, bin: Element)
    requires Distinct(Visit(bin))
    ensures Distinct(CellIds(CellOf(pads, Numbering(Visit(bin)), bin)))
  {
    var ids, listed := Numbering(Visit(bin)), Listed(pads, bin);
    ListedIsVisited(pads, bin);
    FewerAreDistinct(listed, Visit(bin));
    CellListsItsPads(pads, ids, bin);
    NumbersAreDistinct(Visit(bin));
    DistinctNumbers(ids, listed);
  }

  lemma DistinctNumbers(ids: Ids, handles: seq<Handle>)
    requires Distinct(handles) && forall h :: h in handles ==> h in ids
    requires forall p, q :: p in ids && q in ids && ids[p] == ids[q] ==> p == q
    ensures Distinct(IdsOf(ids, handles))
  {
    forall i, j | 0 <= i < j < |handles| ensures IdsOf(ids, handles)[i] != IdsOf(ids, handles)[j] {
      assert handles[i] in handles && handles[j] in handles;
    }
  }

  /** Both ends of a link are numbers of visited pads. */
  ghost predicate EndsVisited(visited: seq<Handle>, link: GraphLink) {
    var ids := Numbering(visited);
    exists p, q :: p in ids && q in ids && p in visited && q in visited &&
                   link.srcPad == ids[p] && link.sinkPad == ids[q]
  }

  lemma LinkEndsAreVisited(pads: Pads, visited: seq<Handle>)
    ensures forall link :: link in Links(pads, visited) ==> EndsVisited(visited, link)
  {
    forall link | link in Links(pads, visited) ensures EndsVisited(visited, link) {
      LinksAreThoseOfVisitedPads(pads, visited, link);
      var p :| LinkFrom(pads, visited, p, link);
      var raw := LinkOf(pads, p).value;
      assert raw.src in visited && raw.sink in visited;
    }
  }

  // ---- Taking the snapshot ----

  method ResolveLinks(ids: Ids, rawLinks: seq<RawLink>) returns (links: seq<GraphLink>)
    ensures links == Resolve(ids, rawLinks)
  {
    links := [];
    for i := 0 to |rawLinks|
      invariant links == Resolve(ids, rawLinks[..i])
    {
      var raw := rawLinks[i];
      ResolveStep(ids, rawLinks[..i], raw);
      assert rawLinks[..i + 1] == rawLinks[..i] + [raw];
      if raw.src in ids && raw.sink in ids {
        links := links + [GraphLink(ids[raw.src], ids[raw.sink], raw.caps)];
      }
    }
    assert rawLinks[..|rawLinks|] == rawLinks;
  }

  // ---- The snapshot by the pipeline ----

  /** The pad that the data of a source pad goes to: its peer, or the ghost whose proxy the peer is. A ghost
      sink pad leads to its target. */
  function LeadsTo(pads: Pads, p: Handle): Option<Handle> {
    var info := pads(p);
    if info.direction == Src && info.peer.Some? then
      match pads(info.peer.value).kind
      case Proxy(Some(outer)) => Some(outer)
      case _ => info.peer
    else if info.direction == Sink && info.kind.Ghost? then
      info.kind.target
    else
      None
  }

  /** The link goes from pad `p` to the pad that it leads to, and has the caps of `p`. */
  ghost predicate LinksPad(pads: Pads, ids: Ids, p: Handle, link: GraphLink) {
    && p in ids && LeadsTo(pads, p).Some? && LeadsTo(pads, p).value in ids
    && link == GraphLink(ids[p], ids[LeadsTo(pads, p).value], pads(p).caps)
  }

  lemma LinkOfLeads(pads: Pads, p: Handle)
    ensures LinkOf(pads, p) ==
            if LeadsTo(pads, p).Some? then Some(RawLink(p, LeadsTo(pads, p).value, pads(p).caps)) else None
  {
  }

  lemma LinksAreThoseOfThePads(pads: Pads, visited: seq<Handle>, link: GraphLink)
    ensures link in Links(pads, visited) <==> exists p :: LinksPad(pads, Numbering(visited), p, link)
  {
    var ids := Numbering(visited);
    LinksAreThoseOfVisitedPads(pads, visited, link);
    NumbersAreDistinct(visited);
    if link in Links(pads, visited) {
      var p :| LinkFrom(pads, visited, p, link);
      LinkOfLeads(pads, p);
      assert LinksPad(pads, ids, p, link);
    }
    if p :| LinksPad(pads, ids, p, link) {
      LinkOfLeads(pads, p);
      assert LinkFrom(pads, visited, p, link);
    }
  }

  /** How many of the first `n` pads have a direction. */
  function CountOf(pads: Pads, handles: seq<Handle>, direction: Direction, n: nat): nat
    requires n <= |handles|
  {
    if n == 0 then 0
    else CountOf(pads, handles, direction, n - 1) + if pads(handles[n - 1]).direction == direction then 1 else 0
  }

  /** The entry of a numbered pad. */
  ghost predicate ShowsPad(pads: Pads, ids: Ids, p: Handle, entry: GraphPad) {
    && p in ids && entry.id == ids[p] && entry.name == pads(p).name && entry.detail == pads(p).detail
    && (entry.ghostPad <==> pads(p).kind.Ghost?)
  }

  /** All pads of a direction, in the order of the element, and no others. */
  ghost predicate ShowsPads(pads: Pads, ids: Ids, handles: seq<Handle>, direction: Direction, n: nat,
                            entries: seq<GraphPad>)
    requires n <= |handles|
  {
    && |entries| == CountOf(pads, handles, direction, n)
    && forall i :: 0 <= i < n && pads(handles[i]).direction == direction ==>
         && CountOf(pads, handles, direction, i) < |entries|
         && ShowsPad(pads, ids, handles[i], entries[CountOf(pads, handles, direction, i)])
  }

  /** The cell shows the element and, if it is a bin, everything below it, the oldest child first. */
  ghost predicate ShowsElement(pads: Pads, ids: Ids, e: Element, cell: GraphCell)
    decreases e
  {
    && cell.name == e.name && cell.typeName == e.typeName && cell.state == e.state && cell.properties == e.properties
    && ShowsPads(pads, ids, e.pads, Sink, |e.pads|, cell.sinkPads)
    && ShowsPads(pads, ids, e.pads, Src, |e.pads|, cell.srcPads)
    && (cell.isBin <==> e.isBin)
    && |cell.children| == (if e.isBin then |e.children| else 0)
    && forall i :: 0 <= i < |cell.children| ==>
         ShowsElement(pads, ids, e.children[|e.children| - 1 - i], cell.children[i])
  }

  lemma {:induction false} PadsAreShown(pads: Pads, ids: Ids, handles: seq<Handle>, direction: Direction, n: nat)
    requires n <= |handles| && AllIn(handles, ids)
    ensures ShowsPads(pads, ids, handles, direction, n, PadsOf(pads, ids, handles, direction, n))
  {
    if n == 0 {
    } else {
      PadsAreShown(pads, ids, handles, direction, n - 1);
      assert handles[n - 1] in handles;
      var before, after := PadsOf(pads, ids, handles, direction, n - 1), PadsOf(pads, ids, handles, direction, n);
      forall i | 0 <= i < n && pads(handles[i]).direction == direction
        ensures CountOf(pads, handles, direction, i) < |after|
        ensures ShowsPad(pads, ids, handles[i], after[CountOf(pads, handles, direction, i)])
      {
        if i < n - 1 {
          assert after[CountOf(pads, handles, direction, i)] == before[CountOf(pads, handles, direction, i)];
        }
      }
    }
  }

  lemma {:induction false} ElementIsShown(pads: Pads, ids: Ids, e: Element)
    requires AllIn(Visit(e), ids)
    ensures ShowsElement(pads, ids, e, CellOf(pads, ids, e))
    decreases e
  {
    AllInBoth(e.pads, if e.isBin then VisitFrom(e.children, 0) else [], ids);
    PadsAreShown(pads, ids, e.pads, Sink, |e.pads|);
    PadsAreShown(pads, ids, e.pads, Src, |e.pads|);
    if e.isBin {
      ChildrenAreShown(pads, ids, e.children, 0);
    }
  }

  lemma {:induction false} ChildrenAreShown(pads: Pads, ids: Ids, children: seq<Element>, i: nat)
    requires i <= |children| && AllIn(VisitFrom(children, i), ids)
    ensures var cells := CellsFrom(pads, ids, children, i);
            && |cells| == |children| - i
            && forall k :: 0 <= k < |cells| ==> ShowsElement(pads, ids, children[|children| - 1 - k], cells[k])
    decreases children, |children| - i
  {
    if i == |children| {
    } else {
      AllInBoth(VisitFrom(children, i + 1), Visit(children[i]), ids);
      ChildrenAreShown(pads, ids, children, i + 1);
      ElementIsShown(pads, ids, children[i]);
      var older, cell := CellsFrom(pads, ids, children, i + 1), CellOf(pads, ids, children[i]);
      assert CellsFrom(pads, ids, children, i) == older + [cell];
      forall k | 0 <= k <= |older|
        ensures ShowsElement(pads, ids, children[|children| - 1 - k], (older + [cell])[k])
      {
        assert k < |older| ==> (older + [cell])[k] == older[k];
      }
    }
  }

  // ---- The order of the numbers ----

  /** The pads of an element and, if it is a bin, of everything below it. */
  ghost function PadsBelow(e: Element): set<Handle>
    decreases e
  {
    Members(e.pads) +
    if e.isBin then set i, p | 0 <= i < |e.children| && p in PadsBelow(e.children[i]) :: p else {}
  }

  ghost predicate Lower(ids: Ids, ps: set<Handle>, qs: set<Handle>) {
    forall p, q :: p in ps && q in qs ==> p in ids && q in ids && ids[p] < ids[q]
  }

  /** The pads of an element are numbered in their order, before those of its children, and older children,
      which are listed later, come first. */
  ghost predicate InWalkOrder(ids: Ids, e: Element)
    decreases e
  {
    && OwnInOrder(ids, e.pads)
    && (e.isBin ==>
          && OwnBeforeChildren(ids, e) && OlderFirst(ids, e.children, 0)
          && forall i :: 0 <= i < |e.children| ==> InWalkOrder(ids, e.children[i]))
  }

  ghost predicate OwnInOrder(ids: Ids, handles: seq<Handle>) {
    forall i, j :: 0 <= i < j < |handles| ==> Lower(ids, {handles[i]}, {handles[j]})
  }

  ghost predicate OwnBeforeChildren(ids: Ids, e: Element) {
    forall i :: 0 <= i < |e.children| ==> Lower(ids, Members(e.pads), PadsBelow(e.children[i]))
  }

  ghost predicate OlderFirst(ids: Ids, children: seq<Element>, from: nat) {
    forall i, j :: from <= i < j < |children| ==> Lower(ids, PadsBelow(children[j]), PadsBelow(children[i]))
  }

  /** The pads have the numbers from `from + 1` on. */
  ghost predicate Consecutive(ids: Ids, s: seq<Handle>, from: nat) {
    forall k :: 0 <= k < |s| ==> s[k] in ids && ids[s[k]] == from + k + 1
  }

  lemma ConsecutiveBoth(ids: Ids, a: seq<Handle>, b: seq<Handle>, from: nat)
    requires Consecutive(ids, a + b, from)
    ensures Consecutive(ids, a, from) && Consecutive(ids, b, from + |a|)
  {
    forall k | 0 <= k < |a| ensures a[k] in ids && ids[a[k]] == from + k + 1 {
      assert (a + b)[k] == a[k];
    }
    forall k | 0 <= k < |b| ensures b[k] in ids && ids[b[k]] == from + |a| + k + 1 {
      assert (a + b)[|a| + k] == b[k];
    }
  }

  ghost function Members(s: seq<Handle>): set<Handle> {
    set p | p in s
  }

  lemma LowerBefore(ids: Ids, a: seq<Handle>, b: seq<Handle>, from: nat)
    requires Consecutive(ids, a + b, from)
    ensures Lower(ids, Members(a), Members(b))
  {
    ConsecutiveBoth(ids, a, b, from);
  }

  lemma {:induction false} VisitReachesAll(e: Element)
    ensures forall p :: p in Visit(e) <==> p in PadsBelow(e)
    decreases e
  {
    if e.isBin {
      VisitFromReachesAll(e.children, 0);
    }
  }

  lemma {:induction false} VisitFromReachesAll(children: seq<Element>, i: nat)
    requires i <= |children|
    ensures forall p :: p in VisitFrom(children, i) <==> exists a :: i <= a < |children| && p in PadsBelow(children[a])
    decreases children, |children| - i
  {
    if i == |children| {
    } else {
      VisitFromReachesAll(children, i + 1);
      VisitReachesAll(children[i]);
    }
  }

  lemma LowerPart(ids: Ids, ps: set<Handle>, ps': set<Handle>, qs: set<Handle>, qs': set<Handle>)
    requires Lower(ids, ps, qs) && ps' <= ps && qs' <= qs
    ensures Lower(ids, ps', qs')
  {
  }

  lemma {:induction false} WalkOrder(ids: Ids, e: Element, from: nat)
    requires Consecutive(ids, Visit(e), from)
    ensures InWalkOrder(ids, e)
    decreases e
  {
    var below := if e.isBin then VisitFrom(e.children, 0) else [];
    ConsecutiveBoth(ids, e.pads, below, from);
    OwnPadsInOrder(ids, e.pads, from);
    if e.isBin {
      ChildrenInOrder(ids, e.children, 0, from + |e.pads|);
      OwnPadsFirst(ids, e, from);
    }
  }

  lemma OwnPadsFirst(ids: Ids, e: Element, from: nat)
    requires e.isBin && Consecutive(ids, Visit(e), from)
    ensures OwnBeforeChildren(ids, e)
  {
    var below := VisitFrom(e.children, 0);
    LowerBefore(ids, e.pads, below, from);
    VisitFromReachesAll(e.children, 0);
    forall i | 0 <= i < |e.children|
      ensures Lower(ids, Members(e.pads), PadsBelow(e.children[i]))
    {
      LowerPart(ids, Members(e.pads), Members(e.pads), Members(below), PadsBelow(e.children[i]));
    }
  }

  lemma OwnPadsInOrder(ids: Ids, handles: seq<Handle>, from: nat)
    requires Consecutive(ids, handles, from)
    ensures OwnInOrder(ids, handles)
  {
  }

  lemma {:induction false} ChildrenInOrder(ids: Ids, children: seq<Element>, i: nat, from: nat)
    requires i <= |children| && Consecutive(ids, VisitFrom(children, i), from)
    ensures forall a :: i <= a < |children| ==> InWalkOrder(ids, children[a])
    ensures OlderFirst(ids, children, i)
    decreases children, |children| - i
  {
    if i == |children| {
    } else {
      var older := VisitFrom(children, i + 1);
      ConsecutiveBoth(ids, older, Visit(children[i]), from);
      ChildrenInOrder(ids, children, i + 1, from);
      WalkOrder(ids, children[i], from + |older|);
      LowerBefore(ids, older, Visit(children[i]), from);
      OneOlderFirst(ids, children, i);
    }
  }

  lemma OneOlderFirst(ids: Ids, children: seq<Element>, i: nat)
    requires i < |children| && OlderFirst(ids, children, i + 1)
    requires Lower(ids, Members(VisitFrom(children, i + 1)), Members(Visit(children[i])))
    ensures OlderFirst(ids, children, i)
  {
    VisitReachesAll(children[i]);
    VisitFromReachesAll(children, i + 1);
    var older, own := Members(VisitFrom(children, i + 1)), Members(Visit(children[i]));
    forall b | i < b < |children| ensures Lower(ids, PadsBelow(children[b]), PadsBelow(children[i])) {
      LowerPart(ids, older, PadsBelow(children[b]), own, PadsBelow(children[i]));
    }
  }

  /** The numbers of a whole walk. */
  ghost predicate NumbersTheWalk(bin: Element, ids: Ids) {
    && (forall p :: p in ids <==> p in PadsBelow(bin))
    && (forall p :: p in ids ==> 1 <= ids[p] <= |ids|)
    && (forall p, q :: p in ids && q in ids && ids[p] == ids[q] ==> p == q)
    && (Distinct(Visit(bin)) ==> InWalkOrder(ids, bin))
  }

  lemma WalkIsNumbered(bin: Element)
    ensures NumbersTheWalk(bin, Numbering(Visit(bin)))
  {
    var ids := Numbering(Visit(bin));
    NumbersAreDistinct(Visit(bin));
    VisitReachesAll(bin);
    if Distinct(Visit(bin)) {
      NumbersFollowTheWalk(Visit(bin));
      WalkOrder(ids, bin, 0);
    }
  }

  /** The cells show everything from the bin down under one numbering, and the links are exactly those of the
      numbered pads to numbered pads. */
  ghost predicate Shows(pads: Pads, bin: Element, r: GraphSnapshot) {
    exists ids ::
      && NumbersTheWalk(bin, ids) && ShowsElement(pads, ids, bin, r.root)
      && LinksAllPads(pads, ids, r.links)
  }

  ghost predicate LinksAllPads(pads: Pads, ids: Ids, links: seq<GraphLink>) {
    forall link :: link in links <==> exists p :: LinksPad(pads, ids, p, link)
  }

  lemma ShowsThePipeline(pads: Pads, bin: Element)
    ensures Shows(pads, bin, GraphSnapshot(CellOf(pads, Numbering(Visit(bin)), bin), Links(pads, Visit(bin))))
  {
    var ids := Numbering(Visit(bin));
    WalkIsNumbered(bin);
    VisitedIsNumbered(Visit(bin));
    ElementIsShown(pads, ids, bin);
    AllPadsLinked(pads, Visit(bin));
  }

  lemma VisitedIsNumbered(visited: seq<Handle>)
    ensures AllIn(visited, Numbering(visited))
  {
    NumbersAreDistinct(visited);
  }

  lemma AllPadsLinked(pads: Pads, visited: seq<Handle>)
    ensures LinksAllPads(pads, Numbering(visited), Links(pads, visited))
  {
    forall link
      ensures link in Links(pads, visited) <==> exists p :: LinksPad(pads, Numbering(visited), p, link)
    {
      LinksAreThoseOfThePads(pads, visited, link);
    }
  }

  /** Links are resolved once every pad has been visited, so a link may lead to a pad that was met later. */
  method Snapshot(pads: Pads, bin: Element) returns (r: GraphSnapshot)
    requires bin.isBin
    ensures r.root == CellOf(pads, Numbering(Visit(bin)), bin)
    ensures r.links == Links(pads, Visit(bin))
    ensures Shows(pads, bin, r)
    ensures Distinct(Visit(bin)) ==> Distinct(CellIds(r.root)) && SourcesAscend(r.links, |Visit(bin)|)
    ensures forall link :: link in r.links ==> EndsVisited(Visit(bin), link)
    ensures NoProxies(pads, Visit(bin)) ==>
              (|r.links| == |RawLinks(pads, Visit(bin))| <==>
                forall p :: p in Visit(bin) ==> LeadsInside(pads, Visit(bin), p))
  {
    ShowsThePipeline(pads, bin);
    var walker := new Walker(pads);
    var root := walker.BinCell(bin);
    assert walker.visited == [] + Visit(bin) == Visit(bin);
    var links := ResolveLinks(walker.padIds, walker.rawLinks);
    r := GraphSnapshot(root, links);
    if Distinct(Visit(bin)) {
      SnapshotIdsAreDistinct(pads, bin);
      LinksComeInOrder(pads, Visit(bin));
    }
    LinkEndsAreVisited(pads, Visit(bin));
    if NoProxies(pads, Visit(bin)) {
      NothingIsDroppedIffAllLeadInside(pads, Visit(bin));
    }
  }
}
