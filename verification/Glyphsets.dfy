/** Glyph sets: client ids that alias host glyph sets, and the count that decides when a host one is freed. */
module Glyphsets {
  import opened Wrappers

  type Id = nat
  type Client = nat
  type Host = nat

  datatype Glyphset = Glyphset(client: Client, host: Host)

  type Table = map<Id, Glyphset>
  type Counts = map<Host, nat>

  // ----- The operations on values -----

  function Acquire(counts: Counts, h: Host): Counts {
    counts[h := (if h in counts then counts[h] else 0) + 1]
  }

  /** Drops one reference; tells whether it was the last. */
  function Release(counts: Counts, h: Host): (Counts, bool) {
    if h !in counts then (counts, true)
    else if counts[h] > 1 then (counts[h := counts[h] - 1], false)
    else (counts - {h}, true)
  }

  /** Drops references one after the other; lists the hosts whose last one went, as it went. */
  function ReleaseAll(counts: Counts, hs: seq<Host>): (Counts, seq<Host>)
    decreases |hs|
  {
    if hs == [] then (counts, [])
    else
      var (c, last) := Release(counts, hs[0]);
      var (d, freed) := ReleaseAll(c, hs[1..]);
      (d, (if last then [hs[0]] else []) + freed)
  }

  datatype State = State(glyphsets: Table, counts: Counts)

  function Create(s: State, id: Id, g: Glyphset): State {
    var counts := if id in s.glyphsets then Release(s.counts, s.glyphsets[id].host).0 else s.counts;
    State(s.glyphsets[id := g], Acquire(counts, g.host))
  }

  function Free(s: State, id: Id): (State, Option<Glyphset>) {
    if id !in s.glyphsets then (s, None)
    else
      var (counts, last) := Release(s.counts, s.glyphsets[id].host);
      (State(s.glyphsets - {id}, counts), if last then Some(s.glyphsets[id]) else None)
  }

  function Reference(s: State, client: Client, newId: Id, existing: Id): (State, bool) {
    if existing !in s.glyphsets then (s, false)
    else (Create(s, newId, Glyphset(client, s.glyphsets[existing].host)), true)
  }

  // ----- How many aliases a host glyph set has -----

  function Aliases(g: Table, h: Host): set<Id> {
    set id | id in g && g[id].host == h
  }

  /** Every host is counted by its aliases and the references still to be dropped, and a host with none
      is not in the table. */
  ghost predicate Counted(counts: Counts, g: Table, pending: multiset<Host>) {
    forall h: Host :: CountedAt(counts, g, pending, h)
  }

  ghost predicate CountedAt(counts: Counts, g: Table, pending: multiset<Host>, h: Host) {
    (if h in counts then counts[h] else 0) == |Aliases(g, h)| + pending[h]
    && (h in counts ==> counts[h] > 0)
  }

  ghost predicate Inv(s: State) {
    Counted(s.counts, s.glyphsets, multiset{})
  }

  ghost predicate Live(s: State, h: Host) {
    Aliases(s.glyphsets, h) != {}
  }

  lemma AliasesWithout(g: Table, id: Id, h: Host)
    requires id in g
    ensures |Aliases(g, h)| == |Aliases(g - {id}, h)| + if g[id].host == h then 1 else 0
  {
    assert Aliases(g - {id}, h) == Aliases(g, h) - {id};
  }

  lemma AliasesInsert(g: Table, id: Id, a: Glyphset, h: Host)
    requires id !in g
    ensures |Aliases(g[id := a], h)| == |Aliases(g, h)| + if a.host == h then 1 else 0
  {
    AliasesWithout(g[id := a], id, h);
    assert g[id := a] - {id} == g;
  }

  lemma ReleaseCounts(counts: Counts, g: Table, pending: multiset<Host>, h: Host)
    requires Counted(counts, g, pending + multiset{h})
    ensures Counted(Release(counts, h).0, g, pending)
    ensures Release(counts, h).1 <==> Aliases(g, h) == {} && h !in pending
  {
    hide Aliases;
    assert CountedAt(counts, g, pending + multiset{h}, h);
    forall k: Host ensures CountedAt(Release(counts, h).0, g, pending, k) {
      assert CountedAt(counts, g, pending + multiset{h}, k);
    }
  }

  /** Dropping several references reports a host once, and only when no reference is left. */
  lemma {:induction false} ReleaseAllCounts(counts: Counts, g: Table, hs: seq<Host>)
    requires Counted(counts, g, multiset(hs))
    ensures Counted(ReleaseAll(counts, hs).0, g, multiset{})
    ensures forall h: Host ::
      multiset(ReleaseAll(counts, hs).1)[h] == if h in hs && Aliases(g, h) == {} then 1 else 0
    decreases |hs|
  {
    hide Counted, Release, Aliases;
    if hs != [] {
      assert hs == [hs[0]] + hs[1..];
      assert multiset(hs) == multiset(hs[1..]) + multiset{hs[0]};
      ReleaseCounts(counts, g, multiset(hs[1..]), hs[0]);
      ReleaseAllCounts(Release(counts, hs[0]).0, g, hs[1..]);
    } else {
      assert multiset(hs) == multiset{};
    }
  }

  // ----- One client going away -----

  /** The ids of a client's glyph sets, in the order the hash table gives them. */
  ghost predicate OrderOf(g: Table, client: Client, order: seq<Id>) {
    && (forall i, j :: 0 <= i < j < |order| ==> order[i] != order[j])
    && (forall id :: id in order <==> id in g && g[id].client == client)
  }

  function HostsOf(g: Table, order: seq<Id>): seq<Host>
    requires forall id :: id in order ==> id in g
  {
    if order == [] then [] else HostsOf(g, order[..|order| - 1]) + [g[order[|order| - 1]].host]
  }

  function Ids(order: seq<Id>): set<Id> {
    set id | id in order
  }

  lemma {:induction false} ExtractedHosts(g: Table, order: seq<Id>, h: Host)
    requires forall id :: id in order ==> id in g
    requires forall i, j :: 0 <= i < j < |order| ==> order[i] != order[j]
    ensures |Aliases(g, h)| == |Aliases(g - Ids(order), h)| + multiset(HostsOf(g, order))[h]
    decreases |order|
  {
    if order == [] {
      assert g - Ids(order) == g;
    } else {
      var n := |order| - 1;
      ExtractedHosts(g, order[..n], h);
      AliasesWithout(g - Ids(order[..n]), order[n], h);
      assert order == order[..n] + [order[n]];
      assert Ids(order) == Ids(order[..n]) + {order[n]};
      assert g - Ids(order[..n]) - {order[n]} == g - Ids(order);
    }
  }

  /** `remove_client`, as far as glyph sets go. */
  function RemoveClientFrom(s: State, client: Client, order: seq<Id>): (State, seq<Host>)
    requires forall id :: id in order ==> id in s.glyphsets
  {
    var (counts, freed) := ReleaseAll(s.counts, HostsOf(s.glyphsets, order));
    (State(s.glyphsets - Ids(order), counts), freed)
  }

  // ----- Requests -----

  datatype Request =
    | CreateRequest(id: Id, glyphset: Glyphset)
    | ReferenceRequest(client: Client, newId: Id, existing: Id)
    | FreeRequest(target: Id)
    | ClientGone(gone: Client, order: seq<Id>)

  ghost predicate Allowed(s: State, r: Request) {
    r.ClientGone? ==> OrderOf(s.glyphsets, r.gone, r.order)
  }

  /** The new state, and the host glyph sets the caller is told to free. */
  function Serve(s: State, r: Request): (State, seq<Host>)
    requires r.ClientGone? ==> forall id :: id in r.order ==> id in s.glyphsets
  {
    match r
    case CreateRequest(id, g) => (Create(s, id, g), [])
    case ReferenceRequest(client, newId, existing) => (Reference(s, client, newId, existing).0, [])
    case FreeRequest(id) =>
      var (t, freed) := Free(s, id);
      (t, if freed.Some? then [freed.value.host] else [])
    case ClientGone(client, order) => RemoveClientFrom(s, client, order)
  }

  /** Which ids name what afterwards. A new alias belongs to the client that asked for it and names the host glyph
      set of the one it was made from; with a client exactly its own ids go. */
  lemma ServeTable(s: State, r: Request)
    requires Allowed(s, r)
    ensures var g, h := s.glyphsets, Serve(s, r).0.glyphsets;
            && (r.CreateRequest? ==> r.id in h && h[r.id] == r.glyphset && h - {r.id} == g - {r.id})
            && (r.ReferenceRequest? ==>
                  if r.existing in g then
                    && r.newId in h && h[r.newId].client == r.client && h[r.newId].host == g[r.existing].host
                    && h - {r.newId} == g - {r.newId}
                  else h == g)
            && (r.FreeRequest? ==> h == g - {r.target})
            && (r.ClientGone? ==>
                  && (forall id :: id in h <==> id in g && g[id].client != r.gone)
                  && (forall id :: id in h ==> h[id] == g[id]))
  {
    hide Release, ReleaseAll, Acquire;
  }

  /** The request gives `id`, the last alias of `h`, to another host: nobody is told that `h` is unused. */
  predicate CreateLoses(s: State, id: Id, newHost: Host, h: Host) {
    id in s.glyphsets && s.glyphsets[id].host == h && h != newHost && h in s.counts && s.counts[h] == 1
  }

  predicate Loses(s: State, r: Request, h: Host) {
    match r
    case CreateRequest(id, g) => CreateLoses(s, id, g.host, h)
    case ReferenceRequest(client, newId, existing) =>
      existing in s.glyphsets && CreateLoses(s, newId, s.glyphsets[existing].host, h)
    case _ => false
  }

  /** The second of two requests of one client, from the empty table on: the host glyph set `h` is lost. */
  lemma ReusedIdLoses(client: Client, id: Id, h: Host, other: Host)
    requires h != other
    ensures var s := Serve(State(map[], map[]), CreateRequest(id, Glyphset(client, h))).0;
            var r := CreateRequest(id, Glyphset(client, other));
            Loses(s, r, h) && Aliases(Serve(s, r).0.glyphsets, h) == {} && Serve(s, r).1 == []
  {
  }

  lemma Detach(counts: Counts, g: Table, id: Id)
    requires Counted(counts, g, multiset{}) && id in g
    ensures Counted(counts, g - {id}, multiset{} + multiset{g[id].host})
  {
    forall h: Host ensures CountedAt(counts, g - {id}, multiset{} + multiset{g[id].host}, h) {
      AliasesWithout(g, id, h);
      assert CountedAt(counts, g, multiset{}, h);
    }
  }

  lemma Attach(counts: Counts, g: Table, id: Id, a: Glyphset)
    requires Counted(counts, g, multiset{}) && id !in g
    ensures Counted(Acquire(counts, a.host), g[id := a], multiset{})
  {
    var more := g[id := a];
    forall h: Host ensures CountedAt(Acquire(counts, a.host), more, multiset{}, h) {
      AliasesInsert(g, id, a, h);
      assert CountedAt(counts, g, multiset{}, h);
    }
  }

  lemma CreateCounts(s: State, id: Id, a: Glyphset)
    requires Inv(s)
    ensures Inv(Create(s, id, a))
    ensures forall h: Host :: (Live(s, h) && !Live(Create(s, id, a), h)) <==> CreateLoses(s, id, a.host, h)
  {
    var g: Table, c: Counts := s.glyphsets, s.counts;
    assert id !in g ==> g - {id} == g;
    if id in g {
      Detach(c, g, id);
      ReleaseCounts(c, g - {id}, multiset{}, g[id].host);
      c := Release(c, g[id].host).0;
    }
    Attach(c, g - {id}, id, a);
    assert (g - {id})[id := a] == g[id := a];
    forall h: Host ensures (Live(s, h) && !Live(Create(s, id, a), h)) <==> CreateLoses(s, id, a.host, h) {
      AliasesInsert(g - {id}, id, a, h);
      if id in g {
        AliasesWithout(g, id, h);
      }
      assert CountedAt(s.counts, g, multiset{}, h);
    }
  }

  lemma FreeCounts(s: State, id: Id)
    requires Inv(s) && id in s.glyphsets
    ensures Inv(Free(s, id).0)
    ensures Free(s, id).1 == if Live(Free(s, id).0, s.glyphsets[id].host) then None else Some(s.glyphsets[id])
    ensures forall h: Host :: Live(s, h) && !Live(Free(s, id).0, h) ==> h == s.glyphsets[id].host
  {
    var g: Table := s.glyphsets;
    Detach(s.counts, g, id);
    ReleaseCounts(s.counts, g - {id}, multiset{}, g[id].host);
    forall h: Host | Live(s, h) && !Live(Free(s, id).0, h) ensures h == g[id].host {
      AliasesWithout(g, id, h);
    }
  }

  lemma RemoveClientCounts(s: State, client: Client, order: seq<Id>)
    requires Inv(s) && OrderOf(s.glyphsets, client, order)
    ensures Inv(RemoveClientFrom(s, client, order).0)
    ensures forall h: Host :: multiset(RemoveClientFrom(s, client, order).1)[h]
                           == if Live(s, h) && !Live(RemoveClientFrom(s, client, order).0, h) then 1 else 0
  {
    var g: Table, hs := s.glyphsets, HostsOf(s.glyphsets, order);
    var rest := g - Ids(order);
    forall h: Host ensures CountedAt(s.counts, rest, multiset(hs), h) {
      ExtractedHosts(g, order, h);
      assert CountedAt(s.counts, g, multiset{}, h);
    }
    ReleaseAllCounts(s.counts, rest, hs);
    forall h: Host ensures h in hs && Aliases(rest, h) == {} <==> Live(s, h) && Aliases(rest, h) == {} {
      ExtractedHosts(g, order, h);
    }
  }

  /** After every request, each host's count is the number of its aliases, and the caller is told to free
      exactly the hosts that have just lost their last alias, once each, but for those that a create over
      an existing id loses. */
  lemma ServeCounts(s: State, r: Request)
    requires Inv(s) && Allowed(s, r)
    ensures Inv(Serve(s, r).0)
    ensures forall h: Host :: multiset(Serve(s, r).1)[h]
                           == if Live(s, h) && !Live(Serve(s, r).0, h) && !Loses(s, r, h) then 1 else 0
    ensures forall h: Host :: Loses(s, r, h) ==> Live(s, h) && !Live(Serve(s, r).0, h)
  {
    hide Inv, Live, RemoveClientFrom, Free, Create, CreateLoses;
    match r {
      case CreateRequest(id, g) => CreateCounts(s, id, g);
      case ReferenceRequest(client, newId, existing) =>
        if existing in s.glyphsets {
          CreateCounts(s, newId, Glyphset(client, s.glyphsets[existing].host));
        }
      case FreeRequest(id) => FreeServed(s, id);
      case ClientGone(client, order) => RemoveClientCounts(s, client, order);
    }
  }

  lemma FreeServed(s: State, id: Id)
    requires Inv(s)
    ensures var (t, freed) := Free(s, id);
            && Inv(t)
            && forall h: Host :: multiset(if freed.Some? then [freed.value.host] else [])[h]
                              == if Live(s, h) && !Live(t, h) then 1 else 0
  {
    if id in s.glyphsets {
      FreeCounts(s, id);
      assert id in Aliases(s.glyphsets, s.glyphsets[id].host);
    }
  }

  // ----- Whole runs -----

  ghost predicate AllowedRun(s: State, rs: seq<Request>)
    decreases |rs|
  {
    rs == [] || (Allowed(s, rs[0]) && AllowedRun(Serve(s, rs[0]).0, rs[1..]))
  }

  ghost function Run(s: State, rs: seq<Request>): State
    requires AllowedRun(s, rs)
    decreases |rs|
  {
    if rs == [] then s else Run(Serve(s, rs[0]).0, rs[1..])
  }

  /** How often a host glyph set came into use. */
  ghost function Births(s: State, rs: seq<Request>, h: Host): nat
    requires AllowedRun(s, rs)
    decreases |rs|
  {
    if rs == [] then 0
    else
      var t := Serve(s, rs[0]).0;
      (if !Live(s, h) && Live(t, h) then 1 else 0) + Births(t, rs[1..], h)
  }

  /** How often the caller was told to free it. */
  ghost function Reports(s: State, rs: seq<Request>, h: Host): nat
    requires AllowedRun(s, rs)
    decreases |rs|
  {
    if rs == [] then 0
    else
      var (t, freed) := Serve(s, rs[0]);
      multiset(freed)[h] + Reports(t, rs[1..], h)
  }

  /** How often it went out of use without a report. */
  ghost function Losses(s: State, rs: seq<Request>, h: Host): nat
    requires AllowedRun(s, rs)
    decreases |rs|
  {
    if rs == [] then 0
    else (if Loses(s, rs[0], h) then 1 else 0) + Losses(Serve(s, rs[0]).0, rs[1..], h)
  }

  ghost function Alive(s: State, h: Host): nat {
    if Live(s, h) then 1 else 0
  }

  /** Over any run: every use of a host glyph set that began has been reported over, has been lost, or
      goes on; and the counts are right at the end. */
  lemma {:induction false} RunBalances(s: State, rs: seq<Request>, h: Host)
    requires Inv(s) && AllowedRun(s, rs)
    ensures Inv(Run(s, rs))
    ensures Alive(s, h) + Births(s, rs, h) == Reports(s, rs, h) + Losses(s, rs, h) + Alive(Run(s, rs), h)
    decreases |rs|
  {
    hide Inv, Live, Loses, Serve;
    if rs == [] {
    } else {
      ServeCounts(s, rs[0]);
      RunBalances(Serve(s, rs[0]).0, rs[1..], h);
    }
  }

  /** Nothing is lost when creates and references use fresh ids. */
  ghost predicate FreshIds(s: State, rs: seq<Request>)
    requires AllowedRun(s, rs)
    decreases |rs|
  {
    rs != [] ==>
      && (rs[0].CreateRequest? ==> rs[0].id !in s.glyphsets)
      && (rs[0].ReferenceRequest? ==> rs[0].newId !in s.glyphsets)
      && FreshIds(Serve(s, rs[0]).0, rs[1..])
  }

  lemma {:induction false} FreshRunsLoseNothing(s: State, rs: seq<Request>, h: Host)
    requires AllowedRun(s, rs) && FreshIds(s, rs)
    ensures Losses(s, rs, h) == 0
    decreases |rs|
  {
    if rs == [] {
    } else {
      FreshRunsLoseNothing(Serve(s, rs[0]).0, rs[1..], h);
    }
  }

  lemma NothingIsCounted()
    ensures Inv(State(map[], map[]))
  {
    forall h: Host ensures CountedAt(map[], map[], multiset{}, h) {
    }
  }

  /** From an empty table on, with fresh ids: a host glyph set is reported exactly as often as a use of it
      has ended, and the counts are right. */
  lemma FreshStartReportsAll(rs: seq<Request>, h: Host)
    requires AllowedRun(State(map[], map[]), rs) && FreshIds(State(map[], map[]), rs)
    ensures var empty := State(map[], map[]);
            && Inv(Run(empty, rs))
            && Births(empty, rs, h) == Reports(empty, rs, h) + Alive(Run(empty, rs), h)
  {
    NothingIsCounted();
    RunBalances(State(map[], map[]), rs, h);
    FreshRunsLoseNothing(State(map[], map[]), rs, h);
  }

  // ----- The resource table -----

  class GlyphsetTable {
    var glyphsets: Table
    var counts: Counts

    function Value(): State reads this {
      State(glyphsets, counts)
    }

    constructor ()
      ensures Value() == State(map[], map[])
    {
      glyphsets, counts := map[], map[];
    }

    method ReleaseHost(h: Host) returns (last: bool)
      modifies this`counts
      ensures (counts, last) == Release(old(counts), h)
    {
      if h !in counts {
        return true;
      }
      if counts[h] > 1 {
        counts := counts[h := counts[h] - 1];
        return false;
      }
      counts := counts - {h};
      return true;
    }

    method CreateGlyphset(id: Id, g: Glyphset)
      modifies this
      ensures Value() == Create(old(Value()), id, g)
    {
      if id in glyphsets {
        var before := glyphsets[id];
        glyphsets := glyphsets - {id};
        var _ := ReleaseHost(before.host);
      }
      counts := counts[g.host := (if g.host in counts then counts[g.host] else 0) + 1];
      glyphsets := glyphsets[id := g];
      assert glyphsets == old(glyphsets)[id := g];
    }

    method FreeGlyphset(id: Id) returns (r: Option<Glyphset>)
      modifies this
      ensures (Value(), r) == Free(old(Value()), id)
    {
      if id !in glyphsets {
        return None;
      }
      var g := glyphsets[id];
      glyphsets := glyphsets - {id};
      var last := ReleaseHost(g.host);
      return if last then Some(g) else None;
    }

    method ReferenceGlyphset(client: Client, newId: Id, existing: Id) returns (ok: bool)
      modifies this
      ensures (Value(), ok) == Reference(old(Value()), client, newId, existing)
    {
      if existing !in glyphsets {
        return false;
      }
      CreateGlyphset(newId, Glyphset(client, glyphsets[existing].host));
      return true;
    }

    method ExtractClient(client: Client) returns (removed: seq<Host>, ghost order: seq<Id>)
      modifies this`glyphsets
      ensures OrderOf(old(glyphsets), client, order)
      ensures removed == HostsOf(old(glyphsets), order)
      ensures glyphsets == old(glyphsets) - Ids(order)
    {
      removed, order := [], [];
      var mine := set id | id in glyphsets && glyphsets[id].client == client;
      ghost var start := glyphsets;
      while mine != {}
        invariant mine == set id | id in glyphsets && glyphsets[id].client == client
        invariant glyphsets == start - Ids(order)
        invariant forall i, j :: 0 <= i < j < |order| ==> order[i] != order[j]
        invariant forall id :: id in order ==> id in start && start[id].client == client
        invariant removed == HostsOf(start, order)
        decreases |mine|
      {
        var id :| id in mine;
        removed := removed + [glyphsets[id].host];
        glyphsets := glyphsets - {id};
        assert (order + [id])[..|order|] == order;
        order := order + [id];
        mine := mine - {id};
      }
      forall id | id in start && start[id].client == client ensures id in order {
        assert id !in mine;
      }
    }

    method RemoveClient(client: Client) returns (freed: seq<Host>, ghost order: seq<Id>)
      modifies this
      ensures OrderOf(old(glyphsets), client, order)
      ensures (Value(), freed) == RemoveClientFrom(old(Value()), client, order)
    {
      ghost var start := Value();
      var removed;
      removed, order := ExtractClient(client);
      freed := [];
      assert removed[0..] == removed;
      assert [] + ReleaseAll(counts, removed).1 == ReleaseAll(counts, removed).1;
      for i := 0 to |removed|
        invariant glyphsets == start.glyphsets - Ids(order)
        invariant var (c, f) := ReleaseAll(counts, removed[i..]);
                  ReleaseAll(start.counts, removed) == (c, freed + f)
      {
        assert removed[i..][1..] == removed[i + 1..];
        ghost var rest := ReleaseAll(Release(counts, removed[i]).0, removed[i + 1..]).1;
        assert freed + ([removed[i]] + rest) == (freed + [removed[i]]) + rest;
        assert freed + ([] + rest) == freed + rest;
        var last := ReleaseHost(removed[i]);
        if last {
          freed := freed + [removed[i]];
        }
      }
      assert removed[|removed|..] == [] && freed + [] == freed;
    }
  }
}
