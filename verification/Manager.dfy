/** The connection manager: one loop over discovery, roster reloads, inbound
    streams and connection reports, with its maps and the tasks it spawns. */
module Manager {
  import opened Prelude
  import opened Registry

  // ---- arbitration --------------------------------------------------------

  datatype Role = Dialer | Acceptor

  /** Lexicographic order of device ids. */
  predicate Less(a: string, b: string) {
    if b == [] then false
    else if a == [] then true
    else a[0] < b[0] || (a[0] == b[0] && Less(a[1..], b[1..]))
  }

  lemma {:induction false} LessIsTotal(a: string, b: string)
    requires a != b
    ensures Less(a, b) <==> !Less(b, a)
  {
    if a != [] && b != [] && a[0] == b[0] {
      assert a == [a[0]] + a[1..] && b == [b[0]] + b[1..];
      LessIsTotal(a[1..], b[1..]);
    }
  }

  lemma {:induction false} LessIsAsymmetric(a: string, b: string)
    ensures !(Less(a, b) && Less(b, a))
  {
    if a != [] && b != [] {
      LessIsAsymmetric(a[1..], b[1..]);
    }
  }

  /** That is: the shorter one is a prefix of the other, or at the first place where
      they differ `a` has the smaller character. */
  lemma {:induction false} LessAtFirstDifference(a: string, b: string, n: nat)
    requires n <= |a| && n <= |b| && a[..n] == b[..n]
    requires n == |a| || n == |b| || a[n] != b[n]
    ensures Less(a, b) <==> n < |b| && (n == |a| || a[n] < b[n])
  {
    if n > 0 {
      assert a[0] == a[..n][0] == b[..n][0] == b[0];
      assert a[1..][..n - 1] == a[..n][1..] == b[..n][1..] == b[1..][..n - 1];
      LessAtFirstDifference(a[1..], b[1..], n - 1);
    }
  }

  function RoleFor(own: string, peer: string): Role {
    if Less(own, peer) then Dialer else Acceptor
  }

  /** Of two distinct devices exactly one dials. */
  lemma RolesAreOpposite(a: string, b: string)
    requires a != b
    ensures RoleFor(a, b).Dialer? <==> RoleFor(b, a).Acceptor?
  {
    LessIsTotal(a, b);
  }

  // ---- state --------------------------------------------------------------

  datatype Found = Found(id: string, name: string, addrs: seq<Addr>)

  /** `addrs` is the channel feeding the dial loop, `task` the handle kept. */
  datatype Entry = Entry(role: Role, name: string, connected: bool, addrs: Option<seq<Addr>>, task: Option<nat>)

  datatype Task = DialLoop(peer: string) | Connection(peer: string)

  datatype Event = PeerConnected(id: string) | PeerDisconnected(id: string)

  /** `running` are the tasks alive; `bus` maps a peer to its outbound channel. */
  datatype State = State(peers: map<string, Entry>, discovered: map<string, Found>, bus: map<string, nat>,
                         events: seq<Event>, running: map<nat, Task>, nextTask: nat)

  function Empty(): State {
    State(map[], map[], map[], [], map[], 0)
  }

  function NewEntry(role: Role): Entry {
    Entry(role, "", false, None, None)
  }

  // ---- the handlers -------------------------------------------------------

  function StaticAddrsFor(r: Roster, id: string): seq<Addr> {
    if id in r.byId && r.byId[id] in r.byKey then r.byKey[r.byId[id]].addrs else []
  }

  /** Ids of the peers `static_peers` yields. */
  function StaticIds(r: Roster): set<string> {
    set k | k in r.byKey && r.byKey[k].addrs != [] :: r.byKey[k].id
  }

  /** The addresses, then those of `extra` not there yet. */
  function Merge(addrs: seq<Addr>, extra: seq<Addr>): seq<Addr>
    decreases |extra|
  {
    if extra == [] then addrs
    else Merge(if extra[0] in addrs then addrs else addrs + [extra[0]], extra[1..])
  }

  function EntryOf(s: State, id: string, role: Role): Entry {
    if id in s.peers then s.peers[id] else NewEntry(role)
  }

  /** Make or refresh the entry; a peer we dial gets its addresses, and a dial
      loop if it has none. */
  function Place(own: string, s: State, id: string, name: string, addrs: seq<Addr>): State {
    var role := RoleFor(own, id);
    var e := EntryOf(s, id, role).(name := name);
    if role.Acceptor? then s.(peers := s.peers[id := e])
    else if e.addrs.Some? then s.(peers := s.peers[id := e.(addrs := Some(addrs))])
    else
      s.(peers := s.peers[id := e.(addrs := Some(addrs), task := Some(s.nextTask))],
         running := s.running[s.nextTask := DialLoop(id)], nextTask := s.nextTask + 1)
  }

  function EnsurePeer(own: string, r: Roster, s: State, p: Found): State {
    Place(own, s, p.id, p.name, Merge(p.addrs, StaticAddrsFor(r, p.id)))
  }

  function OnFound(own: string, r: Roster, s: State, p: Found): State {
    var s1 := s.(discovered := s.discovered[p.id := p]);
    if p.id in r.byId then EnsurePeer(own, r, s1, p) else s1
  }

  function OnLost(r: Roster, s: State, id: string): State {
    var s1 := s.(discovered := s.discovered - {id});
    if id in s.peers && s.peers[id].addrs.Some?
    then s1.(peers := s.peers[id := s.peers[id].(addrs := Some(StaticAddrsFor(r, id)))])
    else s1
  }

  function OnInbound(own: string, s: State, id: string, name: string): State {
    if RoleFor(own, id).Dialer? then s
    else
      var e := EntryOf(s, id, Acceptor);
      var replaced := e.task.Some? && e.connected;
      s.(peers := s.peers[id := e.(name := name, connected := e.connected && !replaced, task := Some(s.nextTask))],
         events := if replaced then s.events + [PeerDisconnected(id)] else s.events,
         running := (if e.task.Some? then s.running - {e.task.value} else s.running)[s.nextTask := Connection(id)],
         nextTask := s.nextTask + 1)
  }

  function OnConnUp(s: State, id: string, name: string, chan: nat): State {
    s.(peers := if id in s.peers then s.peers[id := s.peers[id].(connected := true, name := name)] else s.peers,
       bus := s.bus[id := chan], events := s.events + [PeerConnected(id)])
  }

  function OnConnDown(s: State, id: string): State {
    s.(bus := s.bus - {id}, events := s.events + [PeerDisconnected(id)],
       peers := if id !in s.peers then s.peers
                else
                  var e := s.peers[id].(connected := false);
                  s.peers[id := if e.role.Acceptor? then e.(task := None) else e])
  }

  // ---- a roster reload, declaratively -------------------------------------

  /** `es` announces each of these peers' disconnection once, in some order. */
  ghost predicate Announces(es: seq<Event>, ids: set<string>) {
    && (forall i :: 0 <= i < |es| ==> es[i].PeerDisconnected? && es[i].id in ids)
    && (forall id :: id in ids ==> PeerDisconnected(id) in es)
    && (forall i, j :: 0 <= i < j < |es| ==> es[i] != es[j])
  }

  ghost function ConnectedIn(s: State, ids: set<string>): set<string> {
    set id | id in ids && id in s.peers && s.peers[id].connected
  }

  /** Task `t` is the one kept for a peer in `ids`. */
  ghost predicate OwnedBy(s: State, t: nat, ids: set<string>) {
    exists id :: id in ids && id in s.peers && s.peers[id].task == Some(t)
  }

  ghost predicate Survives(e: Entry, e': Entry) {
    e'.role == e.role && e'.connected == e.connected && e'.task == e.task && e'.addrs.Some? == e.addrs.Some?
  }

  /** A new entry: not connected; a dialer has its own fresh dial loop. */
  ghost predicate Starts(own: string, s: State, s': State, id: string)
    requires id in s'.peers
  {
    var e := s'.peers[id];
    && e.role == RoleFor(own, id) && !e.connected
    && (e.role.Acceptor? ==> e.addrs.None? && e.task.None?)
    && (e.role.Dialer? ==> e.addrs.Some? && e.task.Some? && s.nextTask <= e.task.value < s'.nextTask
                           && e.task.value in s'.running && s'.running[e.task.value] == DialLoop(id))
  }

  /** The peers kept: survivors unchanged, newcomers started; no other task. */
  ghost predicate Seeded(own: string, s: State, newcomers: set<string>, s': State) {
    && s'.discovered == s.discovered && s'.bus == s.bus && s'.events == s.events && s.nextTask <= s'.nextTask
    && s'.peers.Keys == s.peers.Keys + newcomers
    && (forall id :: id in s.peers ==> Survives(s.peers[id], s'.peers[id]))
    && (forall id :: id in newcomers && id !in s.peers ==> Starts(own, s, s', id))
    && (forall t :: t in s.running ==> t in s'.running && s'.running[t] == s.running[t])
    && (forall t :: t in s'.running && t !in s.running ==>
          s.nextTask <= t < s'.nextTask
          && exists id :: id in s'.peers && id !in s.peers && s'.peers[id].task == Some(t))
  }

  /** Untrusted peers are gone with their tasks and bus channels, and each one
      that was connected has been announced as disconnected. */
  ghost predicate Dropped(s: State, ids: set<string>, s': State) {
    && s'.discovered == s.discovered && s'.nextTask == s.nextTask
    && s'.peers == s.peers - ids && s'.bus == s.bus - ids
    && |s.events| <= |s'.events| && s'.events[..|s.events|] == s.events
    && Announces(s'.events[|s.events|..], ConnectedIn(s, ids))
    && (forall t :: t in s'.running <==> t in s.running && !OwnedBy(s, t, ids))
    && (forall t :: t in s'.running ==> s'.running[t] == s.running[t])
  }

  function Known(r: Roster, s: State): set<string> {
    (s.discovered.Keys + StaticIds(r)) * r.byId.Keys
  }

  function Untrusted(r: Roster, s: State): set<string> {
    s.peers.Keys - r.byId.Keys
  }

  /** What a reload knows of a peer: its discovery record, or else a roster entry
      with configured addresses. */
  ghost predicate IsSeed(r: Roster, s: State, id: string, f: Found) {
    && f.id == id
    && if id in s.discovered then f == s.discovered[id]
       else exists k :: k in r.byKey && r.byKey[k].id == id && r.byKey[k].addrs != []
                        && f == Found(id, r.byKey[k].name, r.byKey[k].addrs)
  }

  /** The entry has the name that is known, and its address channel what is known
      and what is configured. */
  ghost predicate GivenAddrs(r: Roster, s: State, id: string, e: Entry) {
    exists f :: IsSeed(r, s, id, f) && e.name == f.name && e.addrs == Some(Merge(f.addrs, StaticAddrsFor(r, id)))
  }

  ghost predicate Addressed(own: string, r: Roster, s: State, s': State) {
    forall id :: id in s'.peers ==>
      if RoleFor(own, id).Dialer? && id in Known(r, s) then GivenAddrs(r, s, id, s'.peers[id])
      else id in s.peers ==> s'.peers[id].addrs == s.peers[id].addrs
  }

  ghost predicate Reloaded(own: string, r: Roster, s: State, s': State) {
    && (exists m :: Dropped(s, Untrusted(r, s), m) && Seeded(own, m, Known(r, s), s'))
    && Addressed(own, r, s, s')
  }

  lemma DroppedNone(s: State, ids: set<string>)
    requires ids == {}
    ensures Dropped(s, ids, s)
  {
  }

  lemma SeededNone(own: string, s: State)
    ensures Seeded(own, s, {}, s)
  {
  }

  /** Dropping one more peer. */
  function DropOne(m: State, id: string): State
    requires id in m.peers
  {
    var e := m.peers[id];
    m.(peers := m.peers - {id}, bus := m.bus - {id},
       running := if e.task.Some? then m.running - {e.task.value} else m.running,
       events := if e.connected then m.events + [PeerDisconnected(id)] else m.events)
  }

  lemma AnnouncesOneMore(es: seq<Event>, ids: set<string>, id: string)
    requires Announces(es, ids) && id !in ids
    ensures Announces(es + [PeerDisconnected(id)], ids + {id})
  {
  }

  lemma DroppedEvents(s: State, ids: set<string>, m: State, id: string)
    requires Dropped(s, ids, m) && id in s.peers && id !in ids
    ensures var m' := DropOne(m, id);
            && |s.events| <= |m'.events| && m'.events[..|s.events|] == s.events
            && Announces(m'.events[|s.events|..], ConnectedIn(s, ids + {id}))
  {
    var es := m.events[|s.events|..];
    if s.peers[id].connected {
      AnnouncesOneMore(es, ConnectedIn(s, ids), id);
      assert ConnectedIn(s, ids + {id}) == ConnectedIn(s, ids) + {id};
      assert DropOne(m, id).events[|s.events|..] == es + [PeerDisconnected(id)];
    } else {
      assert ConnectedIn(s, ids + {id}) == ConnectedIn(s, ids);
    }
  }

  lemma DroppedOneMore(s: State, ids: set<string>, m: State, id: string)
    requires Dropped(s, ids, m) && id in s.peers && id !in ids
    ensures Dropped(s, ids + {id}, DropOne(m, id))
  {
    var m' := DropOne(m, id);
    DroppedEvents(s, ids, m, id);
    assert m.peers[id] == s.peers[id];
    forall t ensures t in m'.running <==> t in s.running && !OwnedBy(s, t, ids + {id}) {
      if OwnedBy(s, t, ids) {
        var j :| j in ids && j in s.peers && s.peers[j].task == Some(t);
        assert j in ids + {id};
      }
      if OwnedBy(s, t, ids + {id}) && !OwnedBy(s, t, ids) {
        assert s.peers[id].task == Some(t);
      }
      if s.peers[id].task == Some(t) {
        assert id in ids + {id};
      }
    }
  }

  /** Dropping these peers one after the other. */
  ghost function DropAll(s: State, ids: seq<string>): State {
    if ids == [] then s
    else
      var m := DropAll(s, ids[..|ids| - 1]);
      if ids[|ids| - 1] in m.peers then DropOne(m, ids[|ids| - 1]) else m
  }

  lemma {:induction false} DropAllDrops(s: State, ids: seq<string>)
    requires Elements(ids) <= s.peers.Keys && NoRepeats(ids)
    ensures Dropped(s, Elements(ids), DropAll(s, ids))
  {
    if ids == [] {
      DroppedNone(s, Elements(ids));
    } else {
      var pre, id := ids[..|ids| - 1], ids[|ids| - 1];
      DropAllDrops(s, pre);
      DroppedOneMore(s, Elements(pre), DropAll(s, pre), id);
    }
  }

  /** Making sure of these peers one after the other. */
  ghost function SeedAll(own: string, r: Roster, s: State, ps: seq<Found>): State {
    if ps == [] then s else EnsurePeer(own, r, SeedAll(own, r, s, ps[..|ps| - 1]), ps[|ps| - 1])
  }

  function IdsOf(ps: seq<Found>): set<string> {
    if ps == [] then {} else IdsOf(ps[..|ps| - 1]) + {ps[|ps| - 1].id}
  }

  /** No peer is there twice. */
  ghost predicate DistinctPeers(ps: seq<Found>) {
    forall i, j :: 0 <= i < j < |ps| ==> ps[i].id != ps[j].id
  }

  lemma {:induction false} IdsOfIn(ps: seq<Found>, id: string)
    ensures id in IdsOf(ps) <==> exists i :: 0 <= i < |ps| && ps[i].id == id
  {
    if ps != [] {
      IdsOfIn(ps[..|ps| - 1], id);
    }
  }

  lemma EnsuredAddresses(own: string, r: Roster, s: State, p: Found, id: string)
    ensures var s' := EnsurePeer(own, r, s, p);
            && (id == p.id ==> id in s'.peers && s'.peers[id].name == p.name)
            && (id == p.id && RoleFor(own, id).Dialer? ==>
                  s'.peers[id].addrs == Some(Merge(p.addrs, StaticAddrsFor(r, id))))
            && (id == p.id && RoleFor(own, id).Acceptor? && id in s.peers ==> s'.peers[id].addrs == s.peers[id].addrs)
            && (id != p.id ==> (id in s'.peers <==> id in s.peers) && (id in s.peers ==> s'.peers[id] == s.peers[id]))
  {
  }

  /** What ensuring these peers makes of the entry of `id`. */
  ghost predicate AddressesAfter(own: string, r: Roster, m: State, ps: seq<Found>, id: string, s': State) {
    && (forall i :: 0 <= i < |ps| && ps[i].id == id && RoleFor(own, id).Dialer? ==>
          && id in s'.peers && s'.peers[id].name == ps[i].name
          && s'.peers[id].addrs == Some(Merge(ps[i].addrs, StaticAddrsFor(r, id))))
    && (id in m.peers && (id !in IdsOf(ps) || RoleFor(own, id).Acceptor?) ==>
          id in s'.peers && s'.peers[id].addrs == m.peers[id].addrs)
  }

  lemma AddressesOneMore(own: string, r: Roster, m: State, ps: seq<Found>, id: string, s: State, s': State)
    requires ps != [] && DistinctPeers(ps) && AddressesAfter(own, r, m, ps[..|ps| - 1], id, s)
    requires s' == EnsurePeer(own, r, s, ps[|ps| - 1])
    ensures AddressesAfter(own, r, m, ps, id, s')
  {
    var n := |ps| - 1;
    IdsOfIn(ps[..n], id);
    EnsuredAddresses(own, r, s, ps[n], id);
  }

  lemma {:induction false} SeedAllAddresses(own: string, r: Roster, m: State, ps: seq<Found>, id: string)
    requires DistinctPeers(ps)
    ensures AddressesAfter(own, r, m, ps, id, SeedAll(own, r, m, ps))
  {
    if ps != [] {
      var pre := ps[..|ps| - 1];
      SeedAllAddresses(own, r, m, pre, id);
      AddressesOneMore(own, r, m, ps, id, SeedAll(own, r, m, pre), SeedAll(own, r, m, ps));
    }
  }

  lemma KnownOneMore(r: Roster, s: State, known: seq<Found>, f: Found)
    requires DistinctPeers(known) && f.id !in IdsOf(known) && IsSeed(r, s, f.id, f)
    requires forall i :: 0 <= i < |known| ==> IsSeed(r, s, known[i].id, known[i])
    ensures DistinctPeers(known + [f]) && IdsOf(known + [f]) == IdsOf(known) + {f.id}
    ensures forall i :: 0 <= i < |known + [f]| ==> IsSeed(r, s, (known + [f])[i].id, (known + [f])[i])
  {
    IdsOfIn(known, f.id);
    assert (known + [f])[..|known|] == known;
  }

  lemma AddressedBySeeding(own: string, r: Roster, s: State, m: State, ps: seq<Found>)
    requires m.peers == s.peers - Untrusted(r, s) && DistinctPeers(ps) && IdsOf(ps) == Known(r, s)
    requires forall i :: 0 <= i < |ps| ==> IsSeed(r, s, ps[i].id, ps[i])
    requires SeedAll(own, r, m, ps).peers.Keys == m.peers.Keys + Known(r, s)
    ensures Addressed(own, r, s, SeedAll(own, r, m, ps))
  {
    var s' := SeedAll(own, r, m, ps);
    forall id | id in s'.peers
      ensures if RoleFor(own, id).Dialer? && id in Known(r, s) then GivenAddrs(r, s, id, s'.peers[id])
              else id in s.peers ==> s'.peers[id].addrs == s.peers[id].addrs
    {
      SeedAllAddresses(own, r, m, ps, id);
      IdsOfIn(ps, id);
      if id in Known(r, s) {
        var i :| 0 <= i < |ps| && ps[i].id == id;
        assert IsSeed(r, s, id, ps[i]);
      }
    }
  }

  lemma SameSeeds(r: Roster, s: State, m: State)
    requires m.discovered == s.discovered
    ensures Known(r, m) == Known(r, s) && forall id, f :: IsSeed(r, m, id, f) <==> IsSeed(r, s, id, f)
  {
  }

  /** After a reload the peers are exactly (old, discovered or configured) and
      trusted; survivors keep their task and connection; whatever belonged to a
      dropped peer is gone. */
  lemma ReloadIsExact(own: string, r: Roster, s: State, s': State)
    requires Reloaded(own, r, s, s')
    ensures s'.peers.Keys == (s.peers.Keys + s.discovered.Keys + StaticIds(r)) * r.byId.Keys
    ensures forall id :: id in s.peers && id in s'.peers ==> Survives(s.peers[id], s'.peers[id])
    ensures forall id :: id in s.peers && id !in s'.peers ==> id !in s'.bus
    ensures forall id, t :: id in s.peers && id !in s'.peers && s.peers[id].task == Some(t) && t < s.nextTask
              ==> t !in s'.running
    ensures forall id :: id in s'.peers && id !in s.peers ==> !s'.peers[id].connected
  {
  }

  // ---- runs ---------------------------------------------------------------

  datatype Input =
    | FoundPeer(found: Found)
    | LostPeer(id: string)
    | RosterChanged
    | InboundReady(id: string, name: string)
    | ConnUp(id: string, name: string, chan: nat)
    | ConnDown(id: string)
    | TaskEnds(task: nat)          // an accepted connection's task finishes

  ghost predicate Next(own: string, r: Roster, s: State, x: Input, s': State) {
    match x
    case FoundPeer(p) => s' == OnFound(own, r, s, p)
    case LostPeer(id) => s' == OnLost(r, s, id)
    case RosterChanged => Reloaded(own, r, s, s')
    case InboundReady(id, name) => s' == OnInbound(own, s, id, name)
    case ConnUp(id, name, chan) => s' == OnConnUp(s, id, name, chan)
    case ConnDown(id) => s' == OnConnDown(s, id)
    case TaskEnds(t) => t in s.running && s.running[t].Connection? && s' == s.(running := s.running - {t})
  }

  /** A run from startup; the roster may be a different one at every step. */
  ghost predicate Behavior(own: string, rs: seq<Roster>, ss: seq<State>, xs: seq<Input>) {
    && |ss| == |xs| + 1 == |rs| && Reloaded(own, rs[0], Empty(), ss[0])
    && forall i :: 0 <= i < |xs| ==> Next(own, rs[i + 1], ss[i], xs[i], ss[i + 1])
  }

  // ---- one dial loop per peer we dial -------------------------------------

  /** What holds of one entry. */
  ghost predicate EntryInv(own: string, s: State, id: string)
    requires id in s.peers
  {
    var e := s.peers[id];
    && e.role == RoleFor(own, id)
    && (e.task.Some? ==> e.task.value < s.nextTask)
    && (e.role.Dialer? ==> e.addrs.Some? && e.task.Some?
                           && e.task.value in s.running && s.running[e.task.value] == DialLoop(id))
    && (e.role.Acceptor? ==> e.addrs.None?)
    && (e.role.Acceptor? && e.task.Some? && e.task.value in s.running ==> s.running[e.task.value] == Connection(id))
  }

  /** Every dial loop belongs to the entry of its peer. */
  ghost predicate LoopInv(s: State, t: nat)
    requires t in s.running
  {
    && t < s.nextTask
    && (s.running[t].DialLoop? ==> s.running[t].peer in s.peers && s.peers[s.running[t].peer].task == Some(t))
  }

  ghost predicate Inv(own: string, s: State) {
    && (forall id :: id in s.peers ==> EntryInv(own, s, id))
    && (forall t :: t in s.running ==> LoopInv(s, t))
  }

  lemma InboundInv(own: string, s: State, id: string, name: string)
    requires Inv(own, s)
    ensures Inv(own, OnInbound(own, s, id, name))
  {
    var s' := OnInbound(own, s, id, name);
    assert id in s.peers ==> EntryInv(own, s, id);
    forall j | j in s'.peers ensures EntryInv(own, s', j) {
      assert j in s.peers ==> EntryInv(own, s, j);
    }
    forall t | t in s'.running ensures LoopInv(s', t) {
      assert t in s.running ==> LoopInv(s, t);
    }
  }

  lemma PlaceOld(own: string, s: State, id: string, name: string, addrs: seq<Addr>)
    requires id in s.peers && EntryInv(own, s, id)
    ensures Seeded(own, s, {id}, Place(own, s, id, name, addrs))
  {
  }

  lemma PlaceNew(own: string, s: State, id: string, name: string, addrs: seq<Addr>)
    requires id !in s.peers && forall t :: t in s.running ==> t < s.nextTask
    ensures Seeded(own, s, {id}, Place(own, s, id, name, addrs))
  {
    PlaceStarts(own, s, id, name, addrs, Place(own, s, id, name, addrs));
  }

  lemma PlaceStarts(own: string, s: State, id: string, name: string, addrs: seq<Addr>, s': State)
    requires id !in s.peers && s' == Place(own, s, id, name, addrs) && forall t :: t in s.running ==> t < s.nextTask
    ensures s'.peers.Keys == s.peers.Keys + {id} && Starts(own, s, s', id)
    ensures forall t :: t in s'.running && t !in s.running ==> s'.peers[id].task == Some(t)
  {
  }

  /** Ensuring a peer starts it if it is new and otherwise keeps it going. */
  lemma EnsurePeerSeeds(own: string, r: Roster, s: State, p: Found)
    requires Inv(own, s)
    ensures Seeded(own, s, {p.id}, EnsurePeer(own, r, s, p))
  {
    var addrs := Merge(p.addrs, StaticAddrsFor(r, p.id));
    if p.id in s.peers {
      PlaceOld(own, s, p.id, p.name, addrs);
    } else {
      assert forall t :: t in s.running ==> LoopInv(s, t);
      PlaceNew(own, s, p.id, p.name, addrs);
    }
  }

  lemma SeededTwice(own: string, s: State, a: set<string>, m: State, b: set<string>, s': State)
    requires Seeded(own, s, a, m) && Seeded(own, m, b, s')
    ensures Seeded(own, s, a + b, s')
  {
    forall id | id in s.peers ensures Survives(s.peers[id], s'.peers[id]) {
      assert Survives(s.peers[id], m.peers[id]) && Survives(m.peers[id], s'.peers[id]);
    }
    forall id | id in a + b && id !in s.peers ensures Starts(own, s, s', id) {
      if id in m.peers {
        assert Starts(own, s, m, id) && Survives(m.peers[id], s'.peers[id]);
      } else {
        assert Starts(own, m, s', id);
      }
    }
    forall t | t in s'.running && t !in s.running
      ensures s.nextTask <= t < s'.nextTask
        && exists id :: id in s'.peers && id !in s.peers && s'.peers[id].task == Some(t)
    {
      if t in m.running {
        var id :| id in m.peers && id !in s.peers && m.peers[id].task == Some(t);
        assert Survives(m.peers[id], s'.peers[id]);
      } else {
        var id :| id in s'.peers && id !in m.peers && s'.peers[id].task == Some(t);
      }
    }
  }

  lemma {:induction false} SeedAllSeeds(own: string, r: Roster, s: State, ps: seq<Found>)
    requires Inv(own, s)
    ensures Seeded(own, s, IdsOf(ps), SeedAll(own, r, s, ps)) && Inv(own, SeedAll(own, r, s, ps))
  {
    if ps == [] {
      SeededNone(own, s);
    } else {
      var pre, p := ps[..|ps| - 1], ps[|ps| - 1];
      SeedAllSeeds(own, r, s, pre);
      var m := SeedAll(own, r, s, pre);
      EnsurePeerSeeds(own, r, m, p);
      SeededTwice(own, s, IdsOf(pre), m, {p.id}, EnsurePeer(own, r, m, p));
      SeededInv(own, m, {p.id}, EnsurePeer(own, r, m, p));
    }
  }

  /** Dropping the untrusted and then ensuring the known peers is a reload. */
  lemma SeedingReloads(own: string, r: Roster, s: State, m: State, ps: seq<Found>)
    requires Inv(own, m) && Dropped(s, Untrusted(r, s), m) && IdsOf(ps) == Known(r, m) && DistinctPeers(ps)
    requires forall i :: 0 <= i < |ps| ==> IsSeed(r, m, ps[i].id, ps[i])
    ensures Reloaded(own, r, s, SeedAll(own, r, m, ps)) && Inv(own, SeedAll(own, r, m, ps))
  {
    SameSeeds(r, s, m);
    SeedAllSeeds(own, r, m, ps);
    AddressedBySeeding(own, r, s, m, ps);
  }

  /** Steps that touch one entry's flags and leave the tasks alone. */
  lemma FlagsInv(own: string, s: State, s': State)
    requires Inv(own, s) && s'.running == s.running && s'.nextTask == s.nextTask && s'.peers.Keys == s.peers.Keys
    requires forall id :: id in s.peers ==>
               && s'.peers[id].role == s.peers[id].role && s'.peers[id].addrs.Some? == s.peers[id].addrs.Some?
               && (s'.peers[id].task == s.peers[id].task || (s.peers[id].role.Acceptor? && s'.peers[id].task.None?))
    ensures Inv(own, s')
  {
  }

  lemma DroppedInv(own: string, s: State, ids: set<string>, m: State)
    requires Inv(own, s) && Dropped(s, ids, m)
    ensures Inv(own, m)
  {
  }

  lemma SeededInv(own: string, m: State, newcomers: set<string>, s': State)
    requires Inv(own, m) && Seeded(own, m, newcomers, s')
    ensures Inv(own, s')
  {
  }

  lemma ReloadedInv(own: string, r: Roster, s: State, s': State)
    requires Inv(own, s) && Reloaded(own, r, s, s')
    ensures Inv(own, s')
  {
    var m :| Dropped(s, Untrusted(r, s), m) && Seeded(own, m, Known(r, s), s');
    DroppedInv(own, s, Untrusted(r, s), m);
    SeededInv(own, m, Known(r, s), s');
  }

  lemma FoundInv(own: string, r: Roster, s: State, p: Found)
    requires Inv(own, s)
    ensures Inv(own, OnFound(own, r, s, p))
  {
    var s1 := s.(discovered := s.discovered[p.id := p]);
    FlagsInv(own, s, s1);
    if p.id in r.byId {
      EnsurePeerSeeds(own, r, s1, p);
      SeededInv(own, s1, {p.id}, EnsurePeer(own, r, s1, p));
    }
  }

  lemma TaskEndsInv(own: string, s: State, t: nat)
    requires Inv(own, s) && t in s.running && s.running[t].Connection?
    ensures Inv(own, s.(running := s.running - {t}))
  {
  }

  lemma FlagsNextInv(own: string, r: Roster, s: State, x: Input, s': State)
    requires Inv(own, s) && Next(own, r, s, x, s') && (x.LostPeer? || x.ConnUp? || x.ConnDown?)
    ensures Inv(own, s')
  {
    if x.ConnUp? {
      ConnUpInv(own, s, x.id, x.name, x.chan);
    } else {
      FlagsInv(own, s, s');
    }
  }

  lemma ConnUpInv(own: string, s: State, id: string, name: string, chan: nat)
    requires Inv(own, s)
    ensures Inv(own, OnConnUp(s, id, name, chan))
  {
  }

  lemma NextInv(own: string, r: Roster, s: State, x: Input, s': State)
    requires Inv(own, s) && Next(own, r, s, x, s')
    ensures Inv(own, s')
  {
    match x
    case FoundPeer(p) => FoundInv(own, r, s, p);
    case RosterChanged => ReloadedInv(own, r, s, s');
    case InboundReady(id, name) => InboundInv(own, s, id, name);
    case TaskEnds(t) => TaskEndsInv(own, s, t);
    case _ => FlagsNextInv(own, r, s, x, s');
  }

  lemma {:induction false} BehaviorInv(own: string, rs: seq<Roster>, ss: seq<State>, xs: seq<Input>, n: nat)
    requires Behavior(own, rs, ss, xs) && n < |ss|
    ensures Inv(own, ss[n])
  {
    if n == 0 {
      ReloadedInv(own, rs[0], Empty(), ss[0]);
    } else {
      BehaviorInv(own, rs, ss, xs, n - 1);
      NextInv(own, rs[n], ss[n - 1], xs[n - 1], ss[n]);
    }
  }

  /** In every state of every run: a peer we are to dial and have an entry for has
      exactly one dial loop running, and no other peer has any. */
  lemma OneDialLoopPerPeer(own: string, rs: seq<Roster>, ss: seq<State>, xs: seq<Input>, n: nat, id: string)
    requires Behavior(own, rs, ss, xs) && n < |ss|
    ensures var s := ss[n];
            && (id in s.peers && RoleFor(own, id).Dialer? ==>
                  exists t :: t in s.running && s.running[t] == DialLoop(id) && s.peers[id].addrs.Some?)
            && (forall t :: t in s.running && s.running[t] == DialLoop(id) ==>
                  id in s.peers && RoleFor(own, id).Dialer?)
            && (forall t, u :: t in s.running && u in s.running && s.running[t] == DialLoop(id) == s.running[u] ==>
                  t == u)
            && (id in s.peers && RoleFor(own, id).Acceptor? ==> s.peers[id].addrs.None?)
  {
    BehaviorInv(own, rs, ss, xs, n);
    var s := ss[n];
    if id in s.peers {
      assert EntryInv(own, s, id);
    }
    forall t | t in s.running && s.running[t] == DialLoop(id)
      ensures id in s.peers && s.peers[id].task == Some(t) && RoleFor(own, id).Dialer?
    {
      assert LoopInv(s, t) && EntryInv(own, s, id);
    }
  }

  // ---- the published status -----------------------------------------------

  function Fold(online: set<string>, e: Event): set<string> {
    match e
    case PeerConnected(id) => online + {id}
    case PeerDisconnected(id) => online - {id}
  }

  /** Who is online according to the events, as `publish_events` folds them. */
  function Online(es: seq<Event>): set<string> {
    if es == [] then {} else Fold(Online(es[..|es| - 1]), es[|es| - 1])
  }

  lemma OnlineAppend(es: seq<Event>, e: Event)
    ensures Online(es + [e]) == Fold(Online(es), e)
  {
  }

  lemma {:induction false} OnlineAfterLeaving(es: seq<Event>, more: seq<Event>)
    requires forall i :: 0 <= i < |more| ==> more[i].PeerDisconnected?
    ensures forall id :: id in Online(es + more) <==> id in Online(es) && PeerDisconnected(id) !in more
  {
    if more == [] {
      assert es + more == es;
    } else {
      var pre, e := more[..|more| - 1], more[|more| - 1];
      OnlineAfterLeaving(es, pre);
      OnlineAppend(es + pre, e);
      assert es + more == (es + pre) + [e];
      assert forall x :: x in more <==> x in pre || x == e;
    }
  }

  function ConnectedSet(s: State): set<string> {
    set id | id in s.peers && s.peers[id].connected
  }

  /** The published status is right: exactly the connected entries are online,
      and each of them can be reached on the bus. */
  ghost predicate Agrees(s: State) {
    Online(s.events) == ConnectedSet(s) && ConnectedSet(s) <= s.bus.Keys
  }

  lemma DroppedAgrees(s: State, ids: set<string>, m: State)
    requires Agrees(s) && Dropped(s, ids, m)
    ensures Agrees(m)
  {
    var more := m.events[|s.events|..];
    assert m.events == s.events + more;
    OnlineAfterLeaving(s.events, more);
    forall id ensures id in Online(m.events) <==> id in ConnectedSet(m) {
      assert PeerDisconnected(id) in more <==> id in ConnectedIn(s, ids);
    }
  }

  lemma SeededAgrees(own: string, m: State, newcomers: set<string>, s': State)
    requires Agrees(m) && Seeded(own, m, newcomers, s')
    ensures Agrees(s')
  {
  }

  lemma FlagsAgree(s: State, s': State)
    requires Agrees(s) && s'.events == s.events && s'.bus == s.bus && s'.peers.Keys == s.peers.Keys
    requires forall id :: id in s.peers ==> s'.peers[id].connected == s.peers[id].connected
    ensures Agrees(s')
  {
  }

  lemma InboundAgrees(own: string, s: State, id: string, name: string)
    requires Agrees(s)
    ensures Agrees(OnInbound(own, s, id, name))
  {
  }

  lemma ConnDownAgrees(s: State, id: string)
    requires Agrees(s)
    ensures Agrees(OnConnDown(s, id))
  {
  }

  /** A ConnUp that arrives when the peer's entry is gone always spoils it, so the
      condition is exact. */
  lemma ConnUpAgreesExactly(s: State, id: string, name: string, chan: nat)
    requires Agrees(s)
    ensures Agrees(OnConnUp(s, id, name, chan)) <==> id in s.peers
  {
  }

  /** Every step keeps the status right, but for a ConnUp of a peer that has no
      entry any more. */
  lemma NextAgrees(own: string, r: Roster, s: State, x: Input, s': State)
    requires Agrees(s) && Inv(own, s) && Next(own, r, s, x, s') && (x.ConnUp? ==> x.id in s.peers)
    ensures Agrees(s')
  {
    match x
    case FoundPeer(p) =>
      var s1 := s.(discovered := s.discovered[p.id := p]);
      FlagsAgree(s, s1);
      if p.id in r.byId {
        FlagsInv(own, s, s1);
        EnsurePeerSeeds(own, r, s1, p);
        SeededAgrees(own, s1, {p.id}, s');
      }
    case LostPeer(_) => FlagsAgree(s, s');
    case RosterChanged =>
      var m :| Dropped(s, Untrusted(r, s), m) && Seeded(own, m, Known(r, s), s');
      DroppedAgrees(s, Untrusted(r, s), m);
      SeededAgrees(own, m, Known(r, s), s');
    case InboundReady(id, name) => InboundAgrees(own, s, id, name);
    case ConnUp(id, name, chan) => ConnUpAgreesExactly(s, id, name, chan);
    case ConnDown(id) => ConnDownAgrees(s, id);
    case TaskEnds(_) => FlagsAgree(s, s');
  }

  /** So in every run in which ConnUps find their entry, the published status is
      right all the time. */
  lemma {:induction false} StatusAgreement(own: string, rs: seq<Roster>, ss: seq<State>, xs: seq<Input>, n: nat)
    requires Behavior(own, rs, ss, xs) && n < |ss|
    requires forall i :: 0 <= i < n && xs[i].ConnUp? ==> xs[i].id in ss[i].peers
    ensures Online(ss[n].events) == ConnectedSet(ss[n]) && ConnectedSet(ss[n]) <= ss[n].bus.Keys
  {
    if n == 0 {
      NextAgrees(own, rs[0], Empty(), RosterChanged, ss[0]);
    } else {
      StatusAgreement(own, rs, ss, xs, n - 1);
      BehaviorInv(own, rs, ss, xs, n - 1);
      NextAgrees(own, rs[n], ss[n - 1], xs[n - 1], ss[n]);
    }
  }

  lemma EmptyReload(own: string, r: Roster, s: State)
    requires s.peers == map[] && s.discovered == map[] && StaticIds(r) == {}
    ensures Reloaded(own, r, s, s)
  {
    DroppedNone(s, Untrusted(r, s));
    SeededNone(own, s);
    assert Known(r, s) == {};
  }

  lemma UnpairOne(own: string, s: State, id: string)
    requires s.peers.Keys == {id} && s.discovered == map[]
    ensures Reloaded(own, Roster(map[], map[]), s, DropOne(s, id))
  {
    var r, m := Roster(map[], map[]), DropOne(s, id);
    DroppedNone(s, {});
    DroppedOneMore(s, {}, s, id);
    SeededNone(own, m);
    assert {} + {id} == {id} && Untrusted(r, s) == {id} && Known(r, s) == {};
  }

  /** A run that ends in a wrong status, for every peer we accept: its stream is
      accepted, its ConnUp waits in the queue while the peer is unpaired, and is
      handled afterwards. The peer stays online with no entry. */
  lemma LateConnUpMisleads(own: string, r: Roster, id: string, name: string, chan: nat)
    returns (rs: seq<Roster>, ss: seq<State>, xs: seq<Input>)
    requires RoleFor(own, id).Acceptor? && id in r.byId && StaticIds(r) == {}
    ensures Behavior(own, rs, ss, xs) && xs == [InboundReady(id, name), RosterChanged, ConnUp(id, name, chan)]
    ensures id in Online(ss[3].events) && id !in ss[3].peers && id in ss[3].bus
  {
    var none := Roster(map[], map[]);
    var s1 := OnInbound(own, Empty(), id, name);
    var s2 := DropOne(s1, id);
    EmptyReload(own, r, Empty());
    UnpairOne(own, s1, id);
    OnlineAppend(s2.events, PeerConnected(id));
    rs, ss := [r, r, none, none], [Empty(), s1, s2, OnConnUp(s2, id, name, chan)];
    xs := [InboundReady(id, name), RosterChanged, ConnUp(id, name, chan)];
    assert Next(own, rs[1], ss[0], xs[0], ss[1]);
    assert Next(own, rs[2], ss[1], xs[1], ss[2]);
    assert Next(own, rs[3], ss[2], xs[2], ss[3]);
  }
}
