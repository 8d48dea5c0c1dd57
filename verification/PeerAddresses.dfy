/** What the manager remembers of peers: the addresses it hands to dial loops, the
    discovery records behind them, and the channel of each connection. */
module PeerAddresses {
  import opened Prelude
  import opened Registry
  import opened Manager

  // ---- the address list ---------------------------------------------------

  /** The discovered addresses come first, as they are; the configured ones that are
      not among them follow, each once; there is nothing else. */
  ghost predicate Combines(all: seq<Addr>, found: seq<Addr>, configured: seq<Addr>) {
    && found <= all
    && (forall a :: a in all <==> a in found || a in configured)
    && (forall i :: |found| <= i < |all| ==> all[i] !in all[..i])
  }

  lemma {:induction false} MergeCombines(found: seq<Addr>, extra: seq<Addr>, addrs: seq<Addr>, done: seq<Addr>)
    requires Combines(addrs, found, done)
    ensures Combines(Merge(addrs, extra), found, done + extra)
    decreases |extra|
  {
    if extra == [] {
      assert done + extra == done;
    } else {
      var next := if extra[0] in addrs then addrs else addrs + [extra[0]];
      assert Combines(next, found, done + [extra[0]]);
      MergeCombines(found, extra[1..], next, done + [extra[0]]);
      assert done + [extra[0]] + extra[1..] == done + extra;
    }
  }

  lemma MergeExact(found: seq<Addr>, configured: seq<Addr>)
    ensures Combines(Merge(found, configured), found, configured)
  {
    MergeCombines(found, configured, found, []);
    assert [] + configured == configured;
  }

  lemma {:induction false} MergeNothingNew(addrs: seq<Addr>, extra: seq<Addr>)
    requires forall a :: a in extra ==> a in addrs
    ensures Merge(addrs, extra) == addrs
    decreases |extra|
  {
    if extra != [] {
      assert extra[0] in extra;
      MergeNothingNew(addrs, extra[1..]);
    }
  }

  /** For a registry in which no two devices share an id or a key, the configured
      addresses the index gives are those of the registry's entry. */
  lemma ConfiguredIsRegistered(ps: seq<Peer>, id: string)
    requires DistinctIds(ps) && DistinctKeys(ps)
    ensures var p := FindById(Usable(ps), id);
            StaticAddrsFor(FromPeers(ps), id) == if p.Some? then p.value.addrs else []
    ensures id in StaticIds(FromPeers(ps)) <==>
              FindById(Usable(ps), id).Some? && FindById(Usable(ps), id).value.addrs != []
  {
    var u, r := Usable(ps), FromPeers(ps);
    UsableDistinctIds(ps);
    IndexAgrees(u);
    RosterInverseExactly(ps);
    if FindById(u, id).Some? {
      var p := FindById(u, id).value;
      assert p.id in r.byId && r.byId[id] == p.key.value && r.byKey[p.key.value].id == id;
      var q := r.byKey[p.key.value];
      assert q in u && q.id == p.id;
      FindByIdIs(u, q);
    }
    forall k | k in r.byKey && r.byKey[k].id == id ensures FindById(u, id) == Some(r.byKey[k]) {
      FindByIdIs(u, r.byKey[k]);
    }
  }

  // ---- what the dial loops get --------------------------------------------

  /** A trusted peer we dial, when it is found: its channel holds exactly the
      addresses found, first, and the configured ones. */
  lemma FoundAddresses(own: string, r: Roster, s: State, p: Found)
    requires p.id in r.byId && RoleFor(own, p.id).Dialer?
    ensures var s' := OnFound(own, r, s, p);
            && p.id in s'.peers && s'.peers[p.id].addrs.Some? && s'.peers[p.id].name == p.name
            && Combines(s'.peers[p.id].addrs.value, p.addrs, StaticAddrsFor(r, p.id))
  {
    MergeExact(p.addrs, StaticAddrsFor(r, p.id));
  }

  /** When it is lost, exactly the configured ones remain; nobody else is touched. */
  lemma LostAddresses(own: string, r: Roster, s: State, id: string)
    requires Inv(own, s)
    ensures var s' := OnLost(r, s, id);
            && (id in s.peers && RoleFor(own, id).Dialer? ==> s'.peers[id].addrs == Some(StaticAddrsFor(r, id)))
            && (forall j :: j in s.peers && j != id ==> j in s'.peers && s'.peers[j] == s.peers[j])
  {
    assert id in s.peers ==> EntryInv(own, s, id);
  }

  /** Looking up the id of a key gives the key back, as in every index built from
      distinct ids. */
  ghost predicate Coherent(r: Roster) {
    forall k :: k in r.byKey ==> r.byKey[k].id in r.byId && r.byId[r.byKey[k].id] == k
  }

  lemma IndexIsCoherent(ps: seq<Peer>)
    requires DistinctIds(ps)
    ensures Coherent(FromPeers(ps))
  {
    forall k | k in FromPeers(ps).byKey
      ensures FromPeers(ps).byKey[k].id in FromPeers(ps).byId && FromPeers(ps).byId[FromPeers(ps).byKey[k].id] == k
    {
      RosterInverseBack(ps, k);
    }
  }

  /** After a reload every peer we dial, newcomer or survivor, has in its channel:
      if it is discovered, the addresses found and the configured ones; if it is
      only configured, exactly the configured ones; and otherwise what it had. */
  lemma ReloadAddresses(own: string, r: Roster, s: State, s': State, id: string)
    requires Inv(own, s) && Reloaded(own, r, s, s') && Coherent(r) && id in s'.peers && RoleFor(own, id).Dialer?
    ensures s'.peers[id].addrs.Some?
    ensures id in s.discovered ==>
              && s'.peers[id].name == s.discovered[id].name
              && Combines(s'.peers[id].addrs.value, s.discovered[id].addrs, StaticAddrsFor(r, id))
    ensures id !in s.discovered && id in StaticIds(r) ==> s'.peers[id].addrs.value == StaticAddrsFor(r, id)
    ensures id !in s.discovered && id !in StaticIds(r) ==> id in s.peers && s'.peers[id].addrs == s.peers[id].addrs
  {
    ReloadedInv(own, r, s, s');
    ReloadIsExact(own, r, s, s');
    assert EntryInv(own, s', id);
    if id in Known(r, s) {
      assert GivenAddrs(r, s, id, s'.peers[id]);
      var f :| IsSeed(r, s, id, f) && s'.peers[id].name == f.name
               && s'.peers[id].addrs == Some(Merge(f.addrs, StaticAddrsFor(r, id)));
      MergeExact(f.addrs, StaticAddrsFor(r, id));
      if id !in s.discovered {
        MergeNothingNew(f.addrs, StaticAddrsFor(r, id));
      }
    }
  }

  // ---- discovery ----------------------------------------------------------

  /** The latest discovery record of a peer that has not been lost since. */
  function LastFound(xs: seq<Input>, n: nat, id: string): Option<Found>
    requires n <= |xs|
  {
    if n == 0 then None
    else
      match xs[n - 1]
      case FoundPeer(p) => if p.id == id then Some(p) else LastFound(xs, n - 1, id)
      case LostPeer(lost) => if lost == id then None else LastFound(xs, n - 1, id)
      case _ => LastFound(xs, n - 1, id)
  }

  lemma NextDiscovered(own: string, r: Roster, s: State, x: Input, s': State)
    requires Next(own, r, s, x, s')
    ensures x.FoundPeer? ==> s'.discovered == s.discovered[x.found.id := x.found]
    ensures x.LostPeer? ==> s'.discovered == s.discovered - {x.id}
    ensures !x.FoundPeer? && !x.LostPeer? ==> s'.discovered == s.discovered
  {
  }

  /** In every run the manager knows of exactly the peers found and not lost since,
      trusted or not, with their latest record. */
  lemma {:induction false} DiscoveryExact(own: string, rs: seq<Roster>, ss: seq<State>, xs: seq<Input>,
                                         n: nat, id: string)
    requires Behavior(own, rs, ss, xs) && n < |ss|
    ensures LastFound(xs, n, id) == if id in ss[n].discovered then Some(ss[n].discovered[id]) else None
  {
    if n > 0 {
      DiscoveryExact(own, rs, ss, xs, n - 1, id);
      NextDiscovered(own, rs[n], ss[n - 1], xs[n - 1], ss[n]);
    }
  }

  /** So a peer found while it was not trusted gets its entry, and its addresses if
      we dial it, at the reload that makes it trusted. */
  lemma FoundThenTrusted(own: string, rs: seq<Roster>, ss: seq<State>, xs: seq<Input>, n: nat, id: string)
    requires Behavior(own, rs, ss, xs) && n < |xs| && xs[n].RosterChanged? && Coherent(rs[n + 1])
    requires LastFound(xs, n, id).Some? && id in rs[n + 1].byId
    ensures id in ss[n + 1].peers
    ensures RoleFor(own, id).Dialer? ==>
              && ss[n + 1].peers[id].addrs.Some?
              && Combines(ss[n + 1].peers[id].addrs.value, LastFound(xs, n, id).value.addrs,
                         StaticAddrsFor(rs[n + 1], id))
  {
    DiscoveryExact(own, rs, ss, xs, n, id);
    BehaviorInv(own, rs, ss, xs, n);
    assert Next(own, rs[n + 1], ss[n], xs[n], ss[n + 1]);
    ReloadIsExact(own, rs[n + 1], ss[n], ss[n + 1]);
    if RoleFor(own, id).Dialer? {
      ReloadAddresses(own, rs[n + 1], ss[n], ss[n + 1], id);
    }
  }

  /** An entry carries the name given by the latest stream or connection. */
  lemma NamesGiven(own: string, r: Roster, s: State, x: Input, s': State)
    requires Next(own, r, s, x, s')
    ensures x.InboundReady? && RoleFor(own, x.id).Acceptor? ==> x.id in s'.peers && s'.peers[x.id].name == x.name
    ensures x.ConnUp? && x.id in s.peers ==> x.id in s'.peers && s'.peers[x.id].name == x.name
  {
  }

  // ---- the bus ------------------------------------------------------------

  /** The channel of a peer's latest ConnUp, unless a ConnDown followed. */
  function LastUp(xs: seq<Input>, n: nat, id: string): Option<nat>
    requires n <= |xs|
  {
    if n == 0 then None
    else
      match xs[n - 1]
      case ConnUp(up, _, chan) => if up == id then Some(chan) else LastUp(xs, n - 1, id)
      case ConnDown(down) => if down == id then None else LastUp(xs, n - 1, id)
      case _ => LastUp(xs, n - 1, id)
  }

  lemma NextBus(own: string, r: Roster, s: State, x: Input, s': State)
    requires Next(own, r, s, x, s')
    ensures x.ConnUp? ==> s'.bus == s.bus[x.id := x.chan]
    ensures x.ConnDown? ==> s'.bus == s.bus - {x.id}
    ensures x.RosterChanged? ==> s'.bus == s.bus - Untrusted(r, s)
    ensures !x.ConnUp? && !x.ConnDown? && !x.RosterChanged? ==> s'.bus == s.bus
  {
  }

  /** A reload among the first `n` events dropped this peer. */
  ghost predicate WasDropped(rs: seq<Roster>, ss: seq<State>, xs: seq<Input>, n: nat, id: string)
    requires n <= |xs| < |rs| && |xs| < |ss|
  {
    exists i :: 0 <= i < n && xs[i].RosterChanged? && id in Untrusted(rs[i + 1], ss[i])
  }

  lemma BusStep(own: string, rs: seq<Roster>, ss: seq<State>, xs: seq<Input>, n: nat, id: string)
    requires Behavior(own, rs, ss, xs) && 0 < n < |ss|
    ensures id in ss[n].bus ==>
              || LastUp(xs, n, id) == Some(ss[n].bus[id])
              || (id in ss[n - 1].bus && ss[n].bus[id] == ss[n - 1].bus[id]
                  && LastUp(xs, n, id) == LastUp(xs, n - 1, id))
    ensures id !in ss[n].bus && LastUp(xs, n, id).Some? ==>
              LastUp(xs, n - 1, id).Some? && (id !in ss[n - 1].bus || WasDropped(rs, ss, xs, n, id))
  {
    var x := xs[n - 1];
    NextBus(own, rs[n], ss[n - 1], x, ss[n]);
    if x.RosterChanged? && id in Untrusted(rs[n], ss[n - 1]) {
      assert id in Untrusted(rs[n - 1 + 1], ss[n - 1]);
    }
  }

  /** In every run a peer on the bus is reached through the channel of its latest
      connection; and one that is up is on the bus unless a reload has dropped it. */
  lemma {:induction false} BusExact(own: string, rs: seq<Roster>, ss: seq<State>, xs: seq<Input>, n: nat, id: string)
    requires Behavior(own, rs, ss, xs) && n < |ss|
    ensures id in ss[n].bus ==> LastUp(xs, n, id) == Some(ss[n].bus[id])
    ensures LastUp(xs, n, id).Some? && id !in ss[n].bus ==> WasDropped(rs, ss, xs, n, id)
  {
    if n > 0 {
      BusExact(own, rs, ss, xs, n - 1, id);
      BusStep(own, rs, ss, xs, n, id);
    }
  }
}
