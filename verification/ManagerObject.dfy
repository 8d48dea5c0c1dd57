/** The manager's loop body as an object: its maps, its spawned tasks and the
    events it emits, changed in place, against the specification in `Manager`;
    and the daemon state folded from those events. */
module ManagerObject {
  import opened Prelude
  import opened Registry
  import M = Manager
  import A = PeerAddresses

  class Manager {
    const own: string
    var peers: map<string, M.Entry>
    var discovered: map<string, M.Found>
    var bus: map<string, nat>
    var events: seq<M.Event>
    var running: map<nat, M.Task>
    var nextTask: nat

    function View(): M.State
      reads this
    {
      M.State(peers, discovered, bus, events, running, nextTask)
    }

    /** The invariant of every run, and discovery records filed under their id. */
    ghost predicate Valid()
      reads this
    {
      M.Inv(own, View()) && forall id :: id in discovered ==> discovered[id].id == id
    }

    constructor (own: string)
      ensures View() == M.Empty() && this.own == own && Valid()
    {
      this.own := own;
      peers, discovered, bus, events, running, nextTask := map[], map[], map[], [], map[], 0;
    }

    method EnsurePeer(r: Roster, p: M.Found)
      modifies this`peers, this`running, this`nextTask
      ensures View() == M.EnsurePeer(own, r, old(View()), p)
      ensures p.id in peers && peers[p.id].name == p.name
      ensures M.RoleFor(own, p.id).Dialer? ==>
                && peers[p.id].addrs.Some?
                && A.Combines(peers[p.id].addrs.value, p.addrs, M.StaticAddrsFor(r, p.id))
    {
      A.MergeExact(p.addrs, M.StaticAddrsFor(r, p.id));
      var role := M.RoleFor(own, p.id);
      var entry := if p.id in peers then peers[p.id] else M.NewEntry(role);
      entry := entry.(name := p.name);
      if role.Acceptor? {
        peers := peers[p.id := entry];
        return;
      }
      var addrs := p.addrs;
      var statics := M.StaticAddrsFor(r, p.id);
      for i := 0 to |statics|
        invariant M.Merge(p.addrs, statics) == M.Merge(addrs, statics[i..])
      {
        assert statics[i..][1..] == statics[i + 1..];
        if statics[i] !in addrs {
          addrs := addrs + [statics[i]];
        }
      }
      if entry.addrs.None? {
        running := running[nextTask := M.DialLoop(p.id)];
        entry := entry.(task := Some(nextTask));
        nextTask := nextTask + 1;
      }
      entry := entry.(addrs := Some(addrs));
      peers := peers[p.id := entry];
    }

    method OnFound(r: Roster, p: M.Found)
      requires Valid()
      modifies this
      ensures View() == M.OnFound(own, r, old(View()), p) && Valid()
    {
      M.FoundInv(own, r, View(), p);
      discovered := discovered[p.id := p];
      if p.id in r.byId {
        EnsurePeer(r, p);
      }
    }

    method OnLost(r: Roster, id: string)
      requires Valid()
      modifies this
      ensures View() == M.OnLost(r, old(View()), id) && Valid()
      ensures id in peers && M.RoleFor(own, id).Dialer? ==> peers[id].addrs == Some(M.StaticAddrsFor(r, id))
    {
      ghost var before := View();
      A.LostAddresses(own, r, before, id);
      discovered := discovered - {id};
      if id in peers && peers[id].addrs.Some? {
        peers := peers[id := peers[id].(addrs := Some(M.StaticAddrsFor(r, id)))];
      }
      M.FlagsInv(own, before, View());
    }

    method OnInbound(id: string, name: string)
      requires Valid()
      modifies this
      ensures View() == M.OnInbound(own, old(View()), id, name) && Valid()
    {
      M.InboundInv(own, View(), id, name);
      if M.RoleFor(own, id).Dialer? {
        return;
      }
      var entry := if id in peers then peers[id] else M.NewEntry(M.Acceptor);
      entry := entry.(name := name);
      if entry.task.Some? {
        running := running - {entry.task.value};
        if entry.connected {
          entry := entry.(connected := false);
          events := events + [M.PeerDisconnected(id)];
        }
      }
      running := running[nextTask := M.Connection(id)];
      peers := peers[id := entry.(task := Some(nextTask))];
      nextTask := nextTask + 1;
    }

    method OnConnUp(id: string, name: string, chan: nat)
      requires Valid()
      modifies this
      ensures View() == M.OnConnUp(old(View()), id, name, chan) && Valid()
      ensures M.Agrees(old(View())) ==> (M.Agrees(View()) <==> id in old(peers))
    {
      ghost var before := View();
      if M.Agrees(before) {
        M.ConnUpAgreesExactly(before, id, name, chan);
      }
      if id in peers {
        peers := peers[id := peers[id].(connected := true, name := name)];
      }
      bus := bus[id := chan];
      events := events + [M.PeerConnected(id)];
      M.FlagsInv(own, before, View());
    }

    method OnConnDown(id: string)
      requires Valid()
      modifies this
      ensures View() == M.OnConnDown(old(View()), id) && Valid()
    {
      ghost var before := View();
      bus := bus - {id};
      if id in peers {
        var entry := peers[id].(connected := false);
        if entry.role.Acceptor? {
          entry := entry.(task := None);
        }
        peers := peers[id := entry];
      }
      events := events + [M.PeerDisconnected(id)];
      M.FlagsInv(own, before, View());
    }

    method DropOne(id: string)
      requires id in peers
      modifies this
      ensures View() == M.DropOne(old(View()), id)
    {
      bus := bus - {id};
      var entry := peers[id];
      peers := peers - {id};
      if entry.task.Some? {
        running := running - {entry.task.value};
      }
      if entry.connected {
        events := events + [M.PeerDisconnected(id)];
      }
    }

    /** First half of a reload: drop what is no longer trusted, in any order. */
    method DropUntrusted(r: Roster) returns (dropped: seq<string>)
      modifies this
      ensures View() == M.DropAll(old(View()), dropped)
      ensures Elements(dropped) == M.Untrusted(r, old(View())) && NoRepeats(dropped)
    {
      dropped := Enumerate(peers.Keys - r.byId.Keys);
      for i := 0 to |dropped|
        invariant View() == M.DropAll(old(View()), dropped[..i])
      {
        assert dropped[..i + 1][..i] == dropped[..i];
        if dropped[i] in peers {
          DropOne(dropped[i]);
        }
      }
      assert dropped[..|dropped|] == dropped;
    }

    /** Discovered peers, and configured ones that discovery does not know. */
    method Seeds(r: Roster) returns (seed: map<string, M.Found>)
      requires Valid()
      ensures seed.Keys == discovered.Keys + M.StaticIds(r)
      ensures forall id :: id in seed ==> M.IsSeed(r, View(), id, seed[id])
    {
      seed := discovered;
      var keys := Enumerate(set k | k in r.byKey && r.byKey[k].addrs != []);
      for i := 0 to |keys|
        invariant seed.Keys == discovered.Keys + set k | k in Elements(keys[..i]) && k in r.byKey :: r.byKey[k].id
        invariant forall id :: id in seed ==> M.IsSeed(r, View(), id, seed[id])
      {
        assert keys[..i + 1][..i] == keys[..i];
        var p := r.byKey[keys[i]];
        if p.id !in seed {
          seed := seed[p.id := M.Found(p.id, p.name, p.addrs)];
        }
      }
      assert keys[..|keys|] == keys;
    }

    /** Those of them that are trusted, in any order. */
    method KnownPeers(r: Roster) returns (known: seq<M.Found>)
      requires Valid()
      ensures M.IdsOf(known) == M.Known(r, View()) && M.DistinctPeers(known)
      ensures forall i :: 0 <= i < |known| ==> M.IsSeed(r, View(), known[i].id, known[i])
    {
      var seed := Seeds(r);
      var ids := Enumerate(seed.Keys);
      known := [];
      for i := 0 to |ids|
        invariant M.IdsOf(known) == Elements(ids[..i]) * r.byId.Keys && M.DistinctPeers(known)
        invariant forall j :: 0 <= j < |known| ==> M.IsSeed(r, View(), known[j].id, known[j])
      {
        assert ids[..i + 1][..i] == ids[..i];
        NoRepeatsPrefix(ids, i + 1);
        if ids[i] in r.byId {
          M.KnownOneMore(r, View(), known, seed[ids[i]]);
          known := known + [seed[ids[i]]];
        }
      }
      assert ids[..|ids|] == ids;
    }

    /** Second half: make sure of every known peer. */
    method SeedKnown(r: Roster) returns (seeded: seq<M.Found>)
      requires Valid()
      modifies this
      ensures View() == M.SeedAll(own, r, old(View()), seeded)
      ensures M.IdsOf(seeded) == M.Known(r, old(View())) && M.DistinctPeers(seeded)
      ensures forall i :: 0 <= i < |seeded| ==> M.IsSeed(r, old(View()), seeded[i].id, seeded[i])
    {
      seeded := KnownPeers(r);
      for i := 0 to |seeded|
        invariant View() == M.SeedAll(own, r, old(View()), seeded[..i])
      {
        assert seeded[..i + 1][..i] == seeded[..i];
        EnsurePeer(r, seeded[i]);
      }
      assert seeded[..|seeded|] == seeded;
    }

    method OnRosterChanged(r: Roster)
      requires Valid()
      modifies this
      ensures M.Reloaded(own, r, old(View()), View()) && Valid()
    {
      ghost var before := View();
      var dropped := DropUntrusted(r);
      ghost var mid := View();
      M.DropAllDrops(before, dropped);
      M.DroppedInv(own, before, Elements(dropped), mid);
      var seeded := SeedKnown(r);
      M.SeedingReloads(own, r, before, mid, seeded);
    }
  }

  /** When this device last disconnected, if it ever did. */
  function LastSeen(events: seq<M.Event>, times: seq<nat>, id: string): Option<nat>
    requires |times| == |events|
  {
    if events == [] then None
    else if events[|events| - 1] == M.PeerDisconnected(id) then Some(times[|times| - 1])
    else LastSeen(events[..|events| - 1], times[..|times| - 1], id)
  }

  /** `state.json`, kept by `publish_events`. */
  class DaemonState {
    var online: map<string, nat>
    var lastSeen: map<string, nat>

    constructor ()
      ensures online == map[] && lastSeen == map[]
    {
      online, lastSeen := map[], map[];
    }

    method MarkOnline(id: string, now: nat)
      modifies this`online
      ensures online == old(online)[id := now]
    {
      online := online[id := now];
    }

    method MarkOffline(id: string, now: nat)
      modifies this
      ensures online == old(online) - {id} && lastSeen == old(lastSeen)[id := now]
    {
      online := online - {id};
      lastSeen := lastSeen[id := now];
    }

    /** Folding the manager's events, each at its time, gives exactly the online
        set of its run; a device was last seen when it last disconnected. */
    method PublishEvents(events: seq<M.Event>, times: seq<nat>)
      requires |times| == |events|
      modifies this
      ensures online.Keys == M.Online(events)
      ensures forall id :: LastSeen(events, times, id).Some? ==>
                id in lastSeen && Some(lastSeen[id]) == LastSeen(events, times, id)
      ensures forall id :: LastSeen(events, times, id).None? ==>
                (id in lastSeen <==> id in old(lastSeen)) && (id in lastSeen ==> lastSeen[id] == old(lastSeen)[id])
    {
      online := map[];
      for i := 0 to |events|
        invariant online.Keys == M.Online(events[..i])
        invariant forall id :: LastSeen(events[..i], times[..i], id).Some? ==>
                    id in lastSeen && Some(lastSeen[id]) == LastSeen(events[..i], times[..i], id)
        invariant forall id :: LastSeen(events[..i], times[..i], id).None? ==>
                    (id in lastSeen <==> id in old(lastSeen)) && (id in lastSeen ==> lastSeen[id] == old(lastSeen)[id])
      {
        assert events[..i + 1][..i] == events[..i] && times[..i + 1][..i] == times[..i];
        match events[i]
        case PeerConnected(id) => MarkOnline(id, times[i]);
        case PeerDisconnected(id) => MarkOffline(id, times[i]);
      }
      assert events[..|events|] == events && times[..|times|] == times;
    }
  }
}
