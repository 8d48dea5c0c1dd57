/** The registry of paired devices (`peers.toml`) and the two-way index built
    from it, shared by the dialer and the TLS verifier. */
module Registry {
  import opened Prelude

  type Key = seq<byte>
  type Addr = string

  /** `key` is the decoded public key, `None` when it does not decode to 32
      bytes; `addrs` is what the configured address resolved to. */
  datatype Peer = Peer(name: string, id: string, key: Option<Key>, addrs: seq<Addr>, authorized: bool)

  // ---- the registry -------------------------------------------------------

  /** `retain(|p| p.device_id != id)`. */
  function WithoutId(ps: seq<Peer>, id: string): seq<Peer> {
    if ps == [] then []
    else WithoutId(ps[..|ps| - 1], id) + if ps[|ps| - 1].id == id then [] else [ps[|ps| - 1]]
  }

  function WithoutName(ps: seq<Peer>, name: string): seq<Peer> {
    if ps == [] then []
    else WithoutName(ps[..|ps| - 1], name) + if ps[|ps| - 1].name == name then [] else [ps[|ps| - 1]]
  }

  predicate HasName(ps: seq<Peer>, name: string) {
    exists i :: 0 <= i < |ps| && ps[i].name == name
  }

  function Suffixed(p: Peer): string {
    p.name + "-" + if |p.id| <= 6 then p.id else p.id[..6]
  }

  function Renamed(ps: seq<Peer>, p: Peer): Peer {
    if HasName(WithoutId(ps, p.id), p.name) then p.(name := Suffixed(p)) else p
  }

  function Upserted(ps: seq<Peer>, p: Peer): seq<Peer> {
    WithoutId(ps, p.id) + [Renamed(ps, p)]
  }

  datatype Op = Upsert(peer: Peer) | RemoveByName(name: string)

  function Apply(ps: seq<Peer>, op: Op): seq<Peer> {
    match op
    case Upsert(p) => Upserted(ps, p)
    case RemoveByName(n) => WithoutName(ps, n)
  }

  function Run(ops: seq<Op>): seq<Peer> {
    if ops == [] then [] else Apply(Run(ops[..|ops| - 1]), ops[|ops| - 1])
  }

  ghost predicate DistinctIds(ps: seq<Peer>) {
    forall i, j :: 0 <= i < j < |ps| ==> ps[i].id != ps[j].id
  }

  ghost predicate DistinctNames(ps: seq<Peer>) {
    forall i, j :: 0 <= i < j < |ps| ==> ps[i].name != ps[j].name
  }

  lemma SnocDistinct(ps: seq<Peer>, p: Peer)
    ensures DistinctIds(ps + [p]) <==> DistinctIds(ps) && forall q :: q in ps ==> q.id != p.id
    ensures DistinctNames(ps + [p]) <==> DistinctNames(ps) && forall q :: q in ps ==> q.name != p.name
  {
    var r := ps + [p];
    assert forall i :: 0 <= i < |ps| ==> r[i] == ps[i];
    assert r[|ps|] == p;
  }

  lemma Snoc(ps: seq<Peer>)
    requires ps != []
    ensures ps == ps[..|ps| - 1] + [ps[|ps| - 1]]
    ensures forall q :: q in ps <==> q in ps[..|ps| - 1] || q == ps[|ps| - 1]
  {
  }

  lemma HasNameIn(ps: seq<Peer>, name: string)
    ensures HasName(ps, name) <==> exists q :: q in ps && q.name == name
  {
  }

  lemma {:induction false} WithoutIdElements(ps: seq<Peer>, id: string)
    ensures forall q :: q in WithoutId(ps, id) <==> q in ps && q.id != id
  {
    if ps != [] {
      WithoutIdElements(ps[..|ps| - 1], id);
      Snoc(ps);
    }
  }

  lemma {:induction false} WithoutIdDistinct(ps: seq<Peer>, id: string)
    ensures DistinctIds(ps) ==> DistinctIds(WithoutId(ps, id))
    ensures DistinctNames(ps) ==> DistinctNames(WithoutId(ps, id))
  {
    if ps != [] {
      var pre, p := ps[..|ps| - 1], ps[|ps| - 1];
      WithoutIdDistinct(pre, id);
      WithoutIdElements(pre, id);
      Snoc(ps);
      SnocDistinct(pre, p);
      SnocDistinct(WithoutId(pre, id), p);
    }
  }

  lemma {:induction false} WithoutNameElements(ps: seq<Peer>, name: string)
    ensures forall q :: q in WithoutName(ps, name) <==> q in ps && q.name != name
    ensures |WithoutName(ps, name)| <= |ps|
    ensures |WithoutName(ps, name)| == |ps| <==> forall q :: q in ps ==> q.name != name
  {
    if ps != [] {
      WithoutNameElements(ps[..|ps| - 1], name);
      Snoc(ps);
    }
  }

  lemma {:induction false} WithoutNameDistinct(ps: seq<Peer>, name: string)
    ensures DistinctIds(ps) ==> DistinctIds(WithoutName(ps, name))
  {
    if ps != [] {
      var pre, p := ps[..|ps| - 1], ps[|ps| - 1];
      WithoutNameDistinct(pre, name);
      WithoutNameElements(pre, name);
      Snoc(ps);
      SnocDistinct(pre, p);
      SnocDistinct(WithoutName(pre, name), p);
    }
  }

  lemma UpsertDistinct(ps: seq<Peer>, p: Peer)
    requires DistinctIds(ps)
    ensures DistinctIds(Upserted(ps, p))
  {
    WithoutIdDistinct(ps, p.id);
    WithoutIdElements(ps, p.id);
    SnocDistinct(WithoutId(ps, p.id), Renamed(ps, p));
  }

  /** However the registry is edited, device ids stay distinct. */
  lemma {:induction false} IdsStayDistinct(ops: seq<Op>)
    ensures DistinctIds(Run(ops))
  {
    if ops != [] {
      var ps := Run(ops[..|ops| - 1]);
      IdsStayDistinct(ops[..|ops| - 1]);
      match ops[|ops| - 1]
      case Upsert(p) => UpsertDistinct(ps, p);
      case RemoveByName(n) => WithoutNameDistinct(ps, n);
    }
  }

  /** Names are meant to be unambiguous. An upsert into a registry with distinct
      names keeps them distinct exactly when the new name is free, or its
      suffixed form is. */
  lemma NamesStayDistinctExactly(ps: seq<Peer>, p: Peer)
    requires DistinctNames(ps)
    ensures var rest := WithoutId(ps, p.id);
            DistinctNames(Upserted(ps, p)) <==> !HasName(rest, p.name) || !HasName(rest, Suffixed(p))
  {
    var rest := WithoutId(ps, p.id);
    WithoutIdDistinct(ps, p.id);
    SnocDistinct(rest, Renamed(ps, p));
    HasNameIn(rest, p.name);
    HasNameIn(rest, Suffixed(p));
  }

  /** Three devices are enough for the suffix to collide. */
  lemma SuffixCanCollide(key: Option<Key>)
    ensures var ps := Run([Upsert(Peer("a", "1", key, [], false)), Upsert(Peer("a-2", "3", key, [], false)),
                           Upsert(Peer("a", "2", key, [], false))]);
            |ps| == 3 && ps[1].name == ps[2].name && ps[1].id != ps[2].id
  {
    var p1, p2, p3 := Peer("a", "1", key, [], false), Peer("a-2", "3", key, [], false), Peer("a", "2", key, [], false);
    var ops := [Upsert(p1), Upsert(p2), Upsert(p3)];
    assert ops[..2][..1][..0] == [] && ops[..2][..1] == [Upsert(p1)] && ops[..2] == [Upsert(p1), Upsert(p2)];
    assert Run([Upsert(p1)]) == [p1];
    assert [p1][..0] == [] && WithoutId([p1], "3") == [p1];
    assert Run([Upsert(p1), Upsert(p2)]) == [p1, p2];
    assert [p1, p2][..1] == [p1] && WithoutId([p1], "2") == [p1];
    assert WithoutId([p1, p2], "2") == [p1, p2];
    assert [p1, p2][0].name == "a";
  }

  // ---- linear search ------------------------------------------------------

  /** The first entry with this id. */
  function FindById(ps: seq<Peer>, id: string): (r: Option<Peer>)
    ensures r.Some? ==> r.value in ps && r.value.id == id
    ensures r.None? ==> forall i :: 0 <= i < |ps| ==> ps[i].id != id
  {
    if ps == [] then None else if ps[0].id == id then Some(ps[0]) else FindById(ps[1..], id)
  }

  lemma {:induction false} FindByIdIs(ps: seq<Peer>, p: Peer)
    requires DistinctIds(ps) && p in ps
    ensures FindById(ps, p.id) == Some(p)
  {
  }

  /** After an upsert the device is found under its id with the data given (but
      for the name), and every other device is found as before. */
  lemma UpsertFinds(ps: seq<Peer>, p: Peer, id: string)
    requires DistinctIds(ps)
    ensures FindById(Upserted(ps, p), id) == if id == p.id then Some(Renamed(ps, p)) else FindById(ps, id)
  {
    var r := Upserted(ps, p);
    WithoutIdElements(ps, p.id);
    UpsertDistinct(ps, p);
    assert Renamed(ps, p) in r;
    if id == p.id {
      FindByIdIs(r, Renamed(ps, p));
    } else if FindById(ps, id).Some? {
      FindByIdIs(r, FindById(ps, id).value);
    } else {
      assert forall q :: q in r && q.id == id ==> q in ps;
    }
  }

  /** The entry that is found has the data given; its name is the one given, or, when
      another device has that, the name with a dash and the first six characters
      of the id. */
  lemma UpsertKeepsData(ps: seq<Peer>, p: Peer)
    requires DistinctIds(ps)
    ensures var found := FindById(Upserted(ps, p), p.id);
            && found.Some? && found.value.id == p.id && found.value.key == p.key && found.value.addrs == p.addrs
            && found.value.authorized == p.authorized
            && found.value.name == if exists q :: q in ps && q.id != p.id && q.name == p.name
                                   then p.name + "-" + (if |p.id| < 6 then p.id else p.id[..6]) else p.name
  {
    UpsertFinds(ps, p, p.id);
    WithoutIdElements(ps, p.id);
    HasNameIn(WithoutId(ps, p.id), p.name);
  }

  /** A removal takes away every device of that name, and only those. */
  lemma RemoveFinds(ps: seq<Peer>, name: string, id: string)
    requires DistinctIds(ps)
    ensures var before := FindById(ps, id);
            FindById(WithoutName(ps, name), id) == if before.Some? && before.value.name == name then None else before
  {
    var rest := WithoutName(ps, name);
    WithoutNameElements(ps, name);
    WithoutNameDistinct(ps, name);
    if FindById(ps, id).Some? && FindById(ps, id).value.name != name {
      FindByIdIs(rest, FindById(ps, id).value);
    } else if FindById(rest, id).Some? {
      FindByIdIs(ps, FindById(rest, id).value);
    }
  }

  // ---- the index ----------------------------------------------------------

  datatype Roster = Roster(byKey: map<Key, Peer>, byId: map<string, Key>)

  /** Entries with a usable key, in order. */
  function Usable(ps: seq<Peer>): (r: seq<Peer>)
    ensures forall p :: p in r <==> p in ps && p.key.Some?
  {
    if ps == [] then []
    else
      assert ps == ps[..|ps| - 1] + [ps[|ps| - 1]];
      Usable(ps[..|ps| - 1]) + if ps[|ps| - 1].key.Some? then [ps[|ps| - 1]] else []
  }

  /** `replace`: insert one after the other, later entries win. */
  function Index(ps: seq<Peer>): Roster
    requires forall p :: p in ps ==> p.key.Some?
  {
    if ps == [] then Roster(map[], map[])
    else
      var r, p := Index(ps[..|ps| - 1]), ps[|ps| - 1];
      Roster(r.byKey[p.key.value := p], r.byId[p.id := p.key.value])
  }

  function FromPeers(ps: seq<Peer>): Roster {
    Index(Usable(ps))
  }

  ghost predicate DistinctKeys(ps: seq<Peer>) {
    forall i, j :: 0 <= i < j < |ps| && ps[i].key.Some? && ps[j].key.Some? ==> ps[i].key != ps[j].key
  }

  lemma SnocDistinctKeys(ps: seq<Peer>, p: Peer)
    ensures DistinctKeys(ps + [p]) <==> DistinctKeys(ps) && (p.key.Some? ==> forall q :: q in ps ==> q.key != p.key)
  {
    var r := ps + [p];
    assert forall i :: 0 <= i < |ps| ==> r[i] == ps[i];
    assert r[|ps|] == p;
  }

  lemma UsableSnoc(pre: seq<Peer>, p: Peer)
    ensures Usable(pre + [p]) == if p.key.Some? then Usable(pre) + [p] else Usable(pre)
  {
  }

  lemma {:induction false} UsableDistinctIds(ps: seq<Peer>)
    requires DistinctIds(ps)
    ensures DistinctIds(Usable(ps))
  {
    if ps != [] {
      var pre, p := ps[..|ps| - 1], ps[|ps| - 1];
      assert ps == pre + [p];
      SnocDistinct(pre, p);
      UsableDistinctIds(pre);
      UsableSnoc(pre, p);
      SnocDistinct(Usable(pre), p);
    }
  }

  lemma {:induction false} UsableDistinctKeys(ps: seq<Peer>)
    ensures DistinctKeys(ps) <==> DistinctKeys(Usable(ps))
  {
    if ps != [] {
      var pre, p := ps[..|ps| - 1], ps[|ps| - 1];
      assert ps == pre + [p];
      SnocDistinctKeys(pre, p);
      UsableDistinctKeys(pre);
      UsableSnoc(pre, p);
      SnocDistinctKeys(Usable(pre), p);
    }
  }

  /** The index holds exactly the entries it was given. */
  ghost predicate Agrees(r: Roster, ps: seq<Peer>)
    requires forall p :: p in ps ==> p.key.Some?
  {
    && (forall id :: id in r.byId ==> exists p :: p in ps && p.id == id)
    && (forall p :: p in ps ==> p.id in r.byId && r.byId[p.id] == p.key.value && p.key.value in r.byKey)
    && (forall k :: k in r.byKey ==> r.byKey[k] in ps && r.byKey[k].key == Some(k))
  }

  lemma {:induction false} IndexAgrees(ps: seq<Peer>)
    requires (forall p :: p in ps ==> p.key.Some?) && DistinctIds(ps)
    ensures Agrees(Index(ps), ps)
  {
    if ps != [] {
      var pre, p := ps[..|ps| - 1], ps[|ps| - 1];
      Snoc(ps);
      SnocDistinct(pre, p);
      IndexAgrees(pre);
      IndexStep(Index(pre), pre, p, ps);
    }
  }

  lemma IndexStep(r: Roster, pre: seq<Peer>, p: Peer, ps: seq<Peer>)
    requires (forall q :: q in pre ==> q.key.Some? && q.id != p.id) && p.key.Some? && Agrees(r, pre)
    requires forall q :: q in ps <==> q in pre || q == p
    ensures Agrees(Roster(r.byKey[p.key.value := p], r.byId[p.id := p.key.value]), ps)
  {
  }

  /** Whatever the history of the registry, the index answers the three questions
      exactly as a scan of the entries with usable keys does. */
  lemma RosterAgreesWithScan(ops: seq<Op>, id: string, k: Key)
    ensures var ps := Run(ops);
            var r := FromPeers(ps);
            && (id in r.byId <==> FindById(Usable(ps), id).Some?)
            && (id in r.byId ==> FindById(Usable(ps), id).value.key == Some(r.byId[id]))
            && (k in r.byKey <==> exists p :: p in ps && p.key == Some(k))
  {
    var ps := Run(ops);
    IdsStayDistinct(ops);
    UsableDistinctIds(ps);
    IndexAgrees(Usable(ps));
  }

  /** Looking up the key of an id and then the peer of that key. */
  ghost predicate RoundTrips(r: Roster) {
    forall id :: id in r.byId ==> r.byId[id] in r.byKey && r.byKey[r.byId[id]].id == id
  }

  lemma DistinctKeysRoundTrip(u: seq<Peer>, r: Roster)
    requires (forall p :: p in u ==> p.key.Some?) && DistinctKeys(u) && Agrees(r, u)
    ensures RoundTrips(r)
  {
    forall id | id in r.byId ensures r.byId[id] in r.byKey && r.byKey[r.byId[id]].id == id {
      var p :| p in u && p.id == id;
      var q := r.byKey[r.byId[id]];
      var i :| 0 <= i < |u| && u[i] == p;
      var j :| 0 <= j < |u| && u[j] == q;
      assert u[i].key == u[j].key;
    }
  }

  lemma RoundTripDistinctKeys(u: seq<Peer>, r: Roster)
    requires (forall p :: p in u ==> p.key.Some?) && DistinctIds(u) && Agrees(r, u) && RoundTrips(r)
    ensures DistinctKeys(u)
  {
  }

  /** From id to key and back is the identity for every trusted id exactly when no
      two devices share a key. */
  lemma RosterInverseExactly(ps: seq<Peer>)
    requires DistinctIds(ps)
    ensures DistinctKeys(ps) <==> RoundTrips(FromPeers(ps))
  {
    UsableDistinctIds(ps);
    UsableDistinctKeys(ps);
    IndexAgrees(Usable(ps));
    if DistinctKeys(Usable(ps)) {
      DistinctKeysRoundTrip(Usable(ps), FromPeers(ps));
    }
    if RoundTrips(FromPeers(ps)) {
      RoundTripDistinctKeys(Usable(ps), FromPeers(ps));
    }
  }

  /** ... and then from key to id and back as well. */
  lemma RosterInverseBack(ps: seq<Peer>, k: Key)
    requires DistinctIds(ps) && k in FromPeers(ps).byKey
    ensures var r := FromPeers(ps);
            r.byKey[k].id in r.byId && r.byId[r.byKey[k].id] == k
  {
    UsableDistinctIds(ps);
    IndexAgrees(Usable(ps));
  }

  // ---- the objects --------------------------------------------------------

  class Peers {
    var peers: seq<Peer>

    constructor ()
      ensures peers == []
    {
      peers := [];
    }

    method Upsert(p: Peer)
      modifies this
      ensures peers == Upserted(old(peers), p)
      ensures DistinctIds(old(peers)) ==> DistinctIds(peers)
    {
      if DistinctIds(peers) {
        UpsertDistinct(peers, p);
      }
      var kept := [];
      for i := 0 to |peers|
        invariant kept == WithoutId(peers[..i], p.id)
      {
        assert peers[..i + 1][..i] == peers[..i];
        if peers[i].id != p.id {
          kept := kept + [peers[i]];
        }
      }
      assert peers[..|peers|] == peers;
      WithoutIdElements(peers, p.id);
      var clash := NameClash(kept, p);
      peers := kept + [if clash then p.(name := Suffixed(p)) else p];
    }

    /** `any(|q| q.name == p.name && q.device_id != p.device_id)`. */
    static method NameClash(ps: seq<Peer>, p: Peer) returns (clash: bool)
      requires forall q :: q in ps ==> q.id != p.id
      ensures clash <==> HasName(ps, p.name)
    {
      for i := 0 to |ps|
        invariant forall j :: 0 <= j < i ==> ps[j].name != p.name
      {
        if ps[i].name == p.name && ps[i].id != p.id {
          return true;
        }
        assert ps[i] in ps;
      }
      return false;
    }

    method RemoveByName(name: string) returns (removed: bool)
      modifies this
      ensures peers == WithoutName(old(peers), name)
      ensures removed <==> HasName(old(peers), name)
    {
      WithoutNameElements(peers, name);
      HasNameIn(peers, name);
      var before := |peers|;
      var kept := [];
      for i := 0 to |peers|
        invariant kept == WithoutName(peers[..i], name)
      {
        assert peers[..i + 1][..i] == peers[..i];
        if peers[i].name != name {
          kept := kept + [peers[i]];
        }
      }
      assert peers[..|peers|] == peers;
      peers := kept;
      removed := |peers| != before;
    }
  }

  class RosterInner {
    var byKey: map<Key, Peer>
    var byId: map<string, Key>

    constructor ()
      ensures byKey == map[] && byId == map[]
    {
      byKey, byId := map[], map[];
    }

    /** `Roster::load`: collect the entries with usable keys, then replace both
        indexes. */
    method Load(ps: seq<Peer>)
      modifies this
      ensures Roster(byKey, byId) == FromPeers(ps)
    {
      var list := [];
      for i := 0 to |ps|
        invariant list == Usable(ps[..i])
      {
        assert ps[..i + 1][..i] == ps[..i];
        if ps[i].key.Some? {
          list := list + [ps[i]];
        }
      }
      assert ps[..|ps|] == ps;
      byKey, byId := map[], map[];
      for i := 0 to |list|
        invariant Roster(byKey, byId) == Index(list[..i])
      {
        assert list[i] in list && list[..i + 1][..i] == list[..i];
        byId := byId[list[i].id := list[i].key.value];
        byKey := byKey[list[i].key.value := list[i]];
      }
      assert list[..|list|] == list;
    }
  }
}
