/** Layering knowledge packs over the core index (`KnowledgeBase` in `impl/lnpl/kb.py`): the merged
    index does not depend on the order of the packs. */
module KnowledgeBase {
  import opened Wrappers

  // Where a document comes from: the core, or the pack of that name and root.
  datatype Origin = Core | FromPack(name: string, root: string)

  datatype Meta = Meta(category: string, path: string, origin: Origin)

  type Index = map<string, Meta>

  /** A pack's manifest and the documents found under its root. */
  datatype Pack = Pack(name: string, root: string, prefix: string, docs: Index)

  datatype KbError = OverlappingPrefixes | NoDocuments | ForeignDocument

  /** Identical, or one nests inside the other. */
  predicate PrefixesOverlap(a: string, b: string) {
    a <= b || b <= a
  }

  predicate Accepted(packs: seq<Pack>) {
    forall j, k :: 0 <= j < k < |packs| ==> !PrefixesOverlap(packs[k].prefix, packs[j].prefix)
  }

  /** Every document of the pack carries the pack's prefix. */
  predicate OwnDocs(pack: Pack) {
    forall id :: id in pack.docs ==> pack.prefix + "-" <= id
  }

  predicate AllOwnDocs(packs: seq<Pack>) {
    forall k :: 0 <= k < |packs| ==> OwnDocs(packs[k])
  }

  function Tagged(meta: Meta, pack: Pack): Meta {
    meta.(origin := FromPack(pack.name, pack.root))
  }

  /** One pack over an index: what is claimed already stays. */
  function Layer(idx: Index, pack: Pack): Index {
    idx + map id | id in pack.docs && id !in idx :: Tagged(pack.docs[id], pack)
  }

  function Layered(core: Index, packs: seq<Pack>): Index {
    if packs == [] then core else Layer(Layered(core, packs[..|packs| - 1]), packs[|packs| - 1])
  }

  class Base {
    const core: Index
    var packs: seq<Pack>
    var cached: Option<Index>

    constructor (core: Index)
      ensures this.core == core && packs == [] && cached.None?
    {
      this.core := core;
      packs := [];
      cached := None;
    }

    /** The pack check of the original's constructor. */
    method AddPacks(given: seq<Pack>) returns (error: Option<KbError>)
      requires packs == []
      modifies this`packs
      ensures error.None?
         <==> forall j, k :: 0 <= j < k < |given| ==>
                !(given[j].prefix <= given[k].prefix) && !(given[k].prefix <= given[j].prefix)
      ensures error.None? <==> Accepted(given)
      ensures error.None? ==> packs == given
    {
      for k := 0 to |given|
        invariant packs == given[..k] && Accepted(given[..k])
      {
        for j := 0 to |packs|
          invariant forall i :: 0 <= i < j ==> !PrefixesOverlap(given[k].prefix, packs[i].prefix)
        {
          if PrefixesOverlap(given[k].prefix, packs[j].prefix) {
            return Some(OverlappingPrefixes);
          }
        }
        packs := packs + [given[k]];
        assert given[..k + 1] == given[..k] + [given[k]];
      }
      assert given[..|given|] == given;
      error := None;
    }

    /** `index`: fills the index once and keeps it. */
    method Load() returns (r: Result<Index, KbError>)
      requires cached.Some? ==> core != map[] && AllOwnDocs(packs) && cached.value == Layered(core, packs)
      modifies this`cached
      ensures r == if core == map[] then Failure(NoDocuments)
                   else if AllOwnDocs(packs) then Success(Layered(core, packs)) else Failure(ForeignDocument)
      ensures r == Failure(ForeignDocument)
         <==> core != map[] && exists k, id :: 0 <= k < |packs| && id in packs[k].docs
                                               && !(packs[k].prefix + "-" <= id)
      ensures cached.Some? ==> core != map[] && AllOwnDocs(packs) && cached.value == Layered(core, packs)
      ensures r.Success? ==> cached == Some(r.value)
    {
      if cached.Some? {
        return Success(cached.value);
      }
      if core == map[] {
        return Failure(NoDocuments);
      }
      var idx := core;
      for k := 0 to |packs|
        invariant cached.None? && AllOwnDocs(packs[..k]) && idx == Layered(core, packs[..k])
      {
        assert packs[..k + 1][..k] == packs[..k] && packs[..k + 1][k] == packs[k];
        var next := LayerPack(idx, packs[k]);
        if next.None? {
          return Failure(ForeignDocument);
        }
        idx := next.value;
      }
      assert packs[..|packs|] == packs;
      cached := Some(idx);
      r := Success(idx);
    }
  }

  /** The document loop of one pack. */
  method LayerPack(idx: Index, pack: Pack) returns (next: Option<Index>)
    ensures next == if OwnDocs(pack) then Some(Layer(idx, pack)) else None
  {
    var left, layered := pack.docs.Keys, idx;
    while left != {}
      invariant left <= pack.docs.Keys
      invariant forall id :: id in pack.docs && id !in left ==> pack.prefix + "-" <= id
      invariant forall id :: id in layered <==> id in idx || (id in pack.docs && id !in left)
      invariant forall id :: id in layered ==> layered[id] == if id in idx then idx[id] else Tagged(pack.docs[id], pack)
      decreases left
    {
      var id :| id in left;
      if !(pack.prefix + "-" <= id) {
        return None;
      }
      left := left - {id};
      if id !in layered {
        layered := layered[id := Tagged(pack.docs[id], pack)];
      }
    }
    assert layered == Layer(idx, pack);
    next := Some(layered);
  }

  // ---- One owner per document ----------------------------------------------------------

  /** Two accepted packs claim no document in common. */
  lemma PacksDisjoint(p: Pack, q: Pack, id: string)
    requires OwnDocs(p) && OwnDocs(q) && id in p.docs && id in q.docs
    ensures PrefixesOverlap(p.prefix, q.prefix)
  {
    assert p.prefix + "-" <= id && q.prefix + "-" <= id;
    assert p.prefix == id[..|p.prefix|] && q.prefix == id[..|q.prefix|];
  }

  /** What the merged index holds: the core's documents, and each other document as its own pack
      declares it. */
  predicate Holds(idx: Index, core: Index, packs: seq<Pack>) {
    && (forall id :: id in core ==> id in idx && idx[id] == core[id])
    && Owned(idx, core, packs)
    && Claims(idx, core, packs)
  }

  predicate Owned(idx: Index, core: Index, packs: seq<Pack>) {
    forall id :: id in idx && id !in core ==> exists k :: 0 <= k < |packs| && id in packs[k].docs
  }

  predicate Claims(idx: Index, core: Index, packs: seq<Pack>) {
    forall k, id :: 0 <= k < |packs| && id in packs[k].docs && id !in core ==>
          id in idx && idx[id] == Tagged(packs[k].docs[id], packs[k])
  }

  lemma NotClaimed(idx: Index, core: Index, packs: seq<Pack>, pack: Pack, id: string)
    requires Holds(idx, core, packs) && Accepted(packs + [pack]) && AllOwnDocs(packs + [pack])
    requires id in pack.docs && id !in core
    ensures id !in idx
  {
    if id in idx {
      var all := packs + [pack];
      var j :| 0 <= j < |packs| && id in packs[j].docs;
      assert all[j] == packs[j] && OwnDocs(all[j]) && OwnDocs(all[|packs|]);
      assert !PrefixesOverlap(all[|packs|].prefix, all[j].prefix);
      PacksDisjoint(pack, packs[j], id);
    }
  }

  lemma LayerClaims(idx: Index, core: Index, packs: seq<Pack>, pack: Pack)
    requires Holds(idx, core, packs) && Accepted(packs + [pack]) && AllOwnDocs(packs + [pack])
    ensures Claims(Layer(idx, pack), core, packs + [pack])
  {
    hide Accepted, AllOwnDocs, Owned;
    var all := packs + [pack];
    forall k, id | 0 <= k < |all| && id in all[k].docs && id !in core
      ensures id in Layer(idx, pack) && Layer(idx, pack)[id] == Tagged(all[k].docs[id], all[k])
    {
      if k == |packs| {
        NotClaimed(idx, core, packs, pack, id);
      } else {
        assert all[k] == packs[k];
      }
    }
  }

  lemma LayerOwned(idx: Index, core: Index, packs: seq<Pack>, pack: Pack)
    requires Owned(idx, core, packs)
    ensures Owned(Layer(idx, pack), core, packs + [pack])
  {
    var all := packs + [pack];
    forall id | id in Layer(idx, pack) && id !in core ensures exists k :: 0 <= k < |all| && id in all[k].docs {
      if id in idx {
        var j :| 0 <= j < |packs| && id in packs[j].docs;
        assert all[j] == packs[j];
      } else {
        assert all[|packs|] == pack;
      }
    }
  }

  lemma LayerHolds(idx: Index, core: Index, packs: seq<Pack>, pack: Pack)
    requires Holds(idx, core, packs) && Accepted(packs + [pack]) && AllOwnDocs(packs + [pack])
    ensures Holds(Layer(idx, pack), core, packs + [pack])
  {
    hide Accepted, AllOwnDocs, Owned, Claims;
    LayerClaims(idx, core, packs, pack);
    LayerOwned(idx, core, packs, pack);
  }

  lemma {:induction false} LayeredHolds(core: Index, packs: seq<Pack>)
    requires Accepted(packs) && AllOwnDocs(packs)
    ensures Holds(Layered(core, packs), core, packs)
  {
    if packs != [] {
      hide Holds, Layer, OwnDocs;
      var init := packs[..|packs| - 1];
      assert packs == init + [packs[|packs| - 1]];
      assert forall k :: 0 <= k < |init| ==> init[k] == packs[k];
      LayeredHolds(core, init);
      LayerHolds(Layered(core, init), core, init, packs[|packs| - 1]);
    } else {
      assert Holds(core, core, []);
    }
  }

  /** The merged index: the core's documents as they are, and those of the packs, each under its pack's name
      and root; nothing else. */
  lemma IndexHolds(core: Index, packs: seq<Pack>)
    requires forall j, k :: 0 <= j < k < |packs| ==>
               !(packs[j].prefix <= packs[k].prefix) && !(packs[k].prefix <= packs[j].prefix)
    requires forall k, id :: 0 <= k < |packs| && id in packs[k].docs ==> packs[k].prefix + "-" <= id
    ensures var idx := Layered(core, packs);
            && (forall id :: id in core ==> id in idx && idx[id] == core[id])
            && (forall k, id :: 0 <= k < |packs| && id in packs[k].docs && id !in core ==>
                  id in idx && idx[id] == packs[k].docs[id].(origin := FromPack(packs[k].name, packs[k].root)))
            && (forall id :: id in idx ==> id in core || exists k :: 0 <= k < |packs| && id in packs[k].docs)
  {
    hide Layered;
    LayeredHolds(core, packs);
  }

  // ---- Order ---------------------------------------------------------------------------

  lemma SamePacks(packs: seq<Pack>, other: seq<Pack>)
    requires multiset(packs) == multiset(other)
    ensures forall p :: p in packs <==> p in other
    ensures AllOwnDocs(packs) <==> AllOwnDocs(other)
  {
    forall p ensures p in packs <==> p in other {
      assert p in multiset(packs) <==> p in multiset(other);
    }
    assert forall k :: 0 <= k < |packs| ==> packs[k] in other;
    assert forall k :: 0 <= k < |other| ==> other[k] in packs;
  }

  /** Each pack once, and no two whose prefixes overlap. */
  predicate KeptApart(packs: multiset<Pack>) {
    && (forall p :: p in packs ==> packs[p] == 1)
    && forall p, q :: p in packs && q in packs && p != q ==> !PrefixesOverlap(p.prefix, q.prefix)
  }

  /** Whether packs are accepted does not depend on where they stand. */
  lemma AcceptedApart(packs: seq<Pack>)
    ensures Accepted(packs) <==> KeptApart(multiset(packs))
  {
    if Accepted(packs) {
      forall p | p in multiset(packs) ensures multiset(packs)[p] == 1 {
        CountOne(packs, p);
      }
      forall p, q | p in multiset(packs) && q in multiset(packs) && p != q
          ensures !PrefixesOverlap(p.prefix, q.prefix) {
        var j :| 0 <= j < |packs| && packs[j] == p;
        var k :| 0 <= k < |packs| && packs[k] == q;
        assert !PrefixesOverlap(packs[if j < k then k else j].prefix, packs[if j < k then j else k].prefix);
      }
    } else if forall p :: p in multiset(packs) ==> multiset(packs)[p] == 1 {
      var j, k :| 0 <= j < k < |packs| && PrefixesOverlap(packs[k].prefix, packs[j].prefix);
      if packs[j] == packs[k] {
        CountTwo(packs, j, k);
      }
    }
  }

  lemma CountTwo(packs: seq<Pack>, j: nat, k: nat)
    requires j < k < |packs| && packs[j] == packs[k]
    ensures multiset(packs)[packs[j]] >= 2
  {
    assert packs == packs[..k] + packs[k..];
    assert packs[..k][j] in multiset(packs[..k]) && packs[k..][0] in multiset(packs[k..]);
  }

  lemma CountOne(packs: seq<Pack>, p: Pack)
    requires Accepted(packs) && p in packs
    ensures multiset(packs)[p] == 1
  {
    var k :| 0 <= k < |packs| && packs[k] == p;
    var front, back := packs[..k], packs[k + 1..];
    assert packs == front + [p] + back;
    assert p !in front && p !in back by {
      forall j | 0 <= j < |front| ensures front[j] != p {
        assert front[j] == packs[j];
      }
      forall j | 0 <= j < |back| ensures back[j] != p {
        assert back[j] == packs[k + 1 + j];
      }
    }
  }

  lemma HoldsOneIndex(a: Index, b: Index, core: Index, packs: seq<Pack>, other: seq<Pack>)
    requires Holds(a, core, packs) && Holds(b, core, other) && forall p :: p in packs <==> p in other
    ensures forall id :: id in a ==> id in b && a[id] == b[id]
  {
    forall id | id in a ensures id in b && a[id] == b[id] {
      if id !in core {
        var k :| 0 <= k < |packs| && id in packs[k].docs;
        assert packs[k] in other;
        var j :| 0 <= j < |other| && other[j] == packs[k];
        assert id in other[j].docs;
      }
    }
  }

  lemma CoreStays(idx: Index, core: Index, packs: seq<Pack>)
    requires Holds(idx, core, packs)
    ensures forall id :: id in core ==> id in idx && idx[id] == core[id]
  {
  }

  /** Layering does not depend on the order of the packs: every permutation is accepted or refused
      alike, fails alike, and otherwise gives the same index, with the core's entries in it. */
  lemma LayeringIsOrderIndependent(core: Index, packs: seq<Pack>, other: seq<Pack>)
    requires multiset(packs) == multiset(other)
    ensures Accepted(packs) <==> Accepted(other)
    ensures AllOwnDocs(packs) <==> AllOwnDocs(other)
    ensures Accepted(packs) && AllOwnDocs(packs) ==> Layered(core, packs) == Layered(core, other)
    ensures Accepted(packs) && AllOwnDocs(packs) ==>
              forall id :: id in core ==> id in Layered(core, packs) && Layered(core, packs)[id] == core[id]
  {
    hide Layered, PrefixesOverlap, OwnDocs, KeptApart, Accepted, AllOwnDocs, Holds;
    SamePacks(packs, other);
    AcceptedApart(packs);
    AcceptedApart(other);
    if Accepted(packs) && AllOwnDocs(packs) {
      LayeredHolds(core, packs);
      LayeredHolds(core, other);
      CoreStays(Layered(core, packs), core, packs);
      HoldsOneIndex(Layered(core, packs), Layered(core, other), core, packs, other);
      HoldsOneIndex(Layered(core, other), Layered(core, packs), core, other, packs);
    }
  }
}
