// The ring of core/hash/consistenthash.go as a value: to every hash the nodes placed there. What the
// sorted key list adds to it is only a fast way to find the slot of a value.
module HashRing {
  import opened Arithmetic
  import opened Sequences

  type Ring<N> = map<nat, seq<N>>

  function At<N>(ring: Ring<N>, h: nat): seq<N> {
    if h in ring then ring[h] else []
  }

  // How many entries of a slot stand for the node with representation r.
  function Of<N>(repr: N -> string, list: seq<N>, r: string): nat {
    if list == [] then 0
    else Of(repr, list[..|list| - 1], r) + if repr(list[|list| - 1]) == r then 1 else 0
  }

  // The slot without that node's entries.
  function Filter<N>(repr: N -> string, list: seq<N>, r: string): seq<N> {
    if list == [] then []
    else Filter(repr, list[..|list| - 1], r) + if repr(list[|list| - 1]) == r then [] else [list[|list| - 1]]
  }

  lemma {:induction false} FilterCounts<N>(repr: N -> string, list: seq<N>, r: string, s: string)
    ensures |Filter(repr, list, r)| == |list| - Of(repr, list, r)
    ensures Of(repr, Filter(repr, list, r), s) == if s == r then 0 else Of(repr, list, s)
  {
    if list != [] {
      var init, last := list[..|list| - 1], list[|list| - 1];
      FilterCounts(repr, init, r, s);
      OfAppend(repr, Filter(repr, init, r), last, s);
      assert Filter(repr, init, r) + [] == Filter(repr, init, r);
    }
  }

  lemma {:induction false} FilterTwice<N>(repr: N -> string, list: seq<N>, r: string)
    ensures Filter(repr, Filter(repr, list, r), r) == Filter(repr, list, r)
  {
    if list != [] {
      var init, last := list[..|list| - 1], list[|list| - 1];
      FilterTwice(repr, init, r);
      OfAppend(repr, Filter(repr, init, r), last, r);
      assert Filter(repr, init, r) + [] == Filter(repr, init, r);
    }
  }

  lemma {:induction false} FilterMembers<N>(repr: N -> string, list: seq<N>, r: string)
    ensures Of(repr, list, r) == 0 ==> Filter(repr, list, r) == list
    ensures Of(repr, list, r) == 0 <==> forall x :: x in list ==> repr(x) != r
    ensures forall x :: x in Filter(repr, list, r) <==> x in list && repr(x) != r
  {
    if list != [] {
      FilterMembers(repr, list[..|list| - 1], r);
      assert list == list[..|list| - 1] + [list[|list| - 1]];
    }
  }

  // Taking a node out works entry by entry, and keeps the order of the others.
  lemma {:induction false} FilterAdds<N>(repr: N -> string, a: seq<N>, b: seq<N>, r: string)
    ensures Filter(repr, a + b, r) == Filter(repr, a, r) + Filter(repr, b, r)
  {
    hide Filter;
    if b == [] {
      assert a + b == a;
      FilterNone(repr, r);
    } else {
      var init, last := b[..|b| - 1], b[|b| - 1];
      FilterAdds(repr, a, init, r);
      assert a + b == (a + init) + [last] && b == init + [last];
      FilterSnoc(repr, a + init, last, r);
      FilterSnoc(repr, init, last, r);
    }
  }

  lemma FilterNone<N>(repr: N -> string, r: string)
    ensures Filter(repr, [], r) == []
  {
  }

  lemma FilterSnoc<N>(repr: N -> string, list: seq<N>, x: N, r: string)
    ensures Filter(repr, list + [x], r) == Filter(repr, list, r) + if repr(x) == r then [] else [x]
  {
    assert (list + [x])[..|list|] == list;
  }

  lemma OfAppend<N>(repr: N -> string, list: seq<N>, x: N, r: string)
    ensures Of(repr, list + [x], r) == Of(repr, list, r) + if repr(x) == r then 1 else 0
    ensures Filter(repr, list + [x], r) == Filter(repr, list, r) + if repr(x) == r then [] else [x]
  {
    assert (list + [x])[..|list|] == list;
  }

  // k is the first key at or after h on the circle of keys.
  ghost predicate IsSlot(keys: set<nat>, h: nat, k: nat) {
    && k in keys
    && if k >= h then forall j :: j in keys && j >= h ==> k <= j
       else forall j :: j in keys ==> j < h && k <= j
  }

  lemma SlotUnique(keys: set<nat>, h: nat, k: nat, k': nat)
    requires IsSlot(keys, h, k) && IsSlot(keys, h, k')
    ensures k == k'
  {
  }

  // With more keys, a value keeps its slot or goes to a new key.
  lemma SlotGrows(keys: set<nat>, keys': set<nat>, h: nat, k: nat, k': nat)
    requires keys <= keys' && IsSlot(keys, h, k) && IsSlot(keys', h, k')
    ensures k' == k || k' !in keys
  {
  }

  lemma {:induction false} LeastExists(keys: set<nat>) returns (m: nat)
    requires keys != {}
    ensures m in keys && forall j :: j in keys ==> m <= j
  {
    var x :| x in keys;
    if keys == {x} {
      m := x;
    } else {
      var rest := keys - {x};
      m := LeastExists(rest);
      assert forall j :: j in keys ==> j == x || j in rest;
      m := if x < m then x else m;
    }
  }

  lemma SlotExists(keys: set<nat>, h: nat)
    requires keys != {}
    ensures exists k :: IsSlot(keys, h, k)
  {
    var above := set j | j in keys && j >= h;
    assert forall j :: j in keys && j >= h ==> j in above;
    var k := LeastExists(if above == {} then keys else above);
    assert above != {} ==> k in above;
    assert IsSlot(keys, h, k);
  }

  // The slot of a hash.
  ghost function SlotOf(keys: set<nat>, h: nat): (k: nat)
    requires keys != {}
    ensures IsSlot(keys, h, k)
  {
    SlotExists(keys, h);
    var k :| IsSlot(keys, h, k);
    k
  }

  // The node that serves a value with hash h; `inner` chooses among nodes that collide on its slot.
  ghost function Owner<N>(ring: Ring<N>, h: nat, inner: nat): (n: N)
    requires NonEmpty(ring) && ring != map[]
    ensures n in ring[SlotOf(ring.Keys, h)]
  {
    assert ring.Keys != {};
    var list := ring[SlotOf(ring.Keys, h)];
    list[inner % |list|]
  }

  // The ring without a node, and with a node placed on a list of hashes.
  ghost function Removed<N>(repr: N -> string, ring: Ring<N>, r: string): Ring<N> {
    map h | h in ring && Filter(repr, ring[h], r) != [] :: Filter(repr, ring[h], r)
  }

  function Placed<N>(ring: Ring<N>, n: N, hashes: seq<nat>): Ring<N> {
    if hashes == [] then ring
    else
      var before := Placed(ring, n, hashes[..|hashes| - 1]);
      var h := hashes[|hashes| - 1];
      before[h := At(before, h) + [n]]
  }

  ghost predicate NonEmpty<N>(ring: Ring<N>) {
    forall h :: h in ring ==> ring[h] != []
  }

  ghost predicate Absent<N>(repr: N -> string, ring: Ring<N>, r: string) {
    forall h :: h in ring ==> Of(repr, ring[h], r) == 0
  }

  lemma PlacedStep<N>(ring: Ring<N>, n: N, hashes: seq<nat>, h: nat)
    requires hashes != []
    ensures var before := Placed(ring, n, hashes[..|hashes| - 1]);
            At(Placed(ring, n, hashes), h) == if h == hashes[|hashes| - 1] then At(before, h) + [n] else At(before, h)
  {
  }

  lemma SnocCount(hashes: seq<nat>, h: nat)
    requires hashes != []
    ensures multiset(hashes)[h] == multiset(hashes[..|hashes| - 1])[h] + if h == hashes[|hashes| - 1] then 1 else 0
    ensures h in hashes <==> h in hashes[..|hashes| - 1] || h == hashes[|hashes| - 1]
  {
    assert hashes == hashes[..|hashes| - 1] + [hashes[|hashes| - 1]];
  }

  lemma {:induction false} PlacedAt<N>(repr: N -> string, ring: Ring<N>, n: N, hashes: seq<nat>, h: nat, r: string)
    ensures Of(repr, At(Placed(ring, n, hashes), h), r) ==
            Of(repr, At(ring, h), r) + if r == repr(n) then multiset(hashes)[h] else 0
    ensures |At(Placed(ring, n, hashes), h)| == |At(ring, h)| + multiset(hashes)[h]
    ensures Filter(repr, At(Placed(ring, n, hashes), h), repr(n)) == Filter(repr, At(ring, h), repr(n))
    ensures h !in hashes ==> At(Placed(ring, n, hashes), h) == At(ring, h)
  {
    if hashes != [] {
      hide Placed, Of, Filter;
      var init := hashes[..|hashes| - 1];
      PlacedAt(repr, ring, n, init, h, r);
      PlacedStep(ring, n, hashes, h);
      SnocCount(hashes, h);
      OfAppend(repr, At(Placed(ring, n, init), h), n, r);
      OfAppend(repr, At(Placed(ring, n, init), h), n, repr(n));
    }
  }

  lemma {:induction false} PlacedKeys<N>(ring: Ring<N>, n: N, hashes: seq<nat>)
    ensures NonEmpty(ring) ==> NonEmpty(Placed(ring, n, hashes))
    ensures Placed(ring, n, hashes).Keys == ring.Keys + (set x | x in hashes)
  {
    if hashes != [] {
      assert hashes == hashes[..|hashes| - 1] + [hashes[|hashes| - 1]];
      PlacedKeys(ring, n, hashes[..|hashes| - 1]);
    }
  }

  // On hashes without repetition the node comes once to the end of each slot.
  lemma {:induction false} PlacedOnce<N>(ring: Ring<N>, n: N, hashes: seq<nat>, h: nat)
    requires NoRepeat(hashes)
    ensures At(Placed(ring, n, hashes), h) == At(ring, h) + if h in hashes then [n] else []
  {
    if hashes != [] {
      hide Placed, At;
      var init := hashes[..|hashes| - 1];
      PlacedOnce(ring, n, init, h);
      PlacedStep(ring, n, hashes, h);
      SnocCount(hashes, h);
    }
  }

  // Among the nodes of a slot the inner hash chooses evenly: each is chosen by its position, and again every
  // full round.
  lemma OwnerByPosition<N>(ring: Ring<N>, h: nat, j: nat, rounds: nat)
    requires NonEmpty(ring) && ring != map[] && j < |ring[SlotOf(ring.Keys, h)]|
    ensures Owner(ring, h, j + rounds * |ring[SlotOf(ring.Keys, h)]|) == ring[SlotOf(ring.Keys, h)][j]
  {
    var n := |ring[SlotOf(ring.Keys, h)]|;
    DivMod(j + rounds * n, n, rounds, j);
  }

  // Removing an absent node changes nothing.
  lemma AbsentStays<N>(repr: N -> string, ring: Ring<N>, r: string)
    requires NonEmpty(ring) && Absent(repr, ring, r)
    ensures Removed(repr, ring, r) == ring
  {
    forall h | h in ring ensures Filter(repr, ring[h], r) == ring[h] {
      FilterMembers(repr, ring[h], r);
    }
    assert Removed(repr, ring, r).Keys == ring.Keys;
  }

  // Placing an absent node and removing it again gives back the very same ring.
  lemma PlaceThenRemove<N>(repr: N -> string, ring: Ring<N>, n: N, hashes: seq<nat>)
    requires NonEmpty(ring) && Absent(repr, ring, repr(n))
    ensures Removed(repr, Placed(ring, n, hashes), repr(n)) == ring
  {
    var r := repr(n);
    var ring' := Placed(ring, n, hashes);
    PlacedKeys(ring, n, hashes);
    forall h
      ensures Filter(repr, At(ring', h), r) == At(ring, h)
    {
      PlacedAt(repr, ring, n, hashes, h, r);
      FilterMembers(repr, At(ring, h), r);
    }
    var back := Removed(repr, ring', r);
    forall h
      ensures h in back <==> h in ring
      ensures h in ring ==> back[h] == ring[h]
    {
      assert Filter(repr, At(ring', h), r) == At(ring, h);
    }
    assert back.Keys == ring.Keys;
  }

  // Minimal disruption. Placing an absent node leaves a value with the node that served it, unless the
  // value's slot now holds the new node; on a slot that is new the new node itself serves it.
  lemma AddDisruptsOnlyOwnSlots<N>(repr: N -> string, ring: Ring<N>, n: N, hashes: seq<nat>, h: nat, inner: nat)
    requires NonEmpty(ring) && Absent(repr, ring, repr(n)) && ring != map[]
    ensures var ring' := Placed(ring, n, hashes);
            && NonEmpty(ring') && ring' != map[]
            && var k' := SlotOf(ring'.Keys, h);
               && (Owner(ring', h, inner) == Owner(ring, h, inner)
                  || (k' in hashes && Of(repr, ring'[k'], repr(n)) > 0))
               && (k' !in ring ==> k' in hashes && Owner(ring', h, inner) == n)
  {
    hide Placed, Of, Filter;
    var ring' := Placed(ring, n, hashes);
    PlacedKeys(ring, n, hashes);
    var some :| some in ring;
    assert some in ring'.Keys;
    var k, k' := SlotOf(ring.Keys, h), SlotOf(ring'.Keys, h);
    PlacedAt(repr, ring, n, hashes, k', repr(n));
    SlotGrows(ring.Keys, ring'.Keys, h, k, k');
    if k' in hashes {
      assert multiset(hashes)[k'] > 0;
      OnlyNew(repr, ring, n, hashes, k');
      assert Owner(ring', h, inner) in At(ring', k');
    }
  }

  // On an empty ring the new node serves every value.
  lemma FirstServesAll<N>(repr: N -> string, n: N, hashes: seq<nat>, h: nat, inner: nat)
    requires hashes != []
    ensures var ring' := Placed(map[], n, hashes);
            NonEmpty(ring') && ring' != map[] && Owner(ring', h, inner) == n
  {
    hide Placed;
    var ring' := Placed(map[], n, hashes);
    PlacedKeys(map[], n, hashes);
    assert hashes[0] in ring'.Keys;
    OnlyNew(repr, map[], n, hashes, SlotOf(ring'.Keys, h));
    assert Owner(ring', h, inner) in At(ring', SlotOf(ring'.Keys, h));
  }

  lemma {:induction false} OnlyNew<N>(repr: N -> string, ring: Ring<N>, n: N, hashes: seq<nat>, h: nat)
    ensures h !in ring ==> forall x :: x in At(Placed(ring, n, hashes), h) ==> x == n
  {
    if hashes != [] {
      OnlyNew(repr, ring, n, hashes[..|hashes| - 1], h);
      PlacedStep(ring, n, hashes, h);
    }
  }

  // Removing a node changes only the values whose slot held it.
  lemma RemoveDisruptsOnlyOwnSlots<N>(repr: N -> string, ring: Ring<N>, r: string, h: nat, inner: nat)
    requires NonEmpty(ring) && Removed(repr, ring, r) != map[]
    ensures var ring' := Removed(repr, ring, r);
            && NonEmpty(ring') && ring != map[]
            && (Owner(ring', h, inner) == Owner(ring, h, inner) || Of(repr, ring[SlotOf(ring.Keys, h)], r) > 0)
            && repr(Owner(ring', h, inner)) != r
  {
    var ring' := Removed(repr, ring, r);
    var some :| some in ring';
    assert some in ring.Keys;
    var k, k' := SlotOf(ring.Keys, h), SlotOf(ring'.Keys, h);
    FilterMembers(repr, ring[k], r);
    FilterMembers(repr, ring[k'], r);
    if Of(repr, ring[k], r) == 0 {
      SlotGrows(ring'.Keys, ring.Keys, h, k', k);
    }
  }
}
