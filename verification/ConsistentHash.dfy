// core/hash/consistenthash.go: the sorted key list, the ring and the node set, kept in step in place.
module ConsistentHash {
  import opened Sequences
  import opened HashRing
  import opened Decimal

  const MIN_REPLICAS := 100
  const TOP_WEIGHT := 100

  ghost predicate Sorted(keys: seq<nat>) {
    forall i, j :: 0 <= i < j < |keys| ==> keys[i] <= keys[j]
  }

  lemma FirstIsLeast(keys: seq<nat>, x: nat)
    requires Sorted(keys) && x in multiset(keys)
    ensures x in keys && keys[0] <= x
  {
  }

  lemma DropFirst(keys: seq<nat>)
    requires keys != []
    ensures multiset(keys[1..]) == multiset(keys) - multiset{keys[0]}
    ensures Sorted(keys) ==> Sorted(keys[1..])
  {
    assert keys == [keys[0]] + keys[1..];
  }

  lemma SameFirst(a: seq<nat>, b: seq<nat>)
    requires Sorted(a) && Sorted(b) && multiset(a) == multiset(b) && a != [] && b != []
    ensures a[0] == b[0] && multiset(a[1..]) == multiset(b[1..]) && Sorted(a[1..]) && Sorted(b[1..])
  {
    hide Sorted;
    assert a[0] in multiset(a) && b[0] in multiset(b);
    FirstIsLeast(b, a[0]);
    FirstIsLeast(a, b[0]);
    DropFirst(a);
    DropFirst(b);
  }

  // A sorted list is determined by what it holds.
  lemma {:induction false} SortedUnique(a: seq<nat>, b: seq<nat>)
    requires Sorted(a) && Sorted(b) && multiset(a) == multiset(b)
    ensures a == b
    decreases |a|
  {
    hide Sorted;
    assert |multiset(a)| == |a| && |multiset(b)| == |b|;
    if a != [] {
      SameFirst(a, b);
      SortedUnique(a[1..], b[1..]);
      assert a == [a[0]] + a[1..] && b == [b[0]] + b[1..];
    }
  }

  function Sort(keys: seq<nat>): (r: seq<nat>)
    ensures Sorted(r) && multiset(r) == multiset(keys)
  {
    SortBy((a: nat, b: nat) => a < b, keys)
  }

  // Binary search for the first key at or after h.
  method Search(keys: seq<nat>, h: nat) returns (index: nat)
    requires Sorted(keys)
    ensures index <= |keys|
    ensures forall j :: 0 <= j < index ==> keys[j] < h
    ensures forall j :: index <= j < |keys| ==> keys[j] >= h
  {
    index := 0;
    var end := |keys|;
    while index < end
      invariant index <= end <= |keys|
      invariant forall j :: 0 <= j < index ==> keys[j] < h
      invariant forall j :: end <= j < |keys| ==> keys[j] >= h
    {
      var mid := (index + end) / 2;
      if keys[mid] >= h { end := mid; } else { index := mid + 1; }
    }
  }

  // What Get comes to; Panic stands for the division by zero when there is a ring but no key.
  datatype Got<N> = Missing | Found(node: N) | Panic

  class ConsistentHash<N(==)> {
    const hashFunc: string -> nat
    const repr: N -> string
    const innerRepr: N -> string
    const replicas: nat
    var keys: seq<nat>
    var ring: Ring<N>
    var nodes: set<string>
    ghost var placed: map<string, nat>  // with how many replicas each node was added

    function HashOf(r: string, i: nat): nat {
      hashFunc(r + Itoa(i))
    }

    // The hashes of a node's first n virtual nodes.
    function Hashes(r: string, n: nat): seq<nat> {
      if n == 0 then [] else Hashes(r, n - 1) + [HashOf(r, n - 1)]
    }

    // h is the hash of the node's name followed by the numeral of an index below n.
    ghost predicate Numbered(r: string, n: nat, h: nat) {
      exists i: nat, d :: i < n && IsDecimal(d, i) && h == hashFunc(r + d)
    }

    ghost predicate Injective() {
      forall a, b :: hashFunc(a) == hashFunc(b) ==> a == b
    }

    lemma {:induction false} HashesNumbered(r: string, n: nat)
      ensures |Hashes(r, n)| == n && forall k :: 0 <= k < n ==> Hashes(r, n)[k] == hashFunc(r + Itoa(k))
    {
      if n > 0 {
        HashesNumbered(r, n - 1);
      }
    }

    // The hashes of a node are those of the numerals of 0, ..., n - 1, all different if the hash function
    // is injective.
    lemma HashesAreNumbered(r: string, n: nat)
      ensures |Hashes(r, n)| == n && forall h :: h in Hashes(r, n) <==> Numbered(r, n, h)
      ensures Injective() ==> NoRepeat(Hashes(r, n))
    {
      hide Hashes, Itoa, IsDecimal;
      HashesNumbered(r, n);
      forall h | h in Hashes(r, n)
        ensures Numbered(r, n, h)
      {
        var k :| 0 <= k < n && Hashes(r, n)[k] == h;
        ItoaIsDecimal(k);
      }
      forall h | Numbered(r, n, h)
        ensures h in Hashes(r, n)
      {
        var i: nat, d :| i < n && IsDecimal(d, i) && h == hashFunc(r + d);
        ItoaIsDecimal(i);
        DecimalUnique(d, Itoa(i), i);
        assert Hashes(r, n)[i] == h;
      }
      if Injective() {
        forall j, k | 0 <= j < k < n
          ensures Hashes(r, n)[j] != Hashes(r, n)[k]
        {
          if hashFunc(r + Itoa(j)) == hashFunc(r + Itoa(k)) {
            assert (r + Itoa(j))[|r|..] == Itoa(j) && (r + Itoa(k))[|r|..] == Itoa(k);
            ItoaInjective(j, k);
          }
        }
      }
    }

    // With an injective hash function a node is placed once on each of n different slots.
    lemma PlacedOncePerNumber(ring: Ring<N>, node: N, n: nat)
      requires Injective()
      ensures |Hashes(repr(node), n)| == n && NoRepeat(Hashes(repr(node), n))
      ensures forall h :: At(Placed(ring, node, Hashes(repr(node), n)), h) ==
                          At(ring, h) + if Numbered(repr(node), n, h) then [node] else []
    {
      hide Hashes, Numbered, Placed, At;
      HashesAreNumbered(repr(node), n);
      forall h
        ensures At(Placed(ring, node, Hashes(repr(node), n)), h) ==
                At(ring, h) + if Numbered(repr(node), n, h) then [node] else []
      {
        PlacedOnce(ring, node, Hashes(repr(node), n), h);
      }
    }

    // How many of them are h.
    ghost function Hits(r: string, n: nat, h: nat): nat {
      if n == 0 then 0 else Hits(r, n - 1, h) + if HashOf(r, n - 1) == h then 1 else 0
    }

    lemma {:induction false} HitsCount(r: string, n: nat, h: nat)
      ensures multiset(Hashes(r, n))[h] == Hits(r, n, h)
      ensures h in Hashes(r, n) <==> Hits(r, n, h) > 0
    {
      hide HashOf;
      if n > 0 {
        HitsCount(r, n - 1, h);
        CountSnoc(Hashes(r, n - 1), HashOf(r, n - 1), h);
      }
    }

    lemma CountSnoc(init: seq<nat>, x: nat, h: nat)
      ensures multiset(init + [x])[h] == multiset(init)[h] + if x == h then 1 else 0
      ensures h in init + [x] <==> h in init || h == x
    {
    }

    // Every slot holds of every node exactly the virtual nodes it was added with.
    ghost predicate RingHolds(ring: Ring<N>, placed: map<string, nat>) {
      forall h, r :: Of(repr, At(ring, h), r) == if r in placed then Hits(r, placed[r], h) else 0
    }

    ghost predicate Shape()
      reads this
    {
      && Sorted(keys) && NonEmpty(ring) && RingHolds(ring, placed)
      && placed.Keys == nodes && forall r :: r in placed ==> placed[r] <= replicas
    }

    // Each hash is in keys as often as its slot has entries.
    ghost predicate InStep(keys: seq<nat>, ring: Ring<N>) {
      forall h :: multiset(keys)[h] == |At(ring, h)|
    }

    // All nodes were added with the full number of replicas.
    ghost predicate Full()
      reads this
    {
      forall r :: r in placed ==> placed[r] == replicas
    }

    ghost predicate Valid()
      reads this
    {
      Shape() && InStep(keys, ring) && Full()
    }

    // A virtual node that r was not added with hits no slot that another node is on.
    ghost predicate GhostsHitNobody(ring: Ring<N>, r: string, n: nat) {
      forall i :: n <= i < replicas ==> forall x :: x in At(ring, HashOf(r, i)) ==> repr(x) == r
    }

    constructor (replicas: nat, hashFunc: string -> nat, repr: N -> string, innerRepr: N -> string)
      ensures Valid() && keys == [] && ring == map[] && nodes == {}
      ensures this.replicas == if replicas < MIN_REPLICAS then MIN_REPLICAS else replicas
      ensures this.hashFunc == hashFunc && this.repr == repr && this.innerRepr == innerRepr
    {
      this.replicas := if replicas < MIN_REPLICAS then MIN_REPLICAS else replicas;
      this.hashFunc, this.repr, this.innerRepr := hashFunc, repr, innerRepr;
      keys, ring, nodes, placed := [], map[], {}, map[];
    }

    method RemoveRingNode(hash: nat, nodeRepr: string)
      modifies this`ring
      ensures FilteredAt(old(ring), ring, nodeRepr, [hash])
    {
      if hash in ring {
        var list := ring[hash];
        var newNodes: seq<N> := [];
        for i := 0 to |list|
          invariant ring == old(ring) && newNodes == Filter(repr, list[..i], nodeRepr)
        {
          assert list[..i + 1] == list[..i] + [list[i]];
          OfAppend(repr, list[..i], list[i], nodeRepr);
          if repr(list[i]) != nodeRepr {
            newNodes := newNodes + [list[i]];
          }
        }
        assert list[..|list|] == list;
        assert newNodes == Filter(repr, list, nodeRepr);
        if |newNodes| > 0 {
          ring := ring[hash := newNodes];
        } else {
          ring := ring - {hash};
        }
      }
    }

    // Takes one key equal to hash off the list, if there is one.
    method RemoveKey(hash: nat)
      requires Sorted(keys)
      modifies this`keys
      ensures Sorted(keys) && multiset(keys) == multiset(old(keys)) - multiset{hash}
    {
      var index := Search(keys, hash);
      if index < |keys| && keys[index] == hash {
        assert keys == keys[..index] + [keys[index]] + keys[index + 1..];
        keys := keys[..index] + keys[index + 1..];
      } else {
        assert hash !in keys;
      }
    }

    // The first p virtual nodes are among the first n, and the others are the ones from p on.
    lemma {:induction false} HitsPrefix(r: string, p: nat, n: nat, h: nat)
      requires p <= n
      ensures Hits(r, p, h) <= Hits(r, n, h)
      ensures Hits(r, p, h) < Hits(r, n, h) <==> exists i :: p <= i < n && HashOf(r, i) == h
    {
      hide HashOf;
      if p < n {
        HitsPrefix(r, p, n - 1, h);
        assert (exists i :: p <= i < n && HashOf(r, i) == h) <==>
               (exists i :: p <= i < n - 1 && HashOf(r, i) == h) || HashOf(r, n - 1) == h;
      }
    }

    // Filtering the slots of all virtual nodes removes the node from the ring.
    lemma FilteredIsRemoved(ring0: Ring<N>, ring1: Ring<N>, r: string)
      requires NonEmpty(ring0) && RingHolds(ring0, placed) && r in placed && placed[r] <= replicas
      requires FilteredAt(ring0, ring1, r, Hashes(r, replicas))
      ensures ring1 == Removed(repr, ring0, r)
    {
      hide Of, Filter, Hashes, Hits;
      var removed := Removed(repr, ring0, r);
      forall h | h in ring0
        ensures h in ring1 <==> h in removed
        ensures h in ring1 ==> ring1[h] == removed[h]
      {
        if h !in Hashes(r, replicas) {
          HitsPrefix(r, placed[r], replicas, h);
          HitsCount(r, replicas, h);
          assert Of(repr, At(ring0, h), r) == 0;
          FilterMembers(repr, ring0[h], r);
        }
      }
      assert ring1.Keys == removed.Keys;
    }

    // The rest of the ring is as before.
    lemma RemovedHolds(ring: Ring<N>, placed: map<string, nat>, r: string)
      requires RingHolds(ring, placed)
      ensures RingHolds(Removed(repr, ring, r), placed - {r}) && NonEmpty(Removed(repr, ring, r))
      ensures forall h :: At(Removed(repr, ring, r), h) == Filter(repr, At(ring, h), r)
    {
      hide Of, Hits;
      forall h, s
        ensures Of(repr, At(Removed(repr, ring, r), h), s) ==
                if s in placed - {r} then Hits(s, (placed - {r})[s], h) else 0
      {
        FilterCounts(repr, At(ring, h), r, s);
        assert At(Removed(repr, ring, r), h) == Filter(repr, At(ring, h), r);
      }
    }

    // One slot stays in step exactly when it met no surplus virtual node, or held only the removed node.
    lemma SlotInStep(keys0: seq<nat>, keys1: seq<nat>, ring: Ring<N>, r: string, h: nat)
      requires RingHolds(ring, placed) && multiset(keys0)[h] == |At(ring, h)| && r in placed && placed[r] <= replicas
      requires multiset(keys1)[h] == (multiset(keys0) - multiset(Hashes(r, replicas)))[h]
      ensures multiset(keys1)[h] == |Filter(repr, At(ring, h), r)| <==>
              Hits(r, placed[r], h) == Hits(r, replicas, h) || forall x :: x in At(ring, h) ==> repr(x) == r
      ensures Hits(r, placed[r], h) <= Hits(r, replicas, h)
    {
      hide Of, Hashes, Hits, Filter, HashOf;
      HitsPrefix(r, placed[r], replicas, h);
      HitsCount(r, replicas, h);
      FilterCounts(repr, At(ring, h), r, r);
      assert Hits(r, placed[r], h) == Of(repr, At(ring, h), r);
      OnlyThatNode(At(ring, h), r);
    }

    // Taking a key off for each of the node's possible virtual nodes keeps keys and ring in step exactly
    // when the virtual nodes it was not added with hit nobody else's slot.
    lemma InStepAfterRemove(keys0: seq<nat>, keys1: seq<nat>, ring: Ring<N>, r: string)
      requires RingHolds(ring, placed) && InStep(keys0, ring) && r in placed && placed[r] <= replicas
      requires multiset(keys1) == multiset(keys0) - multiset(Hashes(r, replicas))
      ensures InStep(keys1, Removed(repr, ring, r)) <==> GhostsHitNobody(ring, r, placed[r])
    {
      hide Of, Hashes, Hits, Filter, HashOf, Removed, RingHolds;
      RemovedHolds(ring, placed, r);
      if GhostsHitNobody(ring, r, placed[r]) {
        forall h
          ensures multiset(keys1)[h] == |At(Removed(repr, ring, r), h)|
        {
          SlotInStep(keys0, keys1, ring, r, h);
          HitsPrefix(r, placed[r], replicas, h);
        }
      }
      if !GhostsHitNobody(ring, r, placed[r]) {
        var i :| placed[r] <= i < replicas && exists x :: x in At(ring, HashOf(r, i)) && repr(x) != r;
        var h := HashOf(r, i);
        HitsPrefix(r, placed[r], replicas, h);
        SlotInStep(keys0, keys1, ring, r, h);
        assert multiset(keys1)[h] != |At(Removed(repr, ring, r), h)|;
      }
    }

    lemma {:induction false} OnlyThatNode(list: seq<N>, r: string)
      ensures Of(repr, list, r) <= |list|
      ensures Of(repr, list, r) == |list| <==> forall x :: x in list ==> repr(x) == r
    {
      if list != [] {
        OnlyThatNode(list[..|list| - 1], r);
        assert list == list[..|list| - 1] + [list[|list| - 1]];
      }
    }

    // ring1 is ring0 with the node's entries filtered out of the slots of the given hashes.
    ghost predicate FilteredAt(ring0: Ring<N>, ring1: Ring<N>, r: string, hashes: seq<nat>) {
      && (forall h :: h in ring1 <==> h in ring0 && (h in hashes ==> Filter(repr, ring0[h], r) != []))
      && (forall h :: h in ring1 ==> ring1[h] == if h in hashes then Filter(repr, ring0[h], r) else ring0[h])
    }

    lemma FilteredAtOneMore(ring0: Ring<N>, ring1: Ring<N>, ring2: Ring<N>, r: string, hashes: seq<nat>, hash: nat)
      requires FilteredAt(ring0, ring1, r, hashes) && FilteredAt(ring1, ring2, r, [hash])
      ensures FilteredAt(ring0, ring2, r, hashes + [hash])
    {
      hide Filter;
      forall h | h in ring0
        ensures Filter(repr, Filter(repr, ring0[h], r), r) == Filter(repr, ring0[h], r)
      {
        FilterTwice(repr, ring0[h], r);
      }
      forall h
        ensures h in hashes + [hash] <==> h in hashes || h == hash
      {
      }
    }

    // The loop of Remove over the node's possible virtual nodes.
    method RemoveAll(nodeRepr: string)
      requires Shape() && nodeRepr in placed
      modifies this`keys, this`ring
      ensures Sorted(keys) && multiset(keys) == multiset(old(keys)) - multiset(Hashes(nodeRepr, replicas))
      ensures ring == Removed(repr, old(ring), nodeRepr)
    {
      hide Of, Filter, Removed, Hits, Hashes, HashOf, Itoa, Sorted, FilteredAt, RingHolds;
      ghost var ring0, keys0 := ring, keys;
      FilteredNowhere(nodeRepr);
      for i := 0 to replicas
        invariant Sorted(keys) && multiset(keys) == multiset(keys0) - multiset(Hashes(nodeRepr, i))
        invariant FilteredAt(ring0, ring, nodeRepr, Hashes(nodeRepr, i))
      {
        var hash := HashOf(nodeRepr, i);
        ghost var seen, ring1 := Hashes(nodeRepr, i), ring;
        MoreRemoved(multiset(keys0), nodeRepr, i);
        RemoveKey(hash);
        RemoveRingNode(hash, nodeRepr);
        FilteredAtOneMore(ring0, ring1, ring, nodeRepr, seen, hash);
      }
      FilteredIsRemoved(ring0, ring, nodeRepr);
    }

    lemma FilteredNowhere(r: string)
      ensures Hashes(r, 0) == [] && FilteredAt(ring, ring, r, Hashes(r, 0))
    {
    }

    lemma MoreRemoved(a: multiset<nat>, r: string, i: nat)
      ensures Hashes(r, i + 1) == Hashes(r, i) + [HashOf(r, i)]
      ensures (a - multiset(Hashes(r, i))) - multiset{HashOf(r, i)} == a - multiset(Hashes(r, i + 1))
    {
      hide HashOf;
    }

    method Remove(node: N)
      requires Shape()
      modifies this
      ensures Shape() && (old(Full()) ==> Full())
      ensures placed == old(placed) - {repr(node)} && nodes == old(nodes) - {repr(node)}
      ensures repr(node) in old(nodes) ==> && ring == Removed(repr, old(ring), repr(node))
                                           && multiset(keys) ==
                                              multiset(old(keys)) - multiset(Hashes(repr(node), replicas))
      ensures repr(node) !in old(nodes) ==> ring == old(ring) && keys == old(keys)
      ensures old(InStep(keys, ring)) ==>
                (InStep(keys, ring) <==>
                 repr(node) !in old(nodes) || GhostsHitNobody(old(ring), repr(node), old(placed)[repr(node)]))
    {
      hide Of, Removed, Hits, Hashes, GhostsHitNobody, InStep, Sorted;
      var nodeRepr := repr(node);
      if nodeRepr !in nodes {
        return;
      }
      RemovedHolds(ring, placed, nodeRepr);
      RemoveAll(nodeRepr);
      if old(InStep(keys, ring)) {
        InStepAfterRemove(old(keys), keys, old(ring), nodeRepr);
      }
      nodes := nodes - {nodeRepr};
      placed := placed - {nodeRepr};
    }

    // Placing a node that is not on the ring: what the ring then holds, and that it stays in or out of step.
    lemma PlacedHolds(ring: Ring<N>, placed: map<string, nat>, node: N, n: nat)
      requires RingHolds(ring, placed) && NonEmpty(ring) && repr(node) !in placed
      ensures var ring' := Placed(ring, node, Hashes(repr(node), n));
              RingHolds(ring', placed[repr(node) := n]) && NonEmpty(ring')
    {
      hide Of, Filter, Hashes, Hits, Placed;
      var hashes := Hashes(repr(node), n);
      PlacedKeys(ring, node, hashes);
      forall h, r
        ensures Of(repr, At(Placed(ring, node, hashes), h), r) ==
                Of(repr, At(ring, h), r) + if r == repr(node) then Hits(r, n, h) else 0
      {
        PlacedAt(repr, ring, node, hashes, h, r);
        HitsCount(repr(node), n, h);
      }
    }

    lemma PlacedInStep(keys0: seq<nat>, keys1: seq<nat>, ring: Ring<N>, node: N, n: nat)
      requires multiset(keys1) == multiset(keys0) + multiset(Hashes(repr(node), n))
      ensures InStep(keys1, Placed(ring, node, Hashes(repr(node), n))) <==> InStep(keys0, ring)
    {
      hide Hashes, Placed;
      var ring' := Placed(ring, node, Hashes(repr(node), n));
      forall h
        ensures multiset(keys1)[h] == |At(ring', h)| <==> multiset(keys0)[h] == |At(ring, h)|
      {
        PlacedAt(repr, ring, node, Hashes(repr(node), n), h, "");
      }
    }

    // The loop of AddWithReplicas and the sort after it.
    method PlaceAll(node: N, n: nat)
      requires Sorted(keys)
      modifies this`keys, this`ring
      ensures Sorted(keys) && multiset(keys) == multiset(old(keys)) + multiset(Hashes(repr(node), n))
      ensures ring == Placed(old(ring), node, Hashes(repr(node), n))
    {
      hide HashOf, Itoa, Sorted, Hashes, Placed;
      ghost var keys0, ring0 := keys, ring;
      MorePlaced(ring0, node, 0);
      var nodeRepr := repr(node);
      for i := 0 to n
        invariant multiset(keys) == multiset(keys0) + multiset(Hashes(nodeRepr, i))
        invariant ring == Placed(ring0, node, Hashes(nodeRepr, i))
      {
        var hash := HashOf(nodeRepr, i);
        MorePlaced(ring0, node, i);
        keys := keys + [hash];
        ring := ring[hash := At(ring, hash) + [node]];
      }
      keys := Sort(keys);
    }

    lemma MorePlaced(ring: Ring<N>, node: N, i: nat)
      ensures var r := repr(node); var hs := Hashes(r, i);
              && Hashes(r, 0) == [] && Placed(ring, node, []) == ring
              && Hashes(r, i + 1) == hs + [HashOf(r, i)]
              && Placed(ring, node, Hashes(r, i + 1)) ==
                 Placed(ring, node, hs)[HashOf(r, i) := At(Placed(ring, node, hs), HashOf(r, i)) + [node]]
    {
      hide HashOf;
      assert Hashes(repr(node), i + 1)[..|Hashes(repr(node), i)|] == Hashes(repr(node), i);
    }

    // The number of virtual nodes that a request for replicas comes to.
    function Granted(replicas: int): (n: nat)
      ensures n <= this.replicas
    {
      if replicas < 0 then 0 else if replicas > this.replicas then this.replicas else replicas
    }

    // Adding removes the node first, so that a later call replaces an earlier one.
    method AddWithReplicas(node: N, replicas: int)
      requires Shape()
      modifies this
      ensures Shape() && placed == old(placed)[repr(node) := Granted(replicas)] && nodes == old(nodes) + {repr(node)}
      ensures repr(node) in old(nodes) ==>
                && ring == Placed(Removed(repr, old(ring), repr(node)), node, Hashes(repr(node), Granted(replicas)))
                && multiset(keys) == multiset(old(keys)) - multiset(Hashes(repr(node), this.replicas))
                                     + multiset(Hashes(repr(node), Granted(replicas)))
      ensures repr(node) !in old(nodes) ==>
                && ring == Placed(old(ring), node, Hashes(repr(node), Granted(replicas)))
                && multiset(keys) == multiset(old(keys)) + multiset(Hashes(repr(node), Granted(replicas)))
      ensures old(InStep(keys, ring)) ==>
                (InStep(keys, ring) <==>
                 repr(node) !in old(nodes) || GhostsHitNobody(old(ring), repr(node), old(placed)[repr(node)]))
    {
      hide *;
      Remove(node);
      PlaceNode(node, Granted(replicas));
    }

    // The part of AddWithReplicas after the removal.
    method PlaceNode(node: N, n: nat)
      requires Shape() && repr(node) !in placed && n <= replicas
      modifies this
      ensures Shape() && placed == old(placed)[repr(node) := n] && nodes == old(nodes) + {repr(node)}
      ensures ring == Placed(old(ring), node, Hashes(repr(node), n))
      ensures multiset(keys) == multiset(old(keys)) + multiset(Hashes(repr(node), n))
      ensures InStep(keys, ring) <==> old(InStep(keys, ring))
    {
      hide Of, Removed, Placed, Hits, Hashes, InStep, Sorted, RingHolds, NonEmpty;
      var nodeRepr := repr(node);
      nodes := nodes + {nodeRepr};
      PlaceAll(node, n);
      PlacedHolds(old(ring), placed, node, n);
      PlacedInStep(old(keys), keys, old(ring), node, n);
      placed := placed[nodeRepr := n];
    }

    method Add(node: N)
      requires Valid()
      modifies this
      ensures Valid() && nodes == old(nodes) + {repr(node)}
      ensures repr(node) !in old(nodes) ==> && ring == Placed(old(ring), node, Hashes(repr(node), replicas))
                                            && multiset(keys) ==
                                               multiset(old(keys)) + multiset(Hashes(repr(node), replicas))
      ensures repr(node) !in old(nodes) && Injective() ==>
                forall h :: At(ring, h) == At(old(ring), h) + if Numbered(repr(node), replicas, h) then [node] else []
    {
      hide Of, Removed, Placed, Hits, Hashes, InStep, RingHolds, Sorted, NonEmpty, Numbered, At, Injective;
      if Injective() {
        PlacedOncePerNumber(ring, node, replicas);
      }
      AddWithReplicas(node, replicas);
    }

    method AddWithWeight(node: N, weight: int)
      requires Shape()
      modifies this
      ensures Shape() && nodes == old(nodes) + {repr(node)}
      ensures placed == old(placed)[repr(node) := if weight <= 0 then 0
                                                  else if weight >= TOP_WEIGHT then replicas
                                                  else replicas * weight / TOP_WEIGHT]
    {
      hide Of, Removed, Placed, Hits, Hashes, InStep, Shape, GhostsHitNobody;
      var n := replicas * weight / TOP_WEIGHT;
      if weight <= 0 {
        assert replicas * weight <= 0;
      } else if weight >= TOP_WEIGHT {
        assert replicas * weight >= replicas * TOP_WEIGHT;
      } else {
        assert replicas * weight <= replicas * TOP_WEIGHT;
      }
      AddWithReplicas(node, n);
    }

    // With all nodes fully placed, a removal keeps everything in step, and keeps full placement.
    method RemoveFull(node: N)
      requires Valid()
      modifies this
      ensures Valid() && nodes == old(nodes) - {repr(node)}
      ensures repr(node) in old(nodes) ==> ring == Removed(repr, old(ring), repr(node))
    {
      hide Of, Removed, Hits, Hashes, InStep;
      Remove(node);
    }

    // Adding an absent node and removing it again restores the key list and the ring exactly.
    method AddThenRemove(node: N)
      requires Valid() && repr(node) !in nodes
      modifies this
      ensures keys == old(keys) && ring == old(ring) && nodes == old(nodes)
    {
      hide Removed, Placed, Hits, Hashes, InStep, Sorted;
      AbsentFromRing(repr(node));
      Add(node);
      Remove(node);
      PlaceThenRemove(repr, old(ring), node, Hashes(repr(node), replicas));
      AddSubtract(multiset(old(keys)), multiset(Hashes(repr(node), replicas)));
      SortedUnique(keys, old(keys));
    }

    lemma AddSubtract(a: multiset<nat>, b: multiset<nat>)
      ensures (a + b) - b == a
    {
    }

    lemma AbsentFromRing(r: string)
      requires Shape() && r !in nodes
      ensures Absent(repr, ring, r)
    {
      hide Of, Hits;
      forall h | h in ring
        ensures Of(repr, ring[h], r) == 0
      {
        assert Of(repr, At(ring, h), r) == 0;
      }
    }

    // The node that serves v, from the slot that comes next on the circle. Without agreement of keys
    // and ring it may miss, or divide by zero.
    method Get(v: N) returns (got: Got<N>, ghost slot: nat)
      requires Shape()
      ensures got.Panic? <==> ring != map[] && keys == []
      ensures InStep(keys, ring) ==> if ring == map[] then got.Missing?
                                     else && got == Found(Owner(ring, hashFunc(repr(v)), hashFunc(innerRepr(v))))
                                          && slot == SlotOf(ring.Keys, hashFunc(repr(v)))
    {
      hide RingHolds, InStep, IsSlot, NonEmpty, Of, Hits, Itoa, SlotOf, Owner;
      slot := 0;
      if |ring| == 0 {
        return Missing, 0;
      }
      if |keys| == 0 {
        NoKeys();
        return Panic, 0;
      }
      var hash := hashFunc(repr(v));
      var index := Search(keys, hash);
      assert index == |keys| ==> index % |keys| == 0;
      index := index % |keys|;
      slot := keys[index];
      if InStep(keys, ring) {
        SlotFound(hash, index);
      }
      var list := At(ring, keys[index]);
      if |list| == 0 {
        return Missing, slot;
      }
      var node := Pick(list, v);
      return Found(node), slot;
    }

    // Among nodes that collide on a slot a second hash of the value chooses.
    method Pick(list: seq<N>, v: N) returns (node: N)
      requires |list| > 0
      ensures node == list[hashFunc(innerRepr(v)) % |list|]
    {
      if |list| == 1 {
        return list[0];
      }
      var innerIndex := hashFunc(innerRepr(v));
      return list[innerIndex % |list|];
    }

    lemma NoKeys()
      requires Shape() && keys == [] && ring != map[]
      ensures !InStep(keys, ring)
    {
      hide RingHolds;
      var h :| h in ring;
      assert |At(ring, h)| > 0 && multiset(keys)[h] == 0;
    }

    lemma SlotFound(hash: nat, index: nat)
      requires Shape() && InStep(keys, ring) && index < |keys|
      requires if keys[index] >= hash then forall j :: 0 <= j < index ==> keys[j] < hash
               else index == 0 && forall j :: 0 <= j < |keys| ==> keys[j] < hash
      ensures keys[index] in ring && keys[index] == SlotOf(ring.Keys, hash) && ring[keys[index]] != []
      ensures forall inner: nat :: Owner(ring, hash, inner) == ring[keys[index]][inner % |ring[keys[index]]|]
    {
      hide RingHolds, SlotOf, Of, Hits;
      forall h
        ensures h in ring <==> exists j :: 0 <= j < |keys| && keys[j] == h
      {
        assert h in multiset(keys) <==> multiset(keys)[h] > 0;
        assert h in multiset(keys) <==> h in keys;
        assert |At(ring, h)| > 0 <==> h in ring;
      }
      assert keys[index] in ring;
      SlotUnique(ring.Keys, hash, keys[index], SlotOf(ring.Keys, hash));
    }

    // How a collision breaks partial replicas. x is added with one virtual node, and y, whose first hash is
    // the same, with none; removing y takes the last key, x stays on the ring, and Get divides by zero.
    method DivideByZero(x: N, y: N, v: N) returns (got: Got<N>)
      requires Shape() && keys == [] && ring == map[] && nodes == {} && replicas > 0
      requires repr(x) != repr(y) && HashOf(repr(x), 0) == HashOf(repr(y), 0)
      modifies this
      ensures Shape() && ring == map[HashOf(repr(x), 0) := [x]] && keys == [] && got == Panic
    {
      hide HashOf, Hashes, Placed, Removed, Hits, InStep, Shape, Of, Filter, GhostsHitNobody, SlotOf, Owner, IsSlot, At,
           NonEmpty, Sorted, RingHolds, Itoa;
      OneHash(repr(x), x);
      AddWithReplicas(x, 1);
      OneKey(keys, HashOf(repr(x), 0));
      NoHash(repr(y), y, ring);
      AddWithReplicas(y, 0);
      OneKey(keys, HashOf(repr(x), 0));
      Remove(y);
      GhostHitExample(x, repr(y), keys);
      assert HashOf(repr(x), 0) in ring;
      ghost var slot;
      got, slot := Get(v);
    }

    lemma OneHash(r: string, x: N)
      ensures Hashes(r, 1) == [HashOf(r, 0)] && Placed(map[], x, Hashes(r, 1)) == map[HashOf(r, 0) := [x]]
    {
      hide HashOf;
      var hashes := [HashOf(r, 0)];
      assert Hashes(r, 0) == [] && hashes[..0] == [];
      var empty: Ring<N> := map[];
      assert Placed(empty, x, hashes[..0]) == empty && At(empty, HashOf(r, 0)) + [x] == [x];
    }

    lemma NoHash(r: string, x: N, ring: Ring<N>)
      ensures Hashes(r, 0) == [] && Placed(ring, x, Hashes(r, 0)) == ring
    {
    }

    lemma OneKey(keys: seq<nat>, h: nat)
      requires multiset(keys) == multiset{h}
      ensures keys == [h]
    {
      assert |multiset(keys)| == |keys| == 1;
      assert keys[0] in multiset(keys);
    }

    // What the removal in DivideByZero does: r, without a virtual node, takes away the key of x.
    lemma GhostHitExample(x: N, r: string, keys1: seq<nat>)
      requires repr(x) != r && replicas > 0
      requires multiset(keys1) == multiset([HashOf(r, 0)]) - multiset(Hashes(r, replicas))
      ensures var ring0: Ring<N> := map[HashOf(r, 0) := [x]];
              && InStep([HashOf(r, 0)], ring0) && !GhostsHitNobody(ring0, r, 0)
              && Removed(repr, ring0, r) == ring0 && keys1 == [] && !InStep(keys1, ring0)
    {
      hide HashOf, Hits, Hashes, Removed, InStep;
      var h := HashOf(r, 0);
      var ring0: Ring<N> := map[h := [x]];
      HitsPrefix(r, 0, replicas, h);
      HitsCount(r, replicas, h);
      assert multiset(keys1) == multiset{};
      assert |multiset(keys1)| == |keys1|;
      OthersStay(x, r, h);
      OneSlot(x, h);
      assert x in At(ring0, HashOf(r, 0));
    }

    lemma OthersStay(x: N, r: string, h: nat)
      requires repr(x) != r
      ensures var ring0: Ring<N> := map[h := [x]]; Removed(repr, ring0, r) == ring0
    {
      hide Removed;
      OfAppend(repr, [], x, r);
      assert [] + [x] == [x];
      AbsentStays(repr, map[h := [x]], r);
    }

    lemma OneSlot(x: N, h: nat)
      ensures var ring0: Ring<N> := map[h := [x]]; InStep([h], ring0) && !InStep([], ring0)
    {
      var ring0: Ring<N> := map[h := [x]];
      var none: seq<nat> := [];
      assert multiset(none)[h] != |At(ring0, h)|;
    }
  }

  // The same from a new ring, with a hash function that is constant.
  method DivideByZeroExample() returns (got: Got<string>)
    ensures got == Panic
  {
    var h := new ConsistentHash<string>(MIN_REPLICAS, (s: string) => 0, (s: string) => s, (s: string) => s);
    got := h.DivideByZero("x", "y", "v");
  }
}
