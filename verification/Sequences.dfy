// What several models need of sequences and of sets of them.
module Sequences {

  // s with one more element; the contract makes it injective.
  ghost function Snoc<A>(s: seq<A>, x: A): (r: seq<A>)
    ensures |r| == |s| + 1 && r[..|s|] == s && r[|s|] == x
  {
    s + [x]
  }

  // The set is closed under taking prefixes, as the labels of the nodes of a trie are.
  ghost predicate PrefixClosed<A(!new)>(keys: set<seq<A>>) {
    [] in keys && forall s, x :: Snoc(s, x) in keys ==> s in keys
  }

  lemma PrefixClosedGrows<A(!new)>(keys: set<seq<A>>, s: seq<A>, x: A)
    requires PrefixClosed(keys) && s in keys
    ensures PrefixClosed(keys + {Snoc(s, x)})
    ensures Snoc(s, x) !in keys ==> forall y :: Snoc(Snoc(s, x), y) !in keys
  {
  }

  ghost predicate NoRepeat<A>(s: seq<A>) {
    forall i, j :: 0 <= i < j < |s| ==> s[i] != s[j]
  }

  lemma NoRepeatAppend<A>(s: seq<A>, x: A)
    requires NoRepeat(s) && x !in s
    ensures NoRepeat(s + [x])
  {
  }

  lemma NoRepeatDrop<A>(s: seq<A>, i: nat)
    requires NoRepeat(s) && i < |s|
    ensures NoRepeat(s[..i] + s[i + 1..]) && s[i] !in s[..i] + s[i + 1..]
    ensures forall x :: x in s <==> x == s[i] || x in s[..i] + s[i + 1..]
  {
    assert s == s[..i] + [s[i]] + s[i + 1..];
  }

  // An order as sorting needs it: "not after" is total and transitive.
  ghost predicate Order<A(!new)>(less: (A, A) -> bool) {
    && (forall a, b :: less(a, b) ==> !less(b, a))
    && (forall a, b, c :: !less(b, a) && !less(c, b) ==> !less(c, a))
  }

  ghost predicate SortedBy<A>(less: (A, A) -> bool, s: seq<A>) {
    forall i, j :: 0 <= i < j < |s| ==> !less(s[j], s[i])
  }

  function InsertBy<A(!new)>(less: (A, A) -> bool, x: A, s: seq<A>): (r: seq<A>)
    requires Order(less) && SortedBy(less, s)
    ensures SortedBy(less, r) && multiset(r) == multiset(s) + multiset{x}
  {
    if s == [] || less(x, s[0]) then [x] + s
    else
      var rest := InsertBy(less, x, s[1..]);
      assert s == [s[0]] + s[1..];
      InsertKeepsFirst(less, x, s, rest);
      [s[0]] + rest
  }

  lemma InsertKeepsFirst<A(!new)>(less: (A, A) -> bool, x: A, s: seq<A>, rest: seq<A>)
    requires s != [] && SortedBy(less, s) && SortedBy(less, rest) && !less(x, s[0])
    requires multiset(rest) == multiset(s[1..]) + multiset{x}
    ensures SortedBy(less, [s[0]] + rest)
  {
    var r := [s[0]] + rest;
    forall i, j | 0 <= i < j < |r|
      ensures !less(r[j], r[i])
    {
      assert r[j] == rest[j - 1] && rest[j - 1] in multiset(rest);
      assert r[j] == x || r[j] in s[1..];
    }
  }

  // Some sort; a library's sort is only known to sort and to keep the elements.
  function SortBy<A(!new)>(less: (A, A) -> bool, s: seq<A>): (r: seq<A>)
    requires Order(less)
    ensures SortedBy(less, r) && multiset(r) == multiset(s)
  {
    if s == [] then []
    else
      assert s == [s[0]] + s[1..];
      InsertBy(less, s[0], SortBy(less, s[1..]))
  }
}
