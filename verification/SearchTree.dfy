// core/search/tree.go: the tree of route patterns, grown in place by Add and searched with backtracking.
module SearchTree {
  import opened Sequences
  import opened Wrappers
  import opened RoutePatterns

  datatype Error = NoError | NotFromRoot | EmptyItem | DupItem | DupSlash

  class Node<T> {
    var item: Option<T>
    var statics: map<string, Node<T>>
    var params: map<string, Node<T>>
    ghost const Label: seq<string>  // the tokens on the way from the root

    constructor (item: Option<T>, ghost path: seq<string>)
      ensures this.item == item && statics == map[] && params == map[] && Label == path
    {
      this.item, statics, params, Label := item, map[], map[], path;
    }

    function GetChildren(token: string): map<string, Node<T>>
      reads this
    {
      if IsParam(token) then params else statics
    }
  }

  class Tree<T(!new)> {
    const root: Node<T>
    ghost var Index: map<seq<string>, Node<T>>
    ghost var Nodes: set<Node<T>>
    ghost var Items: Items<T>  // the registered patterns

    // The children of the node labelled l: by fixed tokens and by parameters.
    ghost predicate Links(l: seq<string>, statics: map<string, Node<T>>, params: map<string, Node<T>>,
                          index: map<seq<string>, Node<T>>)
    {
      && (forall t :: t in statics <==> t != "" && !IsParam(t) && Snoc(l, t) in index)
      && (forall t :: t in params <==> IsParam(t) && Snoc(l, t) in index)
      && (forall t :: t in statics ==> statics[t] == index[Snoc(l, t)])
      && (forall t :: t in params ==> params[t] == index[Snoc(l, t)])
    }

    // A new node changes the links of its parent only, and has no children itself.
    lemma LinksGrow(l: seq<string>, statics: map<string, Node<T>>, params: map<string, Node<T>>,
                    index: map<seq<string>, Node<T>>, at: seq<string>, token: string, child: Node<T>)
      requires Links(l, statics, params, index) && token != ""
      ensures var index' := index[Snoc(at, token) := child];
              if l != at then Links(l, statics, params, index')
              else if IsParam(token) then Links(l, statics, params[token := child], index')
              else Links(l, statics[token := child], params, index')
    {
      hide IsParam;
    }

    lemma LinksNew(index: map<seq<string>, Node<T>>, at: seq<string>, token: string, child: Node<T>)
      requires PrefixClosed(index.Keys) && NoEmptyToken(index.Keys)
      requires Snoc(at, token) !in index && at in index && token != ""
      ensures Links(Snoc(at, token), map[], map[], index[Snoc(at, token) := child])
      ensures PrefixClosed(index[Snoc(at, token) := child].Keys) && NoEmptyToken(index[Snoc(at, token) := child].Keys)
    {
      hide IsParam;
      PrefixClosedGrows(index.Keys, at, token);
      assert index[Snoc(at, token) := child].Keys == index.Keys + {Snoc(at, token)};
    }

    // The node labelled l holds l's item, if l is registered, and links to exactly its children.
    ghost predicate Linked(l: seq<string>)
      reads this, Nodes
    {
      && l in Index && Index[l] in Nodes && Index[l].Label == l
      && Index[l].item == (if l in Items then Some(Items[l]) else None)
      && Links(l, Index[l].statics, Index[l].params, Index)
    }

    ghost predicate NoEmptyToken(keys: set<seq<string>>) {
      forall s, t :: Snoc(s, t) in keys ==> t != ""
    }

    ghost predicate Valid()
      reads this, Nodes
    {
      && PrefixClosed(Index.Keys) && NoEmptyToken(Index.Keys)
      && (forall l {:trigger Linked(l)} :: l in Index || l in Items ==> Linked(l))
      && Index[[]] == root
    }

    lemma IsLinked(l: seq<string>)
      requires Valid() && (l in Index || l in Items)
      ensures Linked(l)
    {
    }

    constructor ()
      ensures Valid() && Items == map[] && fresh(Nodes)
    {
      root := new Node(None, []);
      new;
      Index, Nodes, Items := map[[] := root], {root}, map[];
    }

    // Hangs a new child below the node labelled `at`, among the fixed tokens or among the parameters.
    method Attach(nd: Node<T>, child: Node<T>, token: string, ghost at: seq<string>)
      requires Valid() && at in Index && Index[at] == nd && token != "" && token !in nd.GetChildren(token)
      requires child !in Nodes && child.Label == Snoc(at, token)
      requires child.statics == map[] && child.params == map[] && child.item == None
      modifies this`Index, this`Nodes, nd`statics, nd`params
      ensures Valid() && Nodes == old(Nodes) + {child} && Index == old(Index)[Snoc(at, token) := child]
    {
      hide PrefixClosed, NoEmptyToken, IsParam, Links;
      ghost var below := Snoc(at, token);
      IsLinked(at);
      NotYet(token, at);
      LinksNew(Index, at, token, child);
      if below in Items { IsLinked(below); }
      if IsParam(token) {
        nd.params := nd.params[token := child];
      } else {
        nd.statics := nd.statics[token := child];
      }
      Index, Nodes := Index[below := child], Nodes + {child};
      forall m | m in Index || m in Items
        ensures Linked(m)
      {
        if m != below {
          assert old(Linked(m));
          LinksGrow(m, old(Index[m].statics), old(Index[m].params), old(Index), at, token, child);
        }
      }
    }

    lemma NotYet(token: string, at: seq<string>)
      requires Linked(at) && token != "" && token !in Index[at].GetChildren(token)
      ensures Snoc(at, token) !in Index
    {
    }

    method SetItem(nd: Node<T>, item: T, ghost at: seq<string>)
      requires Valid() && at in Index && Index[at] == nd && nd.item.None?
      modifies this`Items, nd`item
      ensures Valid() && at !in old(Items) && Items == old(Items)[at := item]
    {
      IsLinked(at);
      nd.item := Some(item);
      Items := Items[at := item];
      forall m | m in Index || m in Items
        ensures Linked(m)
      {
        assert old(Linked(m));
      }
    }

    // The child of nd for a token, made if there is none.
    method Descend(nd: Node<T>, token: string, ghost at: seq<string>) returns (child: Node<T>)
      requires Valid() && at in Index && Index[at] == nd && token != ""
      modifies this`Index, this`Nodes, nd`statics, nd`params
      ensures Valid() && fresh(Nodes - old(Nodes)) && old(Nodes) <= Nodes
      ensures Snoc(at, token) in Index && child == Index[Snoc(at, token)]
    {
      IsLinked(at);
      var children := nd.GetChildren(token);
      if token in children {
        child := children[token];
      } else {
        child := new Node(None, Snoc(at, token));
        Attach(nd, child, token, at);
      }
    }

    // What adding the segments of a route below a node does to the registered patterns.
    ghost predicate Added(before: Items<T>, after: Items<T>, at: seq<string>, parsed: Parsed, item: T, err: Error) {
      match parsed
      case DupSlash => err == Error.DupSlash && after == before
      case Pattern(tokens) =>
        if at + tokens in before then err == DupItem && after == before
        else err == NoError && after == before[at + tokens := item]
    }

    method AddBelow(nd: Node<T>, route: string, item: T, ghost at: seq<string>) returns (err: Error)
      requires Valid() && at in Index && Index[at] == nd
      modifies this, Nodes
      ensures Valid() && fresh(Nodes - old(Nodes))
      ensures Added(old(Items), Items, at, Parse(Split(route)), item, err)
      decreases |route|
    {
      hide PrefixClosed, NoEmptyToken, Links, IsParam, Parse, Split, FirstSlash;
      ParseStep(route);
      IsLinked(at);
      assert at + [] == at;
      if |route| == 0 {
        if nd.item.Some? {
          return DupItem;
        }
        SetItem(nd, item, at);
        return NoError;
      }
      if route[0] == '/' {
        return Error.DupSlash;
      }
      var i := FirstSlash(route);
      var child := Descend(nd, route[..i], at);
      IsLinked(Snoc(at, route[..i]));
      assert Snoc(at, route[..i]) == at + [route[..i]];
      if i < |route| {
        err := AddBelow(child, route[i + 1..], item, Snoc(at, route[..i]));
        ghost var rest := Parse(Split(route[i + 1..]));
        if rest.Pattern? {
          AppendCons(at, route[..i], rest.tokens);
        }
      } else {
        assert route[..i] == route;
        if child.item.Some? {
          return DupItem;
        }
        SetItem(child, item, Snoc(at, route));
        return NoError;
      }
    }

    // Registering a route: `item` is None for the nil that the source refuses.
    method Add(route: string, item: Option<T>) returns (err: Error)
      requires Valid()
      modifies this, Nodes
      ensures Valid() && fresh(Nodes - old(Nodes))
      ensures route == "" || route[0] != '/' ==> err == NotFromRoot && Items == old(Items)
      ensures route != "" && route[0] == '/' && item.None? ==> err == EmptyItem && Items == old(Items)
      ensures route != "" && route[0] == '/' && item.Some? ==>
                Added(old(Items), Items, [], Parse(Split(route[1..])), item.value, err)
      ensures err == NoError <==>
                && route != "" && route[0] == '/' && item.Some?
                && Parse(Split(route[1..])).Pattern? && Parse(Split(route[1..])).tokens !in old(Items)
      ensures err == NoError ==> Items == old(Items)[Parse(Split(route[1..])).tokens := item.value]
      ensures err != NoError ==> Items == old(Items)
    {
      hide Parse, Split;
      assert forall tokens: seq<string> :: [] + tokens == tokens;
      if |route| == 0 || route[0] != '/' {
        return NotFromRoot;
      }
      if item.None? {
        return EmptyItem;
      }
      err := AddBelow(root, route[1..], item.value, []);
    }

    // Every registered pattern below `at` goes through one of the node's children, or ends here.
    lemma {:induction false} PrefixInIndex(at: seq<string>, rest: seq<string>)
      requires Valid() && at + rest in Index && rest != []
      ensures Snoc(at, rest[0]) in Index
      decreases |rest|
    {
      var last := |rest| - 1;
      if last == 0 {
        assert at + rest == Snoc(at, rest[0]);
      } else {
        assert at + rest == Snoc(at + rest[..last], rest[last]);
        PrefixInIndex(at, rest[..last]);
      }
    }

    lemma GoesThroughChild(at: seq<string>, rest: seq<string>)
      requires Valid() && at in Index && at + rest in Items && rest != []
      ensures if IsParam(rest[0]) then rest[0] in Index[at].params else rest[0] in Index[at].statics
    {
      IsLinked(at + rest);
      PrefixInIndex(at, rest);
      IsLinked(at);
    }

    // No match goes through the child for a token.
    ghost predicate NoMatchBy(at: seq<string>, token: string, segs: seq<string>)
      requires segs != []
      reads this
    {
      !(Covers(token, segs[0]) && MatchBelow(Items, at + [token], segs[1..]))
    }

    // What a search below a node has to answer.
    ghost predicate Answers(at: seq<string>, segs: seq<string>, found: bool, item: Option<T>,
                            params: map<string, string>, rest: seq<string>)
      reads this
    {
      if found then Preferred(Items, at, rest, segs) && item == Some(Items[at + rest]) && params == Bindings(rest, segs)
      else !MatchBelow(Items, at, segs)
    }

    lemma NothingHere(at: seq<string>, segs: seq<string>)
      requires Valid() && at in Index && segs != []
      requires at in Items ==> segs != [""]
      requires forall t :: t in Index[at].statics ==> NoMatchBy(at, t, segs)
      ensures NoFixedMatch(Items, at, [], segs)
      ensures (forall t :: t in Index[at].params ==> NoMatchBy(at, t, segs)) ==> !MatchBelow(Items, at, segs)
    {
      assert at + [] == at;
      assert |segs| == 1 && segs[0] == "" ==> segs == [""];
      forall rest: seq<string>
        ensures [] + rest == rest
      {
      }
      forall rest | at + rest in Items && Matches(rest, segs)
        ensures rest != [] && IsParam(rest[0]) && rest[0] in Index[at].params && !NoMatchBy(at, rest[0], segs)
      {
        if rest == [] {
          assert false;
        }
        GoesThroughChild(at, rest);
        MatchBelowSplit(Items, at, segs, rest);
      }
    }

    // The function that next passes to forEach: tries one child.
    method TryChild(child: Node<T>, k: string, route: string, ghost at: seq<string>)
      returns (found: bool, item: Option<T>, params: map<string, string>, ghost rest: seq<string>)
      requires Valid() && k != "" && at + [k] in Index && child == Index[at + [k]]
      ensures found ==> && Covers(k, Split(route)[0]) && Preferred(Items, at + [k], rest, Split(route)[1..])
                        && item == Some(Items[at + [k] + rest]) && params == Bindings([k] + rest, Split(route))
      ensures !found ==> NoMatchBy(at, k, Split(route))
      decreases |route|, 0
    {
      hide PrefixClosed, NoEmptyToken, Links, Linked, FirstSlash, Justified;
      var i := FirstSlash(route);
      var token := route[..i];
      found, item, params, rest := false, None, map[], [];
      if !(k[0] == ':' || k == token) {
        return;
      }
      if i < |route| {
        found, item, params, rest := Next(child, route[i + 1..], at + [k]);
      } else {
        LastSegment(at + [k]);
        assert token == route;
        found, item := child.item.Some?, child.item;
      }
      if found && k[0] == ':' {
        params := params[k[1..] := token];
      }
      assert ([k] + rest)[1..] == rest;
    }

    // Behind the last segment only the pattern of the node itself matches.
    lemma LastSegment(at: seq<string>)
      requires Valid() && at in Index
      ensures if Index[at].item.Some? then Answers(at, [], true, Index[at].item, map[], [])
              else !MatchBelow(Items, at, [])
    {
      IsLinked(at);
      assert at + [] == at;
    }

    method Next(n: Node<T>, route: string, ghost at: seq<string>)
      returns (found: bool, item: Option<T>, params: map<string, string>, ghost rest: seq<string>)
      requires Valid() && at in Index && n == Index[at]
      ensures Answers(at, Split(route), found, item, params, rest)
      decreases |route|, 1
    {
      hide PrefixClosed, NoEmptyToken, Preferred, Split, FirstSlash;
      ghost var segs := Split(route);
      IsLinked(at);
      assert at + [] == at;
      if |route| == 0 && n.item.Some? {
        EndsHere(at);
        return true, n.item, map[], [];
      }
      EmptyRoute(route);
      ghost var k0: string;
      var left := n.statics.Keys;
      while left != {}
        invariant left <= n.statics.Keys
        invariant forall t :: t in n.statics && t !in left ==> NoMatchBy(at, t, segs)
      {
        var k :| k in left;
        Child(at, k);
        found, item, params, rest := TryChild(n.statics[k], k, route, at);
        if found {
          PreferredCons(Items, at, k, rest, segs);
          AppendCons(at, k, rest);
          rest := [k] + rest;
          return;
        }
        left := left - {k};
      }
      NothingHere(at, segs);
      left := n.params.Keys;
      while left != {}
        invariant left <= n.params.Keys
        invariant forall t :: t in n.params && t !in left ==> NoMatchBy(at, t, segs)
      {
        var k :| k in left;
        Child(at, k);
        found, item, params, rest := TryChild(n.params[k], k, route, at);
        if found {
          PreferredCons(Items, at, k, rest, segs);
          AppendCons(at, k, rest);
          rest := [k] + rest;
          return;
        }
        left := left - {k};
      }
      NothingHere(at, segs);
      return false, None, map[], [];
    }

    lemma Child(at: seq<string>, k: string)
      requires Valid() && at in Index && (k in Index[at].statics || k in Index[at].params)
      ensures k != "" && at + [k] in Index && Snoc(at, k) == at + [k]
      ensures k in Index[at].statics ==> !IsParam(k) && Index[at].statics[k] == Index[at + [k]]
      ensures k in Index[at].params ==> IsParam(k) && Index[at].params[k] == Index[at + [k]]
    {
      IsLinked(at);
    }

    lemma EndsHere(at: seq<string>)
      requires Valid() && at in Items
      ensures Answers(at, Split(""), true, Some(Items[at]), map[], [])
    {
      assert at + [] == at;
      assert Split("") == [""];
    }

    lemma EmptyRoute(route: string)
      ensures Split(route) == [""] <==> route == ""
    {
    }

    // A search finds something exactly if a registered pattern matches, and then a preferred one, its
    // item and its bindings. Which one of several parameters of a node is preferred is left open.
    method Search(route: string)
      returns (found: bool, item: Option<T>, params: map<string, string>, ghost pattern: seq<string>)
      requires Valid()
      ensures found <==> route != "" && route[0] == '/' && MatchBelow(Items, [], Split(route[1..]))
      ensures found ==> && Preferred(Items, [], pattern, Split(route[1..])) && pattern in Items
                        && item == Some(Items[pattern]) && params == Bindings(pattern, Split(route[1..]))
      ensures forall p :: Fixed(p) && p in Items && (route == "/" + Join(p) || route == "/" + Join(p) + "/") ==>
                found && pattern == p && item == Some(Items[p])
    {
      hide Linked;
      if |route| == 0 || route[0] != '/' {
        return false, None, map[], [];
      }
      found, item, params, pattern := Next(root, route[1..], []);
      assert [] + pattern == pattern;
      forall p | Fixed(p) && p in Items && (route == "/" + Join(p) || route == "/" + Join(p) + "/")
        ensures found && pattern == p
      {
        FixedIsFound(route, p, pattern);
      }
    }

    lemma TokensNotEmpty(pattern: seq<string>)
      requires Valid() && pattern in Items
      ensures "" !in pattern
    {
      hide PrefixClosed, Links;
      IsLinked(pattern);
      forall i | 0 <= i < |pattern|
        ensures pattern[i] != ""
      {
        assert pattern[..i] + pattern[i..] == pattern;
        PrefixInIndex(pattern[..i], pattern[i..]);
      }
    }

    lemma PreferredIsRegistered(pattern: seq<string>, segs: seq<string>)
      requires Preferred(Items, [], pattern, segs)
      ensures pattern in Items
    {
      assert [] + pattern == pattern;
    }

    lemma FixedIsFound(route: string, p: seq<string>, pattern: seq<string>)
      requires Valid() && Fixed(p) && p in Items && (route == "/" + Join(p) || route == "/" + Join(p) + "/")
      ensures MatchBelow(Items, [], Split(route[1..]))
      ensures Preferred(Items, [], pattern, Split(route[1..])) ==> pattern == p
    {
      hide Preferred, Split, Matches;
      assert route[1..] == Join(p) || route[1..] == Join(p) + "/";
      FixedMatches(p, route[1..]);
      assert [] + p in Items by { assert [] + p == p; }
      if Preferred(Items, [], pattern, Split(route[1..])) {
        PreferredIsRegistered(pattern, Split(route[1..]));
        TokensNotEmpty(pattern);
        FixedWins(Items, p, pattern, Split(route[1..]));
      }
    }
  }
}
