// core/stringx/node.go: an Aho-Corasick automaton whose nodes are linked in place. `Add` grows the
// trie, `Build` sets every fail link breadth first, `Find` runs the automaton over a text.
module KeywordNode {
  import opened Sequences
  import opened KeywordSpec

  // The root node carries, for the proof only, an index of the whole trie: the label of a node is
  // the string that leads to it from the root.
  class Node {
    var children: map<char, Node>
    var fail: Node?
    var depth: nat
    var end: bool
    ghost const Label: seq<char>
    ghost var Index: map<seq<char>, Node>
    ghost var Nodes: set<Node>
    ghost var Words: set<seq<char>>  // the words added so far

    constructor Child(depth: nat, ghost path: seq<char>)
      ensures children == map[] && fail == null && this.depth == depth && !end && Label == path
    {
      children, fail, end := map[], null, false;
      this.depth := depth;
      Label := path;
    }

    constructor ()
      ensures Shape() && Words == {} && fail == null && Nodes == {this}
    {
      children, fail, depth, end := map[], null, 0, false;
      Label := [];
      new;
      Index, Nodes, Words := map[[] := this], {this}, {};
      assert Index.Keys == {[]};
    }

    // The node labelled l is known under that label and linked to exactly its children in the trie.
    ghost predicate Linked(l: seq<char>)
      reads this, Nodes
    {
      && l in Index && Index[l] in Nodes
      && Index[l].Label == l && Index[l].depth == |l| && (Index[l].end <==> l in Words)
      && (forall c :: c in Index[l].children <==> Snoc(l, c) in Index)
      && (forall c :: c in Index[l].children ==> Index[l].children[c] == Index[Snoc(l, c)])
    }

    // Called on the root: the nodes form a trie with this root.
    ghost predicate Shape()
      reads this, Nodes
    {
      && PrefixClosed(Index.Keys)
      && (forall l {:trigger Linked(l)} :: l in Index || l in Words ==> Linked(l))
      && [] in Index && Index[[]] == this && !end
    }

    lemma IsLinked(l: seq<char>)
      requires Shape() && (l in Index || l in Words)
      ensures Linked(l)
    {
    }

    lemma WordsInIndex()
      requires Shape()
      ensures Words <= Index.Keys
    {
      forall w | w in Words
        ensures w in Index
      {
        IsLinked(w);
      }
    }

    // The fail link of the node labelled l goes to the longest proper suffix of l that is in the trie.
    ghost predicate FailSet(l: seq<char>)
      requires l != []
      reads this, Nodes
    {
      var t := FailLabel(Index.Keys, l);
      l in Index && t in Index && Index[l] in Nodes && Index[l].fail == Index[t]
    }

    // What Find needs: a trie in which every fail link is set.
    ghost predicate Built()
      reads this, Nodes
    {
      && Shape() && fail == null
      && forall l {:trigger FailSet(l)} :: l in Index && l != [] ==> FailSet(l)
    }

    // Hangs a new child for c below the node labelled l; called on the root.
    method Attach(nd: Node, child: Node, ghost l: seq<char>, c: char)
      requires Shape() && l in Index && Index[l] == nd && c !in nd.children
      requires child !in Nodes && child.Label == Snoc(l, c) && child.children == map[]
               && child.depth == |l| + 1 && !child.end
      modifies this, nd`children
      ensures Shape() && Nodes == old(Nodes) + {child} && Index == old(Index)[Snoc(l, c) := child]
      ensures fail == old(fail) && Words == old(Words)
    {
      hide PrefixClosed;
      ghost var below := Snoc(l, c);
      IsLinked(l);
      PrefixClosedGrows(Index.Keys, l, c);
      if below in Words { IsLinked(below); }
      nd.children, Index, Nodes := nd.children[c := child], Index[below := child], Nodes + {child};
      assert Index.Keys == old(Index.Keys) + {below};
      forall m | m in Index || m in Words
        ensures Linked(m)
      {
        if m != below {
          assert old(Linked(m));
        }
      }
    }

    // Marks the node labelled l as the end of a word; called on the root.
    method Mark(nd: Node, ghost l: seq<char>)
      requires Shape() && l in Index && Index[l] == nd && l != []
      modifies this, nd
      ensures Shape() && Nodes == old(Nodes) && Index == old(Index) && fail == old(fail)
      ensures Words == old(Words) + {l}
    {
      assert Linked(l) && Linked([]);
      nd.end, Words := true, Words + {l};
      forall m | m in Index || m in Words
        ensures Linked(m)
      {
        assert old(Linked(m));
      }
    }

    method Add(word: seq<char>)
      requires Shape()
      modifies this, Nodes
      ensures Shape() && fresh(Nodes - old(Nodes)) && fail == old(fail)
      ensures Words == old(Words) + (if word == [] then {} else {word})
    {
      if |word| == 0 {
        return;
      }
      var nd := this;
      for i := 0 to |word|
        invariant Shape() && fresh(Nodes - old(Nodes)) && fail == old(fail)
        invariant word[..i] in Index && nd == Index[word[..i]]
        invariant Words == old(Words)
      {
        var c := word[i];
        assert word[..i + 1] == Snoc(word[..i], c);
        assert Linked(word[..i]);
        if c in nd.children {
          nd := nd.children[c];
        } else {
          var child := new Node.Child(i + 1, word[..i + 1]);
          Attach(nd, child, word[..i], c);
          nd := child;
        }
      }
      assert word[..|word|] == word;
      assert Linked(word);
      Mark(nd, word);
    }

    // Where the fail link of nd's child for key belongs, found by following nd's own fail links.
    method FailTarget(nd: Node, key: char, ghost at: seq<char>) returns (target: Node)
      requires Shape() && fail == null
      requires at in Index && Index[at] == nd && at != []
      requires FailsSet(|at|)
      ensures var t := FailLabel(Index.Keys, Snoc(at, key)); t in Index && target == Index[t]
    {
      hide FailLabel, Longest, PrefixClosed;
      ghost var t := FailLabel(Index.Keys, Snoc(at, key));
      LeadsFrom(Index.Keys, at, key);
      ghost var m := at;
      var cur: Node? := nd;
      assert Linked([]);
      while cur != null
        invariant m in Index && |m| <= |at| && cur == Index[m]
        invariant Leads(Index.Keys, m, key, t)
        decreases |m|
      {
        if cur.fail == null {
          assert m != [] ==> FailSet(m);
          return this;
        }
        IsLinked(m);
        assert FailSet(m);
        LeadsStep(Index.Keys, m, key, t);
        ghost var f := FailLabel(Index.Keys, m);
        assert f in Index && cur.fail == Index[f];
        m := f;
        IsLinked(m);
        if key in cur.fail.children {
          return cur.fail.children[key];
        }
        cur := cur.fail;
      }
      assert false;
    }

    // Points the fail link of the node labelled s at the node it belongs to; no other link changes.
    method SetFail(child: Node, target: Node, ghost s: seq<char>)
      requires Shape() && fail == null && s != [] && s in Index && Index[s] == child
      requires FailLabel(Index.Keys, s) in Index && target == Index[FailLabel(Index.Keys, s)]
      modifies child`fail
      ensures Shape() && fail == null && FailSet(s)
      ensures forall l {:trigger FailSet(l)} :: l != [] && old(FailSet(l)) ==> FailSet(l)
    {
      hide FailLabel, Longest, Snoc, PrefixClosed;
      IsLinked(s);
      IsLinked([]);
      child.fail := target;
      forall m | m in Index || m in Words
        ensures Linked(m)
      {
        assert old(Linked(m));
      }
      forall l | l != [] && old(FailSet(l))
        ensures FailSet(l)
      {
        assert old(Linked(l));
      }
    }

    // The nodes of the queue are those labelled, and their fail links are set.
    ghost predicate Queued(nodes: seq<Node>, labels: seq<seq<char>>)
      reads this, Nodes
    {
      && |nodes| == |labels|
      && (forall i :: 0 <= i < |nodes| ==> labels[i] in Index && nodes[i] == Index[labels[i]])
      && (forall i :: 0 <= i < |labels| ==> labels[i] != [] && FailSet(labels[i]))
    }

    // So are those of all nodes expanded before.
    ghost predicate Expanded(done: set<seq<char>>)
      reads this, Nodes
    {
      forall l {:trigger FailSet(l)} :: l in done && l != [] ==> FailSet(l)
    }

    // Fail links are set for every node no deeper than the one being expanded.
    ghost predicate FailsSet(depth: nat)
      reads this, Nodes
    {
      forall l {:trigger FailSet(l)} :: l in Index && l != [] && |l| <= depth ==> FailSet(l)
    }

    lemma ShortFailsSet(nodes: seq<Node>, at: seq<char>, done: set<seq<char>>, labels: seq<seq<char>>, left: set<char>)
      requires Frontier(Index.Keys, done, labels, at, left) && Queued(nodes, labels) && Expanded(done)
      ensures FailsSet(|at|)
    {
      forall l | l in Index && l != [] && |l| <= |at|
        ensures FailSet(l)
      {
        ShortKeysMet(Index.Keys, done, labels, at, left, l);
      }
    }

    lemma AllFailsSet(at: seq<char>, done: set<seq<char>>)
      requires Frontier(Index.Keys, done, [], at, {}) && Expanded(done)
      ensures forall l {:trigger FailSet(l)} :: l in Index && l != [] ==> FailSet(l)
    {
      forall l | l in Index && l != []
        ensures FailSet(l)
      {
        AllKeysMet(Index.Keys, done, at, l);
      }
    }

    // Gives nd's child for key its fail link.
    method Link(nd: Node, key: char, ghost at: seq<char>) returns (child: Node)
      requires Shape() && fail == null && at in Index && Index[at] == nd && key in nd.children && FailsSet(|at|)
      modifies Nodes`fail
      ensures Shape() && fail == null && Snoc(at, key) in Index && child == Index[Snoc(at, key)]
              && FailSet(Snoc(at, key))
      ensures forall l {:trigger FailSet(l)} :: l != [] && old(FailSet(l)) ==> FailSet(l)
    {
      IsLinked(at);
      IsLinked([]);
      child := nd.children[key];
      var target := this;
      if nd == this {
        assert Snoc(at, key)[1..] == [];
      } else {
        target := FailTarget(nd, key, at);
      }
      IsLinked(Snoc(at, key));
      SetFail(child, target, Snoc(at, key));
    }

    // One round of the breadth-first loop: the children of nd get their fail links and join the queue.
    method Expand(nd: Node, nodes: seq<Node>, ghost at: seq<char>, ghost done: set<seq<char>>,
                  ghost labels: seq<seq<char>>)
      returns (nodes': seq<Node>, ghost labels': seq<seq<char>>)
      requires Shape() && fail == null && at in Index && Index[at] == nd
      requires Frontier(Index.Keys, done, labels, at, nd.children.Keys)
      requires Queued(nodes, labels) && Expanded(done)
      modifies Nodes`fail
      ensures Shape() && fail == null
      ensures Frontier(Index.Keys, done, labels', at, {})
      ensures Queued(nodes', labels') && Expanded(done)
    {
      hide Frontier, Shape, FailSet, FailsSet, Linked;
      var left := nd.children.Keys;
      nodes', labels' := nodes, labels;
      while left != {}
        invariant Shape() && fail == null && left <= nd.children.Keys
        invariant Frontier(Index.Keys, done, labels', at, left)
        invariant Queued(nodes', labels') && Expanded(done)
      {
        var key :| key in left;
        ShortFailsSet(nodes', at, done, labels', left);
        var child := Link(nd, key, at);
        Enqueue(Index.Keys, done, labels', at, left, key);
        nodes', labels', left := nodes' + [child], labels' + [Snoc(at, key)], left - {key};
      }
    }

    lemma NextChildren(l: seq<char>)
      requires Shape() && l in Index
      ensures forall c :: c in Index[l].children.Keys <==> Snoc(l, c) in Index.Keys
    {
      IsLinked(l);
    }

    // Takes one node off the queue and expands it.
    method Advance(nodes: seq<Node>, ghost at: seq<char>, ghost done: set<seq<char>>, ghost labels: seq<seq<char>>)
      returns (nodes': seq<Node>, ghost labels': seq<seq<char>>)
      requires Shape() && fail == null && nodes != []
      requires Frontier(Index.Keys, done, labels, at, {}) && Queued(nodes, labels) && Expanded(done)
      modifies Nodes`fail
      ensures Shape() && fail == null && labels[0] !in done && labels[0] in Index
      ensures Frontier(Index.Keys, done + {labels[0]}, labels', labels[0], {})
      ensures Queued(nodes', labels') && Expanded(done + {labels[0]})
    {
      hide Frontier, Shape, FailSet;
      var nd := nodes[0];
      NextChildren(labels[0]);
      Dequeue(Index.Keys, done, labels, at, nd.children.Keys);
      nodes', labels' := Expand(nd, nodes[1..], labels[0], done + {labels[0]}, labels[1..]);
    }

    lemma BuildStart()
      requires Shape()
      ensures [] in Index && Index[[]] == this
      ensures Frontier(Index.Keys, {[]}, [], [], children.Keys) && Queued([], []) && Expanded({[]})
    {
      IsLinked([]);
    }

    method Build()
      requires Shape() && fail == null
      modifies Nodes`fail
      ensures Built() && Words == old(Words)
    {
      hide Frontier, Expanded, Shape;
      ghost var done, at: seq<char>, labels: seq<seq<char>> := {[]}, [], [];
      BuildStart();
      var nodes: seq<Node>;
      nodes, labels := Expand(this, [], at, done, labels);
      while |nodes| > 0
        invariant Shape() && fail == null
        invariant Frontier(Index.Keys, done, labels, at, {}) && Queued(nodes, labels) && Expanded(done)
        decreases Index.Keys - done
      {
        ghost var front := labels[0];
        nodes, labels := Advance(nodes, at, done, labels);
        done, at := done + {front}, front;
      }
      AllFailsSet(at, done);
    }

    // The automaton's transition from cur on c: the next state, and null for "no child" as Find sees it.
    method Next(cur: Node, c: char, ghost s: seq<char>) returns (next: Node, child: Node?)
      requires Built() && s in Index && cur == Index[s]
      ensures var t := Longest(Index.Keys, Snoc(s, c));
              t in Index && next == Index[t] && child == if t == [] then null else next
    {
      hide FailLabel, Longest, PrefixClosed;
      IsLinked(s);
      StateStep(Index.Keys, s, c);
      ghost var t := Longest(Index.Keys, Snoc(s, c));
      next := cur;
      if c in cur.children {
        child := cur.children[c];
        next := child;
      } else {
        child := null;
        ghost var m := s;
        while next != this
          invariant m in Index && next == Index[m] && child == null && Leads(Index.Keys, m, c, t)
          decreases |m|
        {
          IsLinked([]);
          IsFailSet(m);
          LeadsStep(Index.Keys, m, c, t);
          next, m := next.fail, FailLabel(Index.Keys, m);
          IsLinked(m);
          if c in next.children {
            child := next.children[c];
            next := child;
            break;
          }
        }
        if child == null {
          IsLinked(m);
          IsLinked([]);
        }
      }
    }

    lemma IsFailSet(l: seq<char>)
      requires Built() && l in Index && l != []
      ensures FailSet(l)
    {
    }

    // Follows the fail links from the state labelled s and adds every word that ends at `stop`.
    method Report(state: Node, stop: nat, found: seq<Scope>, ghost words: set<seq<char>>, ghost chars: seq<char>,
                  ghost s: seq<char>, ghost all: seq<Scope>) returns (scopes: seq<Scope>)
      requires Built() && s in Index && state == Index[s] && words == Words
      requires |s| <= stop <= |chars| && s == chars[stop - |s|..stop]
      requires all == found + EndingAt(words, chars, stop, stop - |s|)
      ensures scopes == all
    {
      hide FailLabel, Longest, PrefixClosed;
      WordsInIndex();
      ghost var keys, m := Index.Keys, s;
      var child := state;
      scopes := found;
      while child != this
        invariant m in Index && child == Index[m] && |m| <= stop && m == chars[stop - |m|..stop]
        invariant scopes + EndingAt(words, chars, stop, stop - |m|) == all
        decreases |m|
      {
        IsLinked(m);
        IsLinked([]);
        IsFailSet(m);
        ReportMore(keys, words, chars, stop, m, scopes);
        if child.end {
          scopes := scopes + [Scope(stop - child.depth, stop)];
        }
        child, m := child.fail, FailLabel(keys, m);
      }
      IsLinked(m);
      IsLinked([]);
    }

    // cur is the automaton's state after the given text: its longest suffix that is in the trie.
    ghost predicate InState(cur: Node, text: seq<char>)
      reads this
    {
      var s := Longest(Index.Keys, text);
      s in Index && cur == Index[s]
    }

    lemma AtStart(chars: seq<char>)
      requires Built()
      ensures InState(this, chars[..0]) && Occurrences(Words, chars, 0) == [] && chars[..|chars|] == chars
    {
      IsLinked([]);
    }

    lemma AfterChar(i: nat, chars: seq<char>, found: seq<Scope>)
      requires Built() && i < |chars| && found == Occurrences(Words, chars, i)
      ensures var t := Longest(Index.Keys, chars[..i + 1]);
              && t == Longest(Index.Keys, Snoc(Longest(Index.Keys, chars[..i]), chars[i]))
              && |t| <= i + 1 && t == chars[i + 1 - |t|..i + 1]
              && Occurrences(Words, chars, i + 1) == found + EndingAt(Words, chars, i + 1, i + 1 - |t|)
              && (t == [] ==> Occurrences(Words, chars, i + 1) == found)
    {
      WordsInIndex();
      TextStep(Index.Keys, Words, chars, i, found);
    }

    // Reads one character: moves the state on and reports the words that end here.
    method Read(cur: Node, i: nat, chars: seq<char>, found: seq<Scope>) returns (next: Node, scopes: seq<Scope>)
      requires Built() && i < |chars| && InState(cur, chars[..i])
      requires found == Occurrences(Words, chars, i)
      ensures InState(next, chars[..i + 1])
      ensures scopes == Occurrences(Words, chars, i + 1)
    {
      hide Built, Longest, Snoc, Occurrences, EndingAt;
      ghost var s := Longest(Index.Keys, chars[..i]);
      ghost var t := Longest(Index.Keys, chars[..i + 1]);
      AfterChar(i, chars, found);
      var child: Node?;
      next, child := Next(cur, chars[i], s);
      scopes := found;
      if child != null {
        scopes := Report(child, i + 1, found, Words, chars, t, Occurrences(Words, chars, i + 1));
      }
    }

    // The automaton finds every occurrence of every word, in the order of the naive double loop.
    method Find(chars: seq<char>) returns (scopes: seq<Scope>)
      requires Built()
      ensures scopes == Occurrences(Words, chars, |chars|)
    {
      hide *;
      scopes := [];
      var cur := this;
      AtStart(chars);
      for i := 0 to |chars|
        invariant InState(cur, chars[..i])
        invariant scopes == Occurrences(Words, chars, i)
      {
        cur, scopes := Read(cur, i, chars, scopes);
      }
    }
  }
}
