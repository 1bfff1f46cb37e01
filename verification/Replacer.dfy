// core/stringx/replacer.go: replacing keywords by sorting the automaton's scopes.
module Replacer {
  import opened Sequences
  import opened KeywordSpec
  import opened KeywordNode

  const REPLACE_TIMES := 2

  type Mapping = map<seq<char>, seq<char>>

  // The words that the automaton is built from: an empty key is never added.
  ghost function Keys(mapping: Mapping): set<seq<char>> {
    set k | k in mapping && k != []
  }

  // The end of the longest key that starts at `from` and ends at `until` or before, or `from` if there is none.
  ghost function LongestEnd(mapping: Mapping, text: seq<char>, from: nat, until: nat): (end: nat)
    requires from <= until <= |text|
    ensures from <= end <= until
    ensures end == from || OccursAt(Keys(mapping), text, from, end)
    ensures forall e :: end < e <= until ==> !OccursAt(Keys(mapping), text, from, e)
    decreases until
  {
    if from == until then from
    else if OccursAt(Keys(mapping), text, from, until) then until
    else LongestEnd(mapping, text, from, until - 1)
  }

  // The leftmost-longest rewrite: read from left to right, at each position replace the longest key
  // that starts there and go on after it, or keep the character if no key starts there.
  ghost function Rewrite(mapping: Mapping, text: seq<char>, from: nat): seq<char>
    requires from <= |text|
    decreases |text| - from
  {
    if from == |text| then []
    else
      var end := LongestEnd(mapping, text, from, |text|);
      if from < end then mapping[text[from..end]] + Rewrite(mapping, text, end)
      else [text[from]] + Rewrite(mapping, text, from + 1)
  }

  lemma Cut(text: seq<char>, from: nat, until: nat)
    requires from < until <= |text|
    ensures text[from..until] == [text[from]] + text[from + 1..until]
    ensures forall rest: seq<char> {:trigger text[from..until] + rest} ::
              [text[from]] + (text[from + 1..until] + rest) == text[from..until] + rest
  {
  }

  // A stretch where no key starts is copied.
  lemma {:induction false} RewriteCopies(mapping: Mapping, text: seq<char>, from: nat, until: nat)
    requires from <= until <= |text|
    requires forall p: nat, e: nat :: from <= p < until ==> !OccursAt(Keys(mapping), text, p, e)
    ensures Rewrite(mapping, text, from) == text[from..until] + Rewrite(mapping, text, until)
    decreases until - from
  {
    if from < until {
      RewriteCopies(mapping, text, from + 1, until);
      Cut(text, from, until);
    }
  }

  // Without any key in the text the rewrite is the text itself.
  lemma RewriteNothing(mapping: Mapping, text: seq<char>)
    requires forall s: Scope :: !OccursAt(Keys(mapping), text, s.start, s.stop)
    ensures Rewrite(mapping, text, 0) == text
  {
    forall p: nat, e: nat | 0 <= p < |text|
      ensures !OccursAt(Keys(mapping), text, p, e)
    {
      var s := Scope(p, e);
      assert !OccursAt(Keys(mapping), text, s.start, s.stop);
    }
    RewriteCopies(mapping, text, 0, |text|);
  }

  predicate Less(a: Scope, b: Scope) {
    a.start < b.start || (a.start == b.start && a.stop > b.stop)
  }

  ghost predicate Sorted(scopes: seq<Scope>) {
    SortedBy(Less, scopes)
  }

  function Sort(scopes: seq<Scope>): (r: seq<Scope>)
    ensures Sorted(r) && multiset(r) == multiset(scopes)
  {
    SortBy(Less, scopes)
  }

  class Replacer {
    const root: Node
    const mapping: Mapping

    ghost predicate Valid()
      reads this, root, root.Nodes
    {
      root.Built() && root.Words == Keys(mapping)
    }

    constructor (mapping: Mapping)
      ensures Valid() && this.mapping == mapping
    {
      var n := new Node();
      var left := mapping.Keys;
      while left != {}
        invariant fresh(n) && n.Shape() && n.fail == null && fresh(n.Nodes) && left <= mapping.Keys
        invariant n.Words == set k | k in mapping && k !in left && k != []
      {
        var k :| k in left;
        n.Add(k);
        left := left - {k};
      }
      n.Build();
      root, this.mapping := n, mapping;
    }

    // Every occurrence at or after `index` is still among the scopes to come.
    ghost predicate Ahead(text: seq<char>, index: nat, scopes: seq<Scope>) {
      forall s: Scope :: index <= s.start && OccursAt(Keys(mapping), text, s.start, s.stop) ==> s in scopes
    }

    // The first of the sorted scopes is the leftmost-longest occurrence from `index` on.
    lemma FirstIsLeftmostLongest(text: seq<char>, index: nat, scopes: seq<Scope>)
      requires index <= |text| && scopes != [] && Sorted(scopes) && Ahead(text, index, scopes)
      requires index <= scopes[0].start && OccursAt(Keys(mapping), text, scopes[0].start, scopes[0].stop)
      ensures var s := scopes[0];
              Rewrite(mapping, text, index) ==
              text[index..s.start] + mapping[text[s.start..s.stop]] + Rewrite(mapping, text, s.stop)
    {
      var s := scopes[0];
      forall p: nat, e: nat | index <= p < s.start
        ensures !OccursAt(Keys(mapping), text, p, e)
      {
        if OccursAt(Keys(mapping), text, p, e) {
          assert Scope(p, e) in scopes;
          assert Less(Scope(p, e), s);
        }
      }
      RewriteCopies(mapping, text, index, s.start);
      var end := LongestEnd(mapping, text, s.start, |text|);
      if end != s.stop {
        assert Scope(s.start, end) in scopes;
        assert Less(Scope(s.start, end), s);
      }
    }

    lemma NothingAhead(text: seq<char>, index: nat)
      requires index <= |text| && Ahead(text, index, [])
      ensures Rewrite(mapping, text, index) == text[index..]
    {
      forall p: nat, e: nat | index <= p < |text|
        ensures !OccursAt(Keys(mapping), text, p, e)
      {
        var s := Scope(p, e);
        assert OccursAt(Keys(mapping), text, s.start, s.stop) ==> s in [];
      }
      RewriteCopies(mapping, text, index, |text|);
      assert text[index..|text|] == text[index..];
    }

    lemma StillAhead(text: seq<char>, index: nat, scopes: seq<Scope>, index': nat)
      requires scopes != [] && Ahead(text, index, scopes) && index <= index' && scopes[0].start < index'
      ensures Ahead(text, index', scopes[1..])
    {
      assert scopes == [scopes[0]] + scopes[1..];
    }

    // The loop over the sorted scopes: overlapped ones are skipped.
    method Substitute(text: seq<char>, scopes: seq<Scope>) returns (buf: seq<char>)
      requires Sorted(scopes) && Ahead(text, 0, scopes)
      requires forall s :: s in scopes ==> OccursAt(Keys(mapping), text, s.start, s.stop)
      ensures buf == Rewrite(mapping, text, 0)
    {
      hide Rewrite, Ahead;
      var index: nat := 0;
      buf := [];
      for i := 0 to |scopes|
        invariant index <= |text|
        invariant buf + Rewrite(mapping, text, index) == Rewrite(mapping, text, 0)
        invariant Ahead(text, index, scopes[i..])
      {
        var scp := scopes[i];
        assert scp in scopes && scopes[i..][0] == scp && scopes[i..][1..] == scopes[i + 1..];
        if scp.start < index {
          StillAhead(text, index, scopes[i..], index);
          continue;
        }
        FirstIsLeftmostLongest(text, index, scopes[i..]);
        StillAhead(text, index, scopes[i..], scp.stop);
        buf := buf + text[index..scp.start];
        buf := buf + mapping[text[scp.start..scp.stop]];
        index := scp.stop;
      }
      assert scopes[|scopes|..] == [];
      NothingAhead(text, index);
      if index < |text| {
        buf := buf + text[index..];
      }
    }

    method DoReplace(text: seq<char>) returns (out: seq<char>, replaced: bool)
      requires Valid()
      ensures out == Rewrite(mapping, text, 0)
      ensures replaced <==> exists s: Scope :: OccursAt(Keys(mapping), text, s.start, s.stop)
    {
      hide Occurrences, Rewrite;
      var scopes := root.Find(text);
      OccurrencesExact(Keys(mapping), text, |text|);
      if |scopes| == 0 {
        RewriteNothing(mapping, text);
        return text, false;
      }
      assert scopes[0] in scopes;
      ghost var found := multiset(scopes);
      scopes := Sort(scopes);
      assert forall x :: x in scopes <==> x in found;
      out := Substitute(text, scopes);
      replaced := true;
    }

    // The rewrite is applied exactly twice, whether or not the first round found a key.
    method Replace(text: seq<char>) returns (out: seq<char>)
      requires Valid()
      ensures out == Rewrite(mapping, Rewrite(mapping, text, 0), 0)
    {
      out := text;
      for i := 0 to REPLACE_TIMES
        invariant i == 0 ==> out == text
        invariant i == 1 ==> out == Rewrite(mapping, text, 0)
        invariant i == 2 ==> out == Rewrite(mapping, Rewrite(mapping, text, 0), 0)
      {
        var before := out;
        var replaced;
        out, replaced := DoReplace(out);
        if !replaced {
          RewriteNothing(mapping, before);
          return;
        }
      }
    }
  }
}
