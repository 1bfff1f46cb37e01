// core/stringx/trie.go: finding and masking keywords with the automaton.
module Trie {
  import opened KeywordSpec
  import opened KeywordNode

  const DEFAULT_MASK := '*'

  ghost predicate Covers(s: Scope, p: nat) {
    s.start <= p < s.stop
  }

  // Position p lies inside some occurrence of a word.
  ghost predicate Covered(words: set<seq<char>>, text: seq<char>, p: nat) {
    exists s: Scope :: Covers(s, p) && OccursAt(words, text, s.start, s.stop)
  }

  // The word w is one of the words and occurs in the text.
  ghost predicate Contains(words: set<seq<char>>, text: seq<char>, w: seq<char>) {
    exists s: Scope :: OccursAt(words, text, s.start, s.stop) && text[s.start..s.stop] == w
  }

  // A list of the words that occur in the text, each once, in any order.
  ghost predicate Keywords(words: set<seq<char>>, text: seq<char>, keywords: seq<seq<char>>) {
    && (forall w :: w in keywords <==> Contains(words, text, w))
    && (forall i, j :: 0 <= i < j < |keywords| ==> keywords[i] != keywords[j])
  }

  lemma KeywordsFound(words: set<seq<char>>, text: seq<char>, scopes: seq<Scope>, keywords: seq<seq<char>>)
    requires scopes == Occurrences(words, text, |text|)
    requires forall s :: s in scopes ==> s.start <= s.stop <= |text|
    requires forall w :: w in keywords <==> exists s :: s in scopes && text[s.start..s.stop] == w
    requires forall i, j :: 0 <= i < j < |keywords| ==> keywords[i] != keywords[j]
    ensures Keywords(words, text, keywords)
    ensures |keywords| > 0 <==> exists s: Scope :: OccursAt(words, text, s.start, s.stop)
  {
    OccurrencesExact(words, text, |text|);
    if |keywords| > 0 {
      assert keywords[0] in keywords;
    }
    if s: Scope :| OccursAt(words, text, s.start, s.stop) {
      assert s in scopes;
      assert text[s.start..s.stop] in keywords;
    }
  }

  class TrieNode {
    const root: Node
    const mask: char

    ghost predicate Valid()
      reads this, root, root.Nodes
    {
      root.Built()
    }

    constructor (words: seq<seq<char>>, mask: char)
      ensures Valid()
      ensures root.Words == set w | w in words && w != []
      ensures this.mask == if mask == '\0' then DEFAULT_MASK else mask
    {
      var n := new Node();
      for i := 0 to |words|
        invariant fresh(n) && n.Shape() && n.fail == null && fresh(n.Nodes)
        invariant n.Words == set w | w in words[..i] && w != []
      {
        n.Add(words[i]);
        assert words[..i + 1] == words[..i] + [words[i]];
      }
      assert words[..|words|] == words;
      n.Build();
      root := n;
      this.mask := if mask == '\0' then DEFAULT_MASK else mask;
    }

    method ReplaceWithAsterisk(chars: array<char>, start: nat, stop: nat)
      requires start <= stop <= chars.Length
      modifies chars
      ensures forall p :: 0 <= p < chars.Length ==> chars[p] == if start <= p < stop then mask else old(chars[p])
    {
      for i := start to stop
        invariant forall p :: 0 <= p < chars.Length ==> chars[p] == if start <= p < i then mask else old(chars[p])
      {
        chars[i] := mask;
      }
    }

    // The distinct strings under the scopes, in any order.
    method CollectKeywords(chars: seq<char>, scopes: seq<Scope>) returns (keywords: seq<seq<char>>)
      requires forall s :: s in scopes ==> s.start <= s.stop <= |chars|
      ensures forall w :: w in keywords <==> exists s :: s in scopes && chars[s.start..s.stop] == w
      ensures forall i, j :: 0 <= i < j < |keywords| ==> keywords[i] != keywords[j]
    {
      var seen: set<seq<char>> := {};
      for i := 0 to |scopes|
        invariant forall w :: w in seen <==> exists j :: 0 <= j < i && chars[scopes[j].start..scopes[j].stop] == w
      {
        assert scopes[i] in scopes;
        seen := seen + {chars[scopes[i].start..scopes[i].stop]};
      }
      ghost var all := seen;
      assert forall w :: w in all <==> exists s :: s in scopes && chars[s.start..s.stop] == w;
      keywords := [];
      while seen != {}
        invariant forall w :: w in all <==> w in seen || w in keywords
        invariant forall w :: w in keywords ==> w !in seen
        invariant forall i, j :: 0 <= i < j < |keywords| ==> keywords[i] != keywords[j]
      {
        var k :| k in seen;
        seen, keywords := seen - {k}, keywords + [k];
      }
    }

    method FindKeywords(text: seq<char>) returns (keywords: seq<seq<char>>)
      requires Valid()
      ensures Keywords(root.Words, text, keywords)
    {
      if |text| == 0 {
        return [];
      }
      var scopes := root.Find(text);
      OccurrencesExact(root.Words, text, |text|);
      keywords := CollectKeywords(text, scopes);
      KeywordsFound(root.Words, text, scopes, keywords);
    }

    method Filter(text: seq<char>) returns (sentence: seq<char>, keywords: seq<seq<char>>, found: bool)
      requires Valid()
      ensures |sentence| == |text|
      ensures forall p :: 0 <= p < |text| ==> sentence[p] == if Covered(root.Words, text, p) then mask else text[p]
      ensures Keywords(root.Words, text, keywords)
      ensures found <==> exists s: Scope :: OccursAt(root.Words, text, s.start, s.stop)
    {
      if |text| == 0 {
        return text, [], false;
      }
      ghost var words := root.Words;
      var chars := new char[|text|](i requires 0 <= i < |text| => text[i]);
      var scopes := root.Find(text);
      OccurrencesExact(words, text, |text|);
      assert chars[..] == text;
      keywords := CollectKeywords(chars[..], scopes);
      KeywordsFound(words, text, scopes, keywords);
      for k := 0 to |scopes|
        invariant forall p :: 0 <= p < |text| ==>
                                chars[p] == if exists j :: 0 <= j < k && Covers(scopes[j], p) then mask else text[p]
      {
        assert scopes[k] in scopes;
        ReplaceWithAsterisk(chars, scopes[k].start, scopes[k].stop);
      }
      sentence := chars[..];
      found := |keywords| > 0;
    }
  }
}
