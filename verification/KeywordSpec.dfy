// What the keyword automaton of core/stringx is for, said without an automaton: every place in a
// text where one of the words occurs. The suffix functions below are the mathematics that the
// automaton's states and fail links stand for.
module KeywordSpec {
  import opened Sequences

  // A half-open range of positions of a text.
  datatype Scope = Scope(start: nat, stop: nat)

  // The occurrences of words that end just before `stop`, with starts `from`, `from + 1`, ...
  ghost function EndingAt(words: set<seq<char>>, chars: seq<char>, stop: nat, from: nat): seq<Scope>
    requires from <= stop <= |chars|
    decreases stop - from
  {
    if from == stop then []
    else (if chars[from..stop] in words then [Scope(from, stop)] else []) + EndingAt(words, chars, stop, from + 1)
  }

  // Every occurrence of a non-empty word that ends within the first `n` positions: a naive double loop.
  ghost function Occurrences(words: set<seq<char>>, chars: seq<char>, n: nat): seq<Scope>
    requires n <= |chars|
  {
    if n == 0 then [] else Occurrences(words, chars, n - 1) + EndingAt(words, chars, n, 0)
  }

  // Some word occurs at positions start, ..., stop - 1.
  ghost predicate OccursAt(words: set<seq<char>>, chars: seq<char>, start: nat, stop: nat) {
    start < stop <= |chars| && chars[start..stop] in words
  }

  // Scopes come in order of their stops, and for one stop in order of their starts.
  ghost predicate Before(a: Scope, b: Scope) {
    a.stop < b.stop || (a.stop == b.stop && a.start < b.start)
  }

  ghost predicate Ascending(scopes: seq<Scope>) {
    forall i, j :: 0 <= i < j < |scopes| ==> Before(scopes[i], scopes[j])
  }

  lemma AscendingConcat(a: seq<Scope>, b: seq<Scope>)
    requires Ascending(a) && Ascending(b)
    requires forall s, t :: s in a && t in b ==> Before(s, t)
    ensures Ascending(a + b)
  {
    forall i, j | 0 <= i < j < |a + b|
      ensures Before((a + b)[i], (a + b)[j])
    {
      if i < |a| <= j {
        assert a[i] in a && b[j - |a|] in b;
      } else if |a| <= i {
        assert Before(b[i - |a|], b[j - |a|]);
      }
    }
  }

  lemma {:induction false} EndingAtExact(words: set<seq<char>>, chars: seq<char>, stop: nat, from: nat)
    requires from <= stop <= |chars|
    ensures forall s :: s in EndingAt(words, chars, stop, from) <==>
                        s.stop == stop && from <= s.start && OccursAt(words, chars, s.start, stop)
    ensures Ascending(EndingAt(words, chars, stop, from))
    decreases stop - from
  {
    if from < stop {
      EndingAtExact(words, chars, stop, from + 1);
      var head := if chars[from..stop] in words then [Scope(from, stop)] else [];
      AscendingConcat(head, EndingAt(words, chars, stop, from + 1));
    }
  }

  // The list of occurrences holds exactly the occurrences, each once (strict order excludes repeats).
  lemma {:induction false} OccurrencesExact(words: set<seq<char>>, chars: seq<char>, n: nat)
    requires n <= |chars|
    ensures forall s :: s in Occurrences(words, chars, n) <==> s.stop <= n && OccursAt(words, chars, s.start, s.stop)
    ensures Ascending(Occurrences(words, chars, n))
  {
    if n > 0 {
      OccurrencesExact(words, chars, n - 1);
      EndingAtExact(words, chars, n, 0);
      AscendingConcat(Occurrences(words, chars, n - 1), EndingAt(words, chars, n, 0));
    }
  }

  // The longest suffix of s (s included) that is one of the keys.
  ghost function Longest(keys: set<seq<char>>, s: seq<char>): (t: seq<char>)
    ensures |t| <= |s| && t == s[|s| - |t|..]
    ensures [] in keys ==> t in keys
  {
    if s in keys || s == [] then s else Longest(keys, s[1..])
  }

  // No suffix that is a key is longer than the one chosen.
  lemma {:induction false} LongestIsLongest(keys: set<seq<char>>, s: seq<char>, k: nat)
    requires k <= |s| && s[k..] in keys
    ensures |s| - k <= |Longest(keys, s)|
  {
    if s in keys || s == [] {
    } else {
      assert s[0..] == s;
      assert s[1..][k - 1..] == s[k..];
      LongestIsLongest(keys, s[1..], k - 1);
    }
  }

  // The heart of the automaton: reading one more character needs only the current state.
  lemma {:induction false} LongestStep(keys: set<seq<char>>, s: seq<char>, c: char)
    requires PrefixClosed(keys)
    ensures Longest(keys, Snoc(s, c)) == Longest(keys, Snoc(Longest(keys, s), c))
  {
    if s in keys || s == [] {
    } else {
      assert Snoc(s, c)[1..] == Snoc(s[1..], c);
      LongestStep(keys, s[1..], c);
    }
  }

  // Following the fail link of a state that has no child for c does not change where c leads.
  lemma {:induction false} FailStep(keys: set<seq<char>>, l: seq<char>, c: char)
    requires PrefixClosed(keys) && l != [] && Snoc(l, c) !in keys
    ensures Longest(keys, Snoc(l, c)) == Longest(keys, Snoc(Longest(keys, l[1..]), c))
  {
    assert Snoc(l, c)[1..] == Snoc(l[1..], c);
    LongestStep(keys, l[1..], c);
  }

  // The label that the fail link of a node labelled s leads to.
  ghost function FailLabel(keys: set<seq<char>>, s: seq<char>): (t: seq<char>)
    requires s != []
    ensures |t| < |s|
    ensures [] in keys ==> t in keys
  {
    Longest(keys, s[1..])
  }

  // Searching from the node m, past its own children, for a child for c ends at t.
  ghost predicate Leads(keys: set<seq<char>>, m: seq<char>, c: char, t: seq<char>) {
    if m == [] then t == [] else t == Longest(keys, Snoc(FailLabel(keys, m), c))
  }

  lemma LeadsFrom(keys: set<seq<char>>, s: seq<char>, c: char)
    requires PrefixClosed(keys) && s != []
    ensures Leads(keys, s, c, FailLabel(keys, Snoc(s, c)))
  {
    assert Snoc(s, c)[1..] == Snoc(s[1..], c);
    LongestStep(keys, s[1..], c);
  }

  lemma LeadsStep(keys: set<seq<char>>, m: seq<char>, c: char, t: seq<char>)
    requires PrefixClosed(keys) && m != [] && Leads(keys, m, c, t)
    ensures var f := FailLabel(keys, m); if Snoc(f, c) in keys then t == Snoc(f, c) else Leads(keys, f, c, t)
  {
    var f := FailLabel(keys, m);
    if Snoc(f, c) !in keys {
      if f == [] {
        assert Snoc(f, c)[1..] == [];
      } else {
        FailStep(keys, f, c);
      }
    }
  }

  // Starts between a state and its fail state start no word.
  lemma {:induction false} FailSkips(keys: set<seq<char>>, words: set<seq<char>>, chars: seq<char>,
                                     stop: nat, from: nat)
    requires words <= keys && from <= stop <= |chars|
    ensures EndingAt(words, chars, stop, from) ==
            EndingAt(words, chars, stop, stop - |Longest(keys, chars[from..stop])|)
    decreases stop - from
  {
    var s := chars[from..stop];
    if s in keys || s == [] {
    } else {
      assert s[1..] == chars[from + 1..stop];
      FailSkips(keys, words, chars, stop, from + 1);
    }
  }

  // Breadth-first progress through a prefix-closed set: `done` have been expanded, `queue` wait in
  // order of length, and of the node `at`, being expanded now, the children in `left` are still to come.
  ghost predicate Frontier(keys: set<seq<char>>, done: set<seq<char>>, queue: seq<seq<char>>,
                           at: seq<char>, left: set<char>)
  {
    && PrefixClosed(keys) && done <= keys && [] in done && at in done
    && (forall s :: s in done ==> |s| <= |at|)
    && (forall i :: 0 <= i < |queue| ==> queue[i] in keys && queue[i] !in done && |at| <= |queue[i]| <= |at| + 1)
    && (forall i, j :: 0 <= i < j < |queue| ==> queue[i] != queue[j] && |queue[i]| <= |queue[j]|)
    && (forall s, c :: Snoc(s, c) in done || Snoc(s, c) in queue ==> s in done)
    && (forall s, c :: s in done && Snoc(s, c) in keys ==>
                         Snoc(s, c) in done || Snoc(s, c) in queue || (s == at && c in left))
    && (forall c :: c in left ==> Snoc(at, c) in keys && Snoc(at, c) !in done && Snoc(at, c) !in queue)
  }

  lemma Enqueue(keys: set<seq<char>>, done: set<seq<char>>, queue: seq<seq<char>>, at: seq<char>,
                left: set<char>, c: char)
    requires Frontier(keys, done, queue, at, left) && c in left
    ensures Frontier(keys, done, queue + [Snoc(at, c)], at, left - {c})
  {
    var queue' := queue + [Snoc(at, c)];
    forall s | s in queue'
      ensures s in queue || s == Snoc(at, c)
    {
    }
    assert forall s :: s in queue ==> s in queue';
    assert queue'[|queue|] == Snoc(at, c);
  }

  lemma Dequeue(keys: set<seq<char>>, done: set<seq<char>>, queue: seq<seq<char>>, at: seq<char>, left: set<char>)
    requires Frontier(keys, done, queue, at, {}) && queue != []
    requires forall c :: c in left <==> Snoc(queue[0], c) in keys
    ensures Frontier(keys, done + {queue[0]}, queue[1..], queue[0], left)
    ensures queue[0] in keys && queue[0] !in done
  {
    assert forall s :: s in queue <==> s == queue[0] || s in queue[1..];
  }

  // Nothing short has been overlooked: every key no longer than the node being expanded was met.
  lemma {:induction false} ShortKeysMet(keys: set<seq<char>>, done: set<seq<char>>, queue: seq<seq<char>>,
                                        at: seq<char>, left: set<char>, s: seq<char>)
    requires Frontier(keys, done, queue, at, left) && s in keys && |s| <= |at|
    ensures s in done || s in queue
    decreases |s|
  {
    if s != [] {
      var p, c := s[..|s| - 1], s[|s| - 1];
      assert s == Snoc(p, c);
      ShortKeysMet(keys, done, queue, at, left, p);
    }
  }

  // When the queue runs empty every key has been expanded.
  lemma {:induction false} AllKeysMet(keys: set<seq<char>>, done: set<seq<char>>, at: seq<char>, s: seq<char>)
    requires Frontier(keys, done, [], at, {}) && s in keys
    ensures s in done
    decreases |s|
  {
    if s != [] {
      var p, c := s[..|s| - 1], s[|s| - 1];
      assert s == Snoc(p, c);
      AllKeysMet(keys, done, at, p);
    }
  }

  // From a state s, the state after c is where the search from s leads, if s itself has no child for c.
  lemma StateStep(keys: set<seq<char>>, s: seq<char>, c: char)
    requires PrefixClosed(keys) && s in keys
    ensures Snoc(s, c) in keys ==> Longest(keys, Snoc(s, c)) == Snoc(s, c)
    ensures Snoc(s, c) !in keys ==> Leads(keys, s, c, Longest(keys, Snoc(s, c)))
  {
    if Snoc(s, c) !in keys {
      if s == [] {
        assert Snoc(s, c)[1..] == [];
      } else {
        FailStep(keys, s, c);
      }
    }
  }

  // One link of the fail chain: report the state's own label if it is a word, then go on with its fail label.
  lemma ReportStep(keys: set<seq<char>>, words: set<seq<char>>, chars: seq<char>, stop: nat, s: seq<char>)
    requires words <= keys && stop <= |chars| && 0 < |s| <= stop && s == chars[stop - |s|..stop]
    ensures var f := FailLabel(keys, s);
            && f == chars[stop - |f|..stop]
            && EndingAt(words, chars, stop, stop - |s|) ==
               (if s in words then [Scope(stop - |s|, stop)] else []) + EndingAt(words, chars, stop, stop - |f|)
  {
    hide Longest;
    assert s[1..] == chars[stop - |s| + 1..stop];
    FailSkips(keys, words, chars, stop, stop - |s| + 1);
  }

  // The same, seen from a list of scopes found so far.
  lemma ReportMore(keys: set<seq<char>>, words: set<seq<char>>, chars: seq<char>, stop: nat,
                   s: seq<char>, found: seq<Scope>)
    requires words <= keys && stop <= |chars| && 0 < |s| <= stop && s == chars[stop - |s|..stop]
    ensures var f := FailLabel(keys, s);
            && f == chars[stop - |f|..stop]
            && found + EndingAt(words, chars, stop, stop - |s|) ==
               (if s in words then found + [Scope(stop - |s|, stop)] else found)
               + EndingAt(words, chars, stop, stop - |f|)
  {
    ReportStep(keys, words, chars, stop, s);
    Assoc(found, if s in words then [Scope(stop - |s|, stop)] else [],
          EndingAt(words, chars, stop, stop - |FailLabel(keys, s)|));
  }

  lemma Assoc(a: seq<Scope>, b: seq<Scope>, c: seq<Scope>)
    ensures a + (b + c) == (a + b) + c && a + [] == a
  {
  }

  // One character of text: the state moves on, and what ends here are the words the new state reports.
  lemma TextStep(keys: set<seq<char>>, words: set<seq<char>>, chars: seq<char>, i: nat, found: seq<Scope>)
    requires PrefixClosed(keys) && words <= keys && i < |chars|
    requires found == Occurrences(words, chars, i)
    ensures var t := Longest(keys, chars[..i + 1]);
            && t == Longest(keys, Snoc(Longest(keys, chars[..i]), chars[i]))
            && |t| <= i + 1 && t == chars[i + 1 - |t|..i + 1]
            && Occurrences(words, chars, i + 1) == found + EndingAt(words, chars, i + 1, i + 1 - |t|)
            && (t == [] ==> Occurrences(words, chars, i + 1) == found)
  {
    assert chars[..i + 1] == Snoc(chars[..i], chars[i]);
    LongestStep(keys, chars[..i], chars[i]);
    FailSkips(keys, words, chars, i + 1, 0);
    assert chars[0..i + 1] == chars[..i + 1];
  }
}
