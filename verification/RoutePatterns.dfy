// What the route tree of core/search/tree.go decides, said over the list of registered patterns:
// which patterns match a path, what they bind, and which match is preferred.
module RoutePatterns {
  import opened Sequences

  function FirstSlash(s: string): (i: nat)
    ensures i <= |s| && (i < |s| ==> s[i] == '/') && forall j :: 0 <= j < i ==> s[j] != '/'
  {
    if s == "" || s[0] == '/' then 0 else 1 + FirstSlash(s[1..])
  }

  // The segments of a path between its slashes; there is always a last one, perhaps empty.
  function Split(s: string): (segs: seq<string>)
    ensures segs != []
    decreases |s|
  {
    var i := FirstSlash(s);
    if i == |s| then [s] else [s[..i]] + Split(s[i + 1..])
  }

  predicate IsParam(token: string) {
    token != "" && token[0] == ':'
  }

  predicate Covers(token: string, segment: string) {
    IsParam(token) || token == segment
  }

  // A pattern matches segment by segment; it may also leave over one empty last segment, which is what
  // a trailing slash makes.
  ghost predicate Matches(pattern: seq<string>, segs: seq<string>) {
    && (|pattern| == |segs| || (|pattern| + 1 == |segs| && segs[|pattern|] == ""))
    && forall i :: 0 <= i < |pattern| ==> Covers(pattern[i], segs[i])
  }

  // The parameters bound by a match: an earlier segment overrides a later one of the same name.
  ghost function Bindings(pattern: seq<string>, segs: seq<string>): map<string, string>
    requires |pattern| <= |segs|
  {
    if pattern == [] then map[]
    else
      var rest := Bindings(pattern[1..], segs[1..]);
      if IsParam(pattern[0]) then rest[pattern[0][1..] := segs[0]] else rest
  }

  // A name is bound exactly if it occurs as a parameter, and then to the segment of its first occurrence.
  lemma {:induction false} BindsShallowest(pattern: seq<string>, segs: seq<string>, name: string)
    requires |pattern| <= |segs|
    ensures name in Bindings(pattern, segs) <==> exists i :: 0 <= i < |pattern| && pattern[i] == [':'] + name
    ensures forall i :: && 0 <= i < |pattern| && pattern[i] == [':'] + name
                        && (forall j :: 0 <= j < i ==> pattern[j] != [':'] + name)
                        ==> Bindings(pattern, segs)[name] == segs[i]
  {
    if pattern != [] {
      var rest := pattern[1..];
      BindsShallowest(rest, segs[1..], name);
      assert pattern[0] == [':'] + name <==> IsParam(pattern[0]) && pattern[0][1..] == name by {
        if IsParam(pattern[0]) { assert pattern[0] == [':'] + pattern[0][1..]; }
      }
      if i :| 0 <= i < |rest| && rest[i] == [':'] + name {
        assert pattern[i + 1] == [':'] + name;
      }
      forall i | && 0 <= i < |pattern| && pattern[i] == [':'] + name
                 && (forall j :: 0 <= j < i ==> pattern[j] != [':'] + name)
        ensures name in Bindings(pattern, segs) && Bindings(pattern, segs)[name] == segs[i]
      {
        if i > 0 {
          assert rest[i - 1] == [':'] + name;
          forall j | 0 <= j < i - 1
            ensures rest[j] != [':'] + name
          {
            assert pattern[j + 1] != [':'] + name;
          }
          assert pattern[0] != [':'] + name;
        }
      }
    }
  }

  type Items<T> = map<seq<string>, T>

  // Some registered pattern that starts with `at` matches the path with its rest.
  ghost predicate MatchBelow<T>(items: Items<T>, at: seq<string>, segs: seq<string>) {
    exists rest :: at + rest in items && Matches(rest, segs)
  }

  // No registered pattern that begins with at + begin matches by ending there or by going on with a fixed token.
  ghost predicate NoFixedMatch<T>(items: Items<T>, at: seq<string>, begin: seq<string>, segs: seq<string>) {
    forall other :: at + (begin + other) in items && Matches(begin + other, segs) ==> other != [] && IsParam(other[0])
  }

  // Going by a parameter at position i is right.
  ghost predicate Justified<T>(items: Items<T>, at: seq<string>, rest: seq<string>, segs: seq<string>, i: nat) {
    i < |rest| && (IsParam(rest[i]) ==> NoFixedMatch(items, at, rest[..i], segs))
  }

  // The registered pattern at + rest matches, and wherever it goes by a parameter, no registered pattern
  // with the same beginning matches that ends there or goes on by a fixed token.
  ghost predicate Preferred<T>(items: Items<T>, at: seq<string>, rest: seq<string>, segs: seq<string>) {
    && at + rest in items && Matches(rest, segs)
    && forall i: nat :: i < |rest| ==> Justified(items, at, rest, segs, i)
  }

  // The text that segments come from.
  function Join(segs: seq<string>): string
    requires segs != []
  {
    if |segs| == 1 then segs[0] else segs[0] + "/" + Join(segs[1..])
  }

  ghost predicate NoSlash(segs: seq<string>) {
    forall i :: 0 <= i < |segs| ==> '/' !in segs[i]
  }

  // Splitting leaves no slash in a segment, and joining undoes it ...
  lemma {:induction false} JoinSplit(s: string)
    ensures NoSlash(Split(s)) && Join(Split(s)) == s
    decreases |s|
  {
    var i := FirstSlash(s);
    if i < |s| {
      JoinSplit(s[i + 1..]);
      assert Split(s)[0] == s[..i] && Split(s)[1..] == Split(s[i + 1..]);
      assert s == s[..i] + "/" + s[i + 1..];
    }
  }

  lemma {:induction false} FirstSlashAfter(before: string, rest: string)
    requires '/' !in before
    ensures FirstSlash(before) == |before| && FirstSlash(before + "/" + rest) == |before|
  {
    var s := before + "/" + rest;
    if before != "" {
      FirstSlashAfter(before[1..], rest);
      assert s[0] == before[0] && s[1..] == before[1..] + "/" + rest;
    }
  }

  // ... and splitting undoes joining, so that there is no other way to split.
  lemma {:induction false} SplitJoin(segs: seq<string>)
    requires segs != [] && NoSlash(segs)
    ensures Split(Join(segs)) == segs
    decreases |segs|
  {
    hide Split;
    if |segs| == 1 {
      SplitAt(segs[0], "");
    } else {
      SplitAt(segs[0], Join(segs[1..]));
      SplitJoin(segs[1..]);
      assert segs == [segs[0]] + segs[1..];
    }
  }

  lemma SplitAt(before: string, rest: string)
    requires '/' !in before
    ensures Split(before) == [before] && Split(before + "/" + rest) == [before] + Split(rest)
  {
    FirstSlashAfter(before, rest);
    var s := before + "/" + rest;
    assert s[..|before|] == before && s[|before| + 1..] == rest;
  }

  lemma {:induction false} JoinTrailing(segs: seq<string>)
    requires segs != []
    ensures Join(segs + [""]) == Join(segs) + "/"
  {
    if |segs| > 1 {
      JoinTrailing(segs[1..]);
      assert (segs + [""])[1..] == segs[1..] + [""];
    } else {
      assert (segs + [""])[1..] == [""];
    }
  }

  // Values for the tokens of a pattern: a fixed token stands for itself, a parameter for any text without
  // a slash.
  ghost predicate Fills(pattern: seq<string>, values: seq<string>) {
    |values| == |pattern| && NoSlash(values) && forall i :: 0 <= i < |pattern| ==> Covers(pattern[i], values[i])
  }

  // A pattern matches exactly the texts that it gives when its parameters are filled in, with or without one
  // more slash at the end.
  lemma MatchesTexts(pattern: seq<string>, s: string)
    requires pattern != []
    ensures Matches(pattern, Split(s)) <==>
            exists values :: Fills(pattern, values) && (s == Join(values) || s == Join(values) + "/")
  {
    hide Split, Matches, Covers, NoSlash, Join;
    if Matches(pattern, Split(s)) {
      var values := Filled(pattern, s);
    }
    forall values | Fills(pattern, values) && (s == Join(values) || s == Join(values) + "/")
      ensures Matches(pattern, Split(s))
    {
      FilledMatches(pattern, values);
    }
  }

  lemma Filled(pattern: seq<string>, s: string) returns (values: seq<string>)
    requires pattern != [] && Matches(pattern, Split(s))
    ensures Fills(pattern, values) && (s == Join(values) || s == Join(values) + "/")
  {
    hide Split, Covers, Join;
    var segs := Split(s);
    JoinSplit(s);
    values := segs[..|pattern|];
    if |segs| == |pattern| {
      assert values == segs;
    } else {
      assert segs == values + [""];
      JoinTrailing(values);
    }
  }

  lemma FilledMatches(pattern: seq<string>, values: seq<string>)
    requires pattern != [] && Fills(pattern, values)
    ensures Matches(pattern, Split(Join(values))) && Matches(pattern, Split(Join(values) + "/"))
  {
    hide Split, Covers, Join;
    SplitJoin(values);
    JoinTrailing(values);
    SplitJoin(values + [""]);
  }

  // A pattern without parameters.
  ghost predicate Fixed(pattern: seq<string>) {
    pattern != [] && forall i :: 0 <= i < |pattern| ==> pattern[i] != "" && '/' !in pattern[i] && pattern[i][0] != ':'
  }

  // It matches exactly its own text, or that text with one trailing slash ...
  lemma FixedMatches(pattern: seq<string>, s: string)
    requires Fixed(pattern)
    ensures Matches(pattern, Split(s)) <==> s == Join(pattern) || s == Join(pattern) + "/"
  {
    MatchesTexts(pattern, s);
    assert Fills(pattern, pattern);
    forall values | Fills(pattern, values)
      ensures values == pattern
    {
      forall i | 0 <= i < |pattern|
        ensures values[i] == pattern[i]
      {
        assert Covers(pattern[i], values[i]);
      }
    }
  }

  // ... and no other registered pattern is preferred to it there.
  lemma FixedWins<T>(items: Items<T>, pattern: seq<string>, found: seq<string>, segs: seq<string>)
    requires Fixed(pattern) && pattern in items && Matches(pattern, segs)
    requires "" !in found && Preferred(items, [], found, segs)
    ensures found == pattern
  {
    hide Matches, Preferred, Fixed;
    var i: nat := 0;
    while i < |pattern| && i < |found| && pattern[i] == found[i]
      invariant i <= |pattern| && i <= |found| && pattern[..i] == found[..i]
    {
      i := i + 1;
    }
    if i < |found| {
      NotByParameter(items, pattern, found, segs, i);
      NoLonger(pattern, found, segs, i);
    }
    PreferredMatches(items, found, segs);
    NoShorter(pattern, found, segs);
    assert pattern[..i] == pattern && found[..i] == found;
  }

  lemma PreferredMatches<T>(items: Items<T>, found: seq<string>, segs: seq<string>)
    requires Preferred(items, [], found, segs)
    ensures Matches(found, segs)
  {
  }

  lemma NotByParameter<T>(items: Items<T>, pattern: seq<string>, found: seq<string>, segs: seq<string>, i: nat)
    requires Fixed(pattern) && pattern in items && Matches(pattern, segs) && Preferred(items, [], found, segs)
    requires i < |found| && i <= |pattern| && pattern[..i] == found[..i]
    ensures !IsParam(found[i]) && Matches(found, segs)
  {
    hide Matches;
    assert Justified(items, [], found, segs, i);
    var rest := pattern[i..];
    assert found[..i] + rest == pattern && [] + (found[..i] + rest) == pattern;
    assert rest != [] ==> rest[0] == pattern[i];
  }

  lemma NoLonger(pattern: seq<string>, found: seq<string>, segs: seq<string>, i: nat)
    requires Fixed(pattern) && Matches(pattern, segs) && Matches(found, segs) && "" !in found
    requires i < |found| && i <= |pattern| && !IsParam(found[i])
    ensures i < |pattern| && pattern[i] == found[i]
  {
    assert Covers(found[i], segs[i]) && found[i] != "";
    assert i < |pattern| ==> Covers(pattern[i], segs[i]);
  }

  lemma NoShorter(pattern: seq<string>, found: seq<string>, segs: seq<string>)
    requires Fixed(pattern) && Matches(pattern, segs)
    ensures Matches(found, segs) ==> |pattern| <= |found|
  {
    assert |pattern| == |segs| ==> Covers(pattern[|pattern| - 1], segs[|segs| - 1]);
  }

  lemma MatchesCons(token: string, rest: seq<string>, segs: seq<string>)
    requires segs != []
    ensures Matches([token] + rest, segs) <==> Covers(token, segs[0]) && Matches(rest, segs[1..])
  {
    var p := [token] + rest;
    if Matches(p, segs) {
      assert Covers(p[0], segs[0]);
      forall i | 0 <= i < |rest|
        ensures Covers(rest[i], segs[1..][i])
      {
        assert Covers(p[i + 1], segs[i + 1]);
      }
    }
  }

  lemma AppendCons<A>(at: seq<A>, x: A, rest: seq<A>)
    ensures at + ([x] + rest) == (at + [x]) + rest
  {
  }

  // What Add makes of the segments of a route.
  datatype Parsed = Pattern(tokens: seq<string>) | DupSlash

  ghost function Parse(segs: seq<string>): Parsed
    requires segs != []
  {
    if segs == [""] then Pattern([])
    else if segs[0] == "" then DupSlash
    else if |segs| == 1 then Pattern(segs)
    else
      var rest := Parse(segs[1..]);
      if rest.DupSlash? then DupSlash else Pattern([segs[0]] + rest.tokens)
  }

  // A route is refused exactly if a segment other than the last is empty; otherwise its pattern is its
  // segments, without an empty last one.
  lemma {:induction false} ParseMeaning(segs: seq<string>)
    requires segs != []
    ensures Parse(segs).DupSlash? <==> exists i :: 0 <= i < |segs| - 1 && segs[i] == ""
    ensures Parse(segs).Pattern? ==>
              Parse(segs).tokens == if segs[|segs| - 1] == "" then segs[..|segs| - 1] else segs
  {
    if |segs| > 1 && segs[0] != "" {
      var rest := segs[1..];
      ParseMeaning(rest);
      if i :| 0 <= i < |rest| - 1 && rest[i] == "" {
        assert segs[i + 1] == "";
      }
      if i :| 0 <= i < |segs| - 1 && segs[i] == "" {
        assert rest[i - 1] == "";
      }
      assert segs == [segs[0]] + rest && segs[..|segs| - 1] == [segs[0]] + rest[..|rest| - 1];
    }
  }

  // Every pattern that Add accepts consists of non-empty tokens and matches its own route.
  lemma {:induction false} ParsedMatchesItself(segs: seq<string>)
    requires segs != [] && Parse(segs).Pattern?
    ensures Matches(Parse(segs).tokens, segs)
    ensures forall t :: t in Parse(segs).tokens ==> t != ""
  {
    ParseMeaning(segs);
    var tokens := Parse(segs).tokens;
    forall t | t in tokens
      ensures t != ""
    {
      var i :| 0 <= i < |tokens| && tokens[i] == t;
      assert segs[i] == t;
    }
  }

  // A route that Add accepts is the text of its pattern, with or without a trailing slash.
  lemma ParsedText(route: string)
    requires Parse(Split(route)).Pattern? && route != ""
    ensures var tokens := Parse(Split(route)).tokens;
            tokens != [] && NoSlash(tokens) && (route == Join(tokens) || route == Join(tokens) + "/")
  {
    var segs := Split(route);
    JoinSplit(route);
    ParseMeaning(segs);
    if segs[|segs| - 1] == "" {
      var tokens := segs[..|segs| - 1];
      assert segs == tokens + [""];
      if tokens != [] {
        JoinTrailing(tokens);
      }
    }
  }

  // How parsing goes on behind the first slash of a route.
  lemma ParseStep(route: string)
    ensures route == "" ==> Parse(Split(route)) == Pattern([])
    ensures route != "" && route[0] == '/' ==> Parse(Split(route)).DupSlash?
    ensures route != "" && route[0] != '/' ==>
              var i := FirstSlash(route);
              && i > 0
              && if i == |route| then Parse(Split(route)) == Pattern([route])
                 else var rest := Parse(Split(route[i + 1..]));
                      Parse(Split(route)) == if rest.DupSlash? then DupSlash else Pattern([route[..i]] + rest.tokens)
  {
    var i := FirstSlash(route);
    if i < |route| {
      assert Split(route)[0] == route[..i] && Split(route)[1..] == Split(route[i + 1..]);
    }
  }

  // A preferred match below a child is preferred here too, if nothing fixed stands against a parameter.
  lemma PreferredCons<T>(items: Items<T>, at: seq<string>, token: string, rest: seq<string>, segs: seq<string>)
    requires segs != [] && Covers(token, segs[0]) && Preferred(items, at + [token], rest, segs[1..])
    requires IsParam(token) ==> NoFixedMatch(items, at, [], segs)
    ensures Preferred(items, at, [token] + rest, segs)
  {
    var whole := [token] + rest;
    AppendCons(at, token, rest);
    MatchesCons(token, rest, segs);
    forall i: nat | i < |whole|
      ensures Justified(items, at, whole, segs, i)
    {
      if i == 0 {
        assert whole[..0] == [];
      } else {
        assert Justified(items, at + [token], rest, segs[1..], i - 1);
        JustifiedCons(items, at, token, rest[..i - 1], segs);
        assert whole[..i] == [token] + rest[..i - 1];
      }
    }
  }

  lemma JustifiedCons<T>(items: Items<T>, at: seq<string>, token: string, begin: seq<string>, segs: seq<string>)
    requires segs != [] && Covers(token, segs[0])
    ensures NoFixedMatch(items, at + [token], begin, segs[1..]) ==> NoFixedMatch(items, at, [token] + begin, segs)
  {
    hide Matches, Covers, IsParam;
    forall other
      ensures at + (([token] + begin) + other) == (at + [token]) + (begin + other)
      ensures Matches(([token] + begin) + other, segs) <==> Matches(begin + other, segs[1..])
    {
      assert ([token] + begin) + other == [token] + (begin + other);
      AppendCons(at, token, begin + other);
      MatchesCons(token, begin + other, segs);
    }
  }

  // Below `at` something matches exactly if the pattern of `at` does or something below a child does.
  lemma MatchBelowSplit<T>(items: Items<T>, at: seq<string>, segs: seq<string>, rest: seq<string>)
    requires segs != [] && at + rest in items && Matches(rest, segs) && rest != []
    ensures Covers(rest[0], segs[0]) && MatchBelow(items, at + [rest[0]], segs[1..])
  {
    assert rest == [rest[0]] + rest[1..];
    AppendCons(at, rest[0], rest[1..]);
    MatchesCons(rest[0], rest[1..], segs);
  }
}
