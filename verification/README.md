# Verified models of the go-zero core library

This project models the algorithmic and concurrent part of the go-zero `core` library in Dafny and proves
what its comments, tests and callers rely on. Three kinds of code are covered.

* **Data structures updated in place** are classes with the fields and loops of the source. Each method is
  proved against a specification that knows nothing of the structure: the keyword automaton against the list
  of all occurrences, the timing wheel against a countdown for each key, the two-generation map against one
  map, the key list and ring of the consistent hash against each other, the route tree against the list of
  registered patterns, the ring of buckets against a log of slots, the heap against order statistics.
* **Concurrent protocols** are state machines of atomic steps. A state holds the shared fields and a list of
  goroutines, each with its place in the code; `Enabled` says which steps can happen and `Do` what they do. A
  step is a critical section, a channel operation or an atomic operation of the source. Theorems hold in
  every reachable state, and so for every interleaving.
* **Arithmetic** of slots, circles, weights and probabilities is stated on integers and reals.

Time is a parameter, one reading an operation, and never goes backwards. Hash functions, reducers,
mappers, handlers and `create` functions are arbitrary. Random draws and the moment a context ends are inputs.

Modules, by source file:

| module | source |
|---|---|
| `KeywordSpec`, `KeywordNode`, `Trie`, `Replacer` | `core/stringx/node.go`, `trie.go`, `replacer.go` |
| `TimingWheelSpec`, `TimingWheel`, `SafeMap`, `Cache` | `core/collection/timingwheel.go`, `safemap.go`, `cache.go` |
| `HashRing`, `ConsistentHash`, `Decimal` | `core/hash/consistenthash.go` |
| `RoutePatterns`, `SearchTree` | `core/search/tree.go` |
| `RollingWindow`, `Breaker` | `core/collection/rollingwindow.go`, `core/breaker/googlebreaker.go`, `bucket.go` |
| `TopKTasks`, `Metrics` | `core/stat/topk.go`, `metrics.go` |
| `PeriodicalExecutor`, `MapReduce`, `StableRunner`, `SingleFlight`, `ResourceManager` | `core/executors/periodicalexecutor.go`, `core/mr/mapreduce.go`, `core/threading/stablerunner.go`, `core/syncx/singleflight.go`, `resourcemanager.go` |
| `Counting`, `Arithmetic`, `Sequences`, `Wrappers` | shared: sums over the goroutines of a protocol, division, sequences and sorting, options |

What does not hold of the code, with the condition under which it does:

* A pending timer that is moved (or set again) runs one full turn late when its slot is not ahead of the
  hand and the new slot is, and one full turn early when the new slot is behind the hand, the old one ahead
  of it, and the new circle is positive; otherwise it is on time (`TimingWheelSpec.MovedRemaining`; `LateRun`
  and `EarlyRun` start from a new wheel). A move by less than an interval fires twice
  (`MovedAtOnceFiresTwice`).
* Removing a node that was added with fewer replicas than the ring has keeps keys and ring in step if and
  only if none of the hashes it was not added with hits a slot of another node
  (`ConsistentHash.ConsistentHash.InStepAfterRemove`). Otherwise `Get` can divide by zero: `DivideByZero` runs
  the methods to that panic for any hash function with a collision, `DivideByZeroExample` for one.
* `Wait` of the stable runner promises that all messages have been taken when it returns. Whatever happens after
  it has closed `done`, that holds if and only if no `Push` was past its check of `done` at that moment
  (`StableRunner.WaitTakesAll`). A push that was can return without an error although its message is missed, on
  every ring and after any history (`PushPastItsCheckIsMissed`; from a new runner, `MissedMessage`): the
  consumer's next Gets, one fewer than the ring has holders, find nothing.

## Model

| member | source | states |
|---|---|---|
| KeywordSpec.OccurrencesExact | go-zero/go-zero/core/stringx/node.go:63-98 | the specification of `find`: the list holds a scope if and only if its text is an added word, in order of stop and then start, so each once |
| KeywordSpec.LongestStep | go-zero/go-zero/core/stringx/node.go:63-84 | the longest suffix of the text read that is a path of the trie, after one more character, depends only on the one before it: the state of the automaton is enough |
| KeywordSpec.FailStep | go-zero/go-zero/core/stringx/node.go:36-61 | the longest proper suffix of a label extended by a character is found from the fail label of the shorter one |
| KeywordSpec.FailSkips | go-zero/go-zero/core/stringx/node.go:85-95 | going from a node to its fail node skips no word that ends at this position |
| KeywordSpec.AllKeysMet | go-zero/go-zero/core/stringx/node.go:36-61 | when the queue of `build` runs empty every node of the trie has been expanded |
| KeywordSpec.ShortKeysMet | go-zero/go-zero/core/stringx/node.go:36-61 | breadth first: when a node is expanded all shorter labels already have their fail links |
| KeywordNode.Node.Add | go-zero/go-zero/core/stringx/node.go:10-34 | the words of the trie grow by exactly this word, and by nothing for the empty word |
| KeywordNode.Node.FailTarget | go-zero/go-zero/core/stringx/node.go:46-56 | the walk along fail links ends at the node of the longest proper suffix that is in the trie |
| KeywordNode.Node.Build | go-zero/go-zero/core/stringx/node.go:36-61 | every node but the root gets as fail link the node of its longest proper suffix in the trie; the words stay |
| KeywordNode.Node.Next | go-zero/go-zero/core/stringx/node.go:66-84 | one character leads to the node of the longest suffix of the extended text |
| KeywordNode.Node.Report | go-zero/go-zero/core/stringx/node.go:85-95 | the chain of fail links reports all words that end here, longest first, and no others |
| KeywordNode.Node.Find | go-zero/go-zero/core/stringx/node.go:63-98 | for every word list and text the automaton returns exactly the naive list of all occurrences |
| Trie.TrieNode.constructor | go-zero/go-zero/core/stringx/trie.go:29-45 | the automaton is built over the non-empty words; a zero mask becomes the default one |
| Trie.TrieNode.ReplaceWithAsterisk | go-zero/go-zero/core/stringx/trie.go:90-94 | exactly the positions from start to stop are masked, in place |
| Trie.TrieNode.CollectKeywords | go-zero/go-zero/core/stringx/trie.go:74-88 | the texts of the scopes, each once |
| Trie.TrieNode.FindKeywords | go-zero/go-zero/core/stringx/trie.go:64-72 | exactly the added words that occur in the text, each once |
| Trie.TrieNode.Filter | go-zero/go-zero/core/stringx/trie.go:47-62 | a position is masked if and only if some occurrence of a word covers it; found if and only if some word occurs |
| Trie.KeywordsFound | go-zero/go-zero/core/stringx/trie.go:64-88 | no repeated scope text, and all of them, is the same as the set of occurring words |
| Replacer.RewriteCopies | go-zero/go-zero/core/stringx/replacer.go:57-82 | text in which no key starts is copied by the left-to-right rewrite |
| Replacer.RewriteNothing | go-zero/go-zero/core/stringx/replacer.go:50-56 | a text without any key is its own rewrite |
| Replacer.Replacer.FirstIsLeftmostLongest | go-zero/go-zero/core/stringx/replacer.go:57-80 | the first of the sorted scopes that is not overlapped is what the leftmost-longest rewrite replaces next |
| Replacer.Replacer.Substitute | go-zero/go-zero/core/stringx/replacer.go:65-83 | the loop over sorted scopes computes the leftmost-longest non-overlapping rewrite |
| Replacer.Replacer.DoReplace | go-zero/go-zero/core/stringx/replacer.go:50-84 | the leftmost-longest rewrite, and replaced if and only if some key occurs |
| Replacer.Replacer.Replace | go-zero/go-zero/core/stringx/replacer.go:39-48 | the rewrite applied twice, whatever the first pass returns |
| Replacer.Sort | go-zero/go-zero/core/stringx/replacer.go:57-63 | a permutation of the scopes, by start and then longest first, as the library sort is asked for |
| TimingWheelSpec.StepsSplit | go-zero/go-zero/core/collection/timingwheel.go:185-191 | position and circle split the number of steps into full turns and a distance of 1 to numSlots |
| TimingWheelSpec.PlacedRemaining | go-zero/go-zero/core/collection/timingwheel.go:323-338 | a new timer waits exactly the steps asked for |
| TimingWheelSpec.MovedRemaining | go-zero/go-zero/core/collection/timingwheel.go:199-230 | a moved timer waits the steps asked for, or exactly numSlots more or fewer; which of the three, if and only if |
| TimingWheelSpec.MovedExamples | go-zero/go-zero/core/collection/timingwheel.go:199-230 | concrete timers whose move is a turn late and a turn early |
| TimingWheelSpec.LateRun | go-zero/go-zero/core/collection/timingwheel.go:199-338 | a run from a new wheel in which a timer set again for 2 ticks fires after 12 |
| TimingWheelSpec.EarlyRun | go-zero/go-zero/core/collection/timingwheel.go:199-338 | a run from a new wheel in which a timer set again for 20 ticks fires after 10 |
| TimingWheelSpec.TickCountsDown | go-zero/go-zero/core/collection/timingwheel.go:283-321 | a tick brings every timer closer by one, relocated or not, and runs it if and only if one tick remained |
| TimingWheelSpec.StepValid | go-zero/go-zero/core/collection/timingwheel.go:199-351 | every operation keeps slots and offsets in range |
| TimingWheelSpec.TickPartitions | go-zero/go-zero/core/collection/timingwheel.go:283-321 | a tick runs or keeps each pending key, and never both |
| TimingWheelSpec.SetIsMove | go-zero/go-zero/core/collection/timingwheel.go:323-338 | setting a pending key moves it and changes its value |
| TimingWheelSpec.AbsentNeverFires | go-zero/go-zero/core/collection/timingwheel.go:249-267 | over any run, a key that is not pending and not set never fires |
| TimingWheelSpec.PendingFiresOnce | go-zero/go-zero/core/collection/timingwheel.go:249-267 | over any run that leaves the key alone, it fires once, at the tick its countdown says, with its value |
| TimingWheelSpec.FreshTimerFiresOnce | go-zero/go-zero/core/collection/timingwheel.go:323-338 | a fresh timer fires once, after max(1, delay/interval) ticks, whatever happens to other keys |
| TimingWheelSpec.SetAgainFiresOnce | go-zero/go-zero/core/collection/timingwheel.go:199-230 | a timer set again fires once with the last value, on time or a full turn off as the slots say |
| TimingWheelSpec.MovedFiresOnce | go-zero/go-zero/core/collection/timingwheel.go:199-230 | a moved timer fires once with the value it had, on time or a full turn off as the slots say |
| TimingWheelSpec.MovedAtOnceFiresTwice | go-zero/go-zero/core/collection/timingwheel.go:199-211 | a move by less than an interval fires at once, and again at the old countdown |
| TimingWheelSpec.RemovedNeverFires | go-zero/go-zero/core/collection/timingwheel.go:238-247 | a removed timer never fires |
| TimingWheel.TimingWheel.OneLiveEntry | go-zero/go-zero/core/collection/timingwheel.go:340-351 | two entries of one key that are not removed are the same one |
| TimingWheel.TimingWheel.GetPositionAndCircle | go-zero/go-zero/core/collection/timingwheel.go:185-191 | the steps of a delay of at least one interval are full turns of the wheel plus the distance from the hand to the slot |
| TimingWheel.TimingWheel.MoveTask | go-zero/go-zero/core/collection/timingwheel.go:199-230 | all three branches move the timer as the countdown specification says, and run it at once below one interval |
| TimingWheel.TimingWheel.RemoveTask | go-zero/go-zero/core/collection/timingwheel.go:238-247 | the key is gone from the schedule; no slot changes, and of all entries only the one of the key is marked removed |
| TimingWheel.TimingWheel.SetTask | go-zero/go-zero/core/collection/timingwheel.go:323-338 | a new entry, or the pending one with the new value and moved |
| TimingWheel.TimingWheel.VisitLive | go-zero/go-zero/core/collection/timingwheel.go:295-318 | a live entry is counted down, relocated by its offset, or taken out to run, as the countdown says |
| TimingWheel.TimingWheel.ScanAndRunTasks | go-zero/go-zero/core/collection/timingwheel.go:283-321 | after the scan every key of the slot was handled once, although relocation appends to other slots |
| TimingWheel.TimingWheel.OnTick | go-zero/go-zero/core/collection/timingwheel.go:232-236 | the wheel advances to the specified schedule and runs exactly the due timers, each once, with their values |
| TimingWheel.TimingWheel.SetTimer | go-zero/go-zero/core/collection/timingwheel.go:141-158 | a delay that is not positive is refused and changes nothing |
| TimingWheel.TimingWheel.MoveTimer | go-zero/go-zero/core/collection/timingwheel.go:110-124 | the same for a move; below one interval the pending task runs at once with its value, and its schedule stays |
| SafeMap.SafeMap.Del | go-zero/go-zero/core/collection/safemap.go:30-57 | one ordinary map loses the key, through both generation merges |
| SafeMap.SafeMap.MergeIntoNew | go-zero/go-zero/core/collection/safemap.go:42-49 | merging the old generation changes nothing a caller sees |
| SafeMap.SafeMap.MergeIntoOld | go-zero/go-zero/core/collection/safemap.go:50-56 | nor does merging the new one |
| SafeMap.SafeMap.Get | go-zero/go-zero/core/collection/safemap.go:60-70 | the value of the ordinary map, or none |
| SafeMap.SafeMap.Set | go-zero/go-zero/core/collection/safemap.go:91-108 | the ordinary map is updated, and the key stays in one generation |
| SafeMap.SafeMap.Size | go-zero/go-zero/core/collection/safemap.go:111-116 | the size of the ordinary map: no key is in both generations |
| SafeMap.SafeMap.Range | go-zero/go-zero/core/collection/safemap.go:74-88 | pairs of the ordinary map, each key once, until the function says stop, and all of them if it never does |
| Cache.RecencyNoRepeat | go-zero/go-zero/core/collection/cache.go:235-249 | the recency list of any sequence of uses names a key once |
| Cache.RecencyNames | go-zero/go-zero/core/collection/cache.go:235-269 | a recency list names exactly the keys used and not dropped since |
| Cache.RecencyIsByLastUse | go-zero/go-zero/core/collection/cache.go:235-269 | in the order of their last use, latest first |
| Cache.BoundedIsPrefix | go-zero/go-zero/core/collection/cache.go:235-269 | over any history of uses and removals the bounded list is a prefix of the unlimited recency list |
| Cache.BoundedIsMostRecent | go-zero/go-zero/core/collection/cache.go:235-249 | while nothing is removed, dropping the oldest key at every use leaves the `limit` most recently used keys |
| Cache.KeyLru.Add | go-zero/go-zero/core/collection/cache.go:235-249 | the key moves to the front; the last key is evicted if and only if a new key exceeds the limit, never the one added; the list stays that of the whole history |
| Cache.KeyLru.Remove | go-zero/go-zero/core/collection/cache.go:251-269 | the key leaves the list and is reported if it was there; the list stays that of the whole history |
| Cache.Cache.Del | go-zero/go-zero/core/collection/cache.go:79-89 | key gone from data, list and wheel; everything else stays |
| Cache.Cache.DoGet | go-zero/go-zero/core/collection/cache.go:164-174 | the cached value or none; a hit makes the key the most recent |
| Cache.Cache.SetWithExpire | go-zero/go-zero/core/collection/cache.go:109-122 | data, recency list and timers agree afterwards; only the least recently used key may go, never the one set; a new key waits its expiry, a cached one waits it anew or keeps its timer below a second, and every other timer stays |
| Cache.RescheduledMeans | go-zero/go-zero/core/collection/cache.go:109-122 | the ticks that every key then waits, in all cases of the expiry |
| Cache.Cache.Take | go-zero/go-zero/core/collection/cache.go:127-162 | the cached value, or what fetch returns; a fetched value changes data, list and wheel as setting it does, an error changes nothing, and no expiry is started |
| Cache.Cache.OnTick | go-zero/go-zero/core/collection/cache.go:44-76 | the wheel ticks, and exactly the due keys, each once, get an expiry that is still to delete them |
| HashRing.PlaceThenRemove | go-zero/go-zero/core/hash/consistenthash.go:67-165 | placing an absent node on any hashes, colliding or not, and removing it restores the ring |
| HashRing.FilterAdds | go-zero/go-zero/core/hash/consistenthash.go:151-165 | taking a node out of a slot works entry by entry and keeps the order |
| HashRing.PlacedOnce | go-zero/go-zero/core/hash/consistenthash.go:75-83 | on different hashes a node is appended once to each slot |
| HashRing.OwnerByPosition | go-zero/go-zero/core/hash/consistenthash.go:113-124 | the inner hash picks every node of a slot, by its position, round after round |
| Decimal.ItoaIsDecimal | go-zero/go-zero/core/hash/consistenthash.go:80 | the index of a virtual node is written as its decimal numeral |
| Decimal.DecimalUnique | go-zero/go-zero/core/hash/consistenthash.go:80 | which is the only one, so that different indices differ |
| HashRing.SlotGrows | go-zero/go-zero/core/hash/consistenthash.go:100-124 | with more keys the slot of a hash stays, or is a new key |
| HashRing.AddDisruptsOnlyOwnSlots | go-zero/go-zero/core/hash/consistenthash.go:67-124 | minimal disruption: after an add every value has the owner it had, or its slot holds the new node, which owns it if the slot is new |
| HashRing.FirstServesAll | go-zero/go-zero/core/hash/consistenthash.go:67-124 | the first node of a ring owns every value |
| HashRing.RemoveDisruptsOnlyOwnSlots | go-zero/go-zero/core/hash/consistenthash.go:100-149 | after a removal every value has the owner it had unless its slot held the node, and never the node |
| ConsistentHash.SortedUnique | go-zero/go-zero/core/hash/consistenthash.go:84-87 | a sorted key list is determined by its multiset |
| ConsistentHash.Search | go-zero/go-zero/core/hash/consistenthash.go:109-112 | the first key not below the hash, by binary search |
| ConsistentHash.ConsistentHash.RemoveRingNode | go-zero/go-zero/core/hash/consistenthash.go:151-165 | a slot loses the entries of one node, and is dropped when it is empty |
| ConsistentHash.ConsistentHash.InStepAfterRemove | go-zero/go-zero/core/hash/consistenthash.go:127-149 | keys and ring stay in step after a removal if and only if no virtual node that was not placed hits a slot of another node |
| ConsistentHash.ConsistentHash.GhostHitExample | go-zero/go-zero/core/hash/consistenthash.go:127-149 | what removing a node without virtual nodes does to a ring of one other node with the same first hash |
| ConsistentHash.ConsistentHash.DivideByZero | go-zero/go-zero/core/hash/consistenthash.go:67-149 | for any hash function with a collision, adding one node with one replica, another with none, and removing that makes `Get` divide by zero |
| ConsistentHash.DivideByZeroExample | go-zero/go-zero/core/hash/consistenthash.go:41-149 | the same, from a new ring with a constant hash function |
| ConsistentHash.ConsistentHash.Remove | go-zero/go-zero/core/hash/consistenthash.go:127-149 | ring and key multiset after a removal, nothing for an unknown node, and exactly when they stay in step |
| ConsistentHash.ConsistentHash.AddWithReplicas | go-zero/go-zero/core/hash/consistenthash.go:67-88 | an earlier placement of the node is replaced, at most `replicas` hashes are placed, keys stay sorted |
| ConsistentHash.ConsistentHash.HashesAreNumbered | go-zero/go-zero/core/hash/consistenthash.go:78-83 | the hashes of a node are those of its name with the numerals of all indices below the number of replicas, all different for an injective hash function |
| ConsistentHash.ConsistentHash.PlacedOncePerNumber | go-zero/go-zero/core/hash/consistenthash.go:78-83 | on each of these slots, and on no other, the node is placed once |
| ConsistentHash.ConsistentHash.Add | go-zero/go-zero/core/hash/consistenthash.go:60-62 | with full replicas the multiplicity of every key stays the length of its ring list; with an injective hash function the ring gains the node once for each decimal index |
| ConsistentHash.ConsistentHash.AddWithWeight | go-zero/go-zero/core/hash/consistenthash.go:92-97 | a weight in percent decides the number of virtual nodes |
| ConsistentHash.ConsistentHash.RemoveFull | go-zero/go-zero/core/hash/consistenthash.go:127-149 | full placement survives removals |
| ConsistentHash.ConsistentHash.AddThenRemove | go-zero/go-zero/core/hash/consistenthash.go:60-149 | adding an absent node and removing it restores keys and ring exactly |
| ConsistentHash.ConsistentHash.Get | go-zero/go-zero/core/hash/consistenthash.go:100-124 | with keys and ring in step a non-empty ring always returns the owner of the value, from the next slot on the circle; otherwise exactly when it divides by zero |
| RoutePatterns.ParseMeaning | go-zero/go-zero/core/search/tree.go:152-198 | a route is refused for a slash exactly when an inner segment is empty; a trailing slash is dropped |
| RoutePatterns.ParsedMatchesItself | go-zero/go-zero/core/search/tree.go:152-229 | every registered pattern matches the route it was registered with |
| RoutePatterns.BindsShallowest | go-zero/go-zero/core/search/tree.go:104-130 | a parameter name that occurs twice is bound to the segment of its shallowest occurrence |
| RoutePatterns.JoinSplit | go-zero/go-zero/core/search/tree.go:99-117 | the segments of a path have no slash and joined by slashes give the path |
| RoutePatterns.SplitJoin | go-zero/go-zero/core/search/tree.go:99-117 | there are no other segments of which that is true |
| RoutePatterns.MatchesTexts | go-zero/go-zero/core/search/tree.go:93-130 | a pattern matches exactly the texts that it gives with its parameters filled in, with or without one slash at the end |
| RoutePatterns.FixedMatches | go-zero/go-zero/core/search/tree.go:216-229 | a pattern without parameters matches its own text, or that with one trailing slash, and nothing else |
| RoutePatterns.FixedWins | go-zero/go-zero/core/search/tree.go:93-142 | and no other registered pattern is preferred to it there |
| RoutePatterns.ParsedText | go-zero/go-zero/core/search/tree.go:152-198 | a route that is accepted is the text of its pattern, with or without a trailing slash |
| SearchTree.Tree.AddBelow | go-zero/go-zero/core/search/tree.go:152-198 | the table of patterns gains the parsed route, or is unchanged with the error the code returns |
| SearchTree.Tree.Add | go-zero/go-zero/core/search/tree.go:62-80 | no error if and only if the route is well formed and its pattern new, and then the table gains it; a failed add never changes the table that every search answers from |
| SearchTree.Tree.TryChild | go-zero/go-zero/core/search/tree.go:105-115 | one child is tried: a match below it, or none |
| SearchTree.Tree.Next | go-zero/go-zero/core/search/tree.go:93-142 | the recursive search is sound and complete below a node |
| SearchTree.Tree.Search | go-zero/go-zero/core/search/tree.go:83-91 | found if and only if some registered pattern matches segment by segment; its item and bindings; a parameter is taken only where no static child leads to a match; a registered route without parameters is always found |
| RollingWindow.RollingWindow.Span | go-zero/go-zero/core/collection/rollingwindow.go:83-90 | the number of slots passed since the last update, at most `size` |
| RollingWindow.RollingWindow.HoldsLater | go-zero/go-zero/core/collection/rollingwindow.go:92-108 | after resetting the passed buckets and turning the offset, every bucket holds what the log has for its slot, also after gaps longer than the window |
| RollingWindow.RollingWindow.UpdateOffset | go-zero/go-zero/core/collection/rollingwindow.go:92-108 | the window stands at the slot of the clock reading, aligned to the interval |
| RollingWindow.RollingWindow.Add | go-zero/go-zero/core/collection/rollingwindow.go:57-62 | the log gains the value in the slot of its time |
| RollingWindow.RollingWindow.Reduce | go-zero/go-zero/core/collection/rollingwindow.go:65-81 | as many buckets as intervals of the window have not passed are visited, oldest first, each with exactly the values of its interval |
| RollingWindow.RollingWindow.AddThenReduce | go-zero/go-zero/core/collection/rollingwindow.go:57-81 | a value just added is in the last of `size` buckets, or in none of `size - 1` if the current interval is ignored |
| RollingWindow.RollingWindow.VisitedHoldWindow | go-zero/go-zero/core/collection/rollingwindow.go:65-81 | together they hold exactly the values of the last `size` slots, without the current one if it is ignored |
| RollingWindow.SlotsSplit | go-zero/go-zero/core/collection/rollingwindow.go:65-81 | a range of slots of the log is the concatenation of its slots |
| Breaker.GoogleBreaker.FoldTallies | go-zero/go-zero/core/breaker/bucket.go:17-48 | over any history of marks a bucket has Sum = Success + Failure + Drop and counts each kind |
| Breaker.WorkingOrFailing | go-zero/go-zero/core/breaker/googlebreaker.go:133-152 | there are never both working and failing buckets |
| Breaker.OneMoreBucket | go-zero/go-zero/core/breaker/googlebreaker.go:133-152 | the two counters of the loop follow their meaning: buckets since the last failure, or success |
| Breaker.GoogleBreaker.History | go-zero/go-zero/core/breaker/googlebreaker.go:133-152 | accepts and total of the recent marks of the log, and the two counters of all buckets of the window |
| Breaker.GoogleBreaker.BucketsTally | go-zero/go-zero/core/breaker/googlebreaker.go:133-152 | these buckets, at most as many as the window has, each count the marks of one interval |
| Breaker.WeightBounds | go-zero/go-zero/core/breaker/googlebreaker.go:53-62 | the weight lies between 1.1 and 1.5, at both ends exactly when stated |
| Breaker.RatioBounds | go-zero/go-zero/core/breaker/googlebreaker.go:53-68 | a positive ratio is below 1 and needs more than 5 + 0.1 accepts requests not accepted |
| Breaker.ProbabilityBounds | go-zero/go-zero/core/breaker/googlebreaker.go:69-78 | the probability used lies in [0, 1), and is 0 when all buckets work |
| Breaker.GoogleBreaker.Accept | go-zero/go-zero/core/breaker/googlebreaker.go:53-80 | a request is refused if and only if the log, the last pass and the draw say so; always refused in an outage or with too few accepts, but for the forced pass; lastPass afterwards |
| Breaker.GoogleBreaker.RefusesExactly | go-zero/go-zero/core/breaker/googlebreaker.go:53-80 | when that is, as one inequality between the marks, the accepts, the failing and working buckets and the draw |
| Breaker.GoogleBreaker.OutageRefused | go-zero/go-zero/core/breaker/googlebreaker.go:53-80 | without a single success among more than five marks, a draw below their share refuses |
| Breaker.GoogleBreaker.CrowdedRefused | go-zero/go-zero/core/breaker/googlebreaker.go:53-80 | marks that exceed one and a half times the accepts by more than five refuse a draw below their share |
| Breaker.FewerWorking | go-zero/go-zero/core/breaker/googlebreaker.go:71 | the probability does not fall with fewer working buckets |
| Breaker.MoreMarks | go-zero/go-zero/core/breaker/googlebreaker.go:60 | the ratio grows with marks that were not accepted |
| Breaker.MoreFailing | go-zero/go-zero/core/breaker/googlebreaker.go:56-60 | it does not fall with more failing buckets |
| Breaker.FewerAccepts | go-zero/go-zero/core/breaker/googlebreaker.go:57-60 | it grows when fewer of the same marks are accepts |
| Breaker.WeightLinear | go-zero/go-zero/core/breaker/googlebreaker.go:56-57 | each failing bucket takes 0.01 off the weight |
| Breaker.GoogleBreaker.DoReq | go-zero/go-zero/core/breaker/googlebreaker.go:93-119 | one mark a request, drop at the first reading or the outcome at the later one, a panic counting as failure; the error of the request, of the fallback, or of the breaker; few requests and a long silence always pass |
| Breaker.GoogleBreaker.MarkOne | go-zero/go-zero/core/breaker/googlebreaker.go:121-131 | a mark is logged in the slot of its time |
| TopKTasks.TaskHeap.Push | go-zero/go-zero/core/stat/topk.go:19-21 | heap order and multiset after sifting up |
| TopKTasks.TaskHeap.Pop | go-zero/go-zero/core/stat/topk.go:23-29 | the least task leaves, heap order stays |
| TopKTasks.RootIsLeast | go-zero/go-zero/core/stat/topk.go:31-45 | the root of a heap is no longer than any task in it |
| TopKTasks.TopK | go-zero/go-zero/core/stat/topk.go:31-45 | the k longest tasks as a multiset, the k-th longest first |
| TopKTasks.LongestOfLongest | go-zero/go-zero/core/stat/metrics.go:134-178 | a selection out of a selection is a selection out of all tasks |
| TopKTasks.RankMonotone | go-zero/go-zero/core/stat/metrics.go:134-178 | a lower rank has no longer duration |
| Metrics.MetricsContainer.AddTask | go-zero/go-zero/core/stat/metrics.go:107-118 | a drop is counted, any other task is kept with its duration |
| Metrics.MetricsContainer.RemoveAll | go-zero/go-zero/core/stat/metrics.go:183-196 | all of them are handed over once and the container is empty |
| Metrics.Percentiles | go-zero/go-zero/core/stat/metrics.go:134-178 | in every branch of the cascade the percentile has its rank among all tasks |
| Metrics.Execute | go-zero/go-zero/core/stat/metrics.go:120-181 | the report, and Median <= Top90th <= Top99th <= Top99p9th in every branch |
| Metrics.GetTopDuration | go-zero/go-zero/core/stat/metrics.go:198-205 | the longest duration |
| Metrics.TotalAdds | go-zero/go-zero/core/stat/metrics.go:107-118 | the total is that of the durations, however they are added up |
| Metrics.QuotCutsTowardsZero | go-zero/go-zero/core/stat/metrics.go:120-133 | the quotient of the average is cut towards zero |
| Metrics.MillisLaw | go-zero/go-zero/core/stat/metrics.go:134-178 | a reported duration is in milliseconds, and keeps the order |
| PeriodicalExecutor.StepKeepsInv | go-zero/go-zero/core/executors/periodicalexecutor.go:67-202 | every step keeps: each added task in one place, guarded means one leader, inflight and wait group count what they should, confirmations match batches |
| PeriodicalExecutor.EveryTaskInOnePlace | go-zero/go-zero/core/executors/periodicalexecutor.go:67-202 | in every interleaving an added task is in the container, in one batch under way, or handed to Execute, as often as it was added |
| PeriodicalExecutor.OneLeader | go-zero/go-zero/core/executors/periodicalexecutor.go:96-115 | there are never two background loops in charge |
| PeriodicalExecutor.WorkHasAnOwner | go-zero/go-zero/core/executors/periodicalexecutor.go:96-202 | while a batch is in flight a loop that has not quit, or an adder about to start one, is there; while the container holds tasks such a loop, or one that still owes its final flush |
| PeriodicalExecutor.OwnerMoves | go-zero/go-zero/core/executors/periodicalexecutor.go:117-149 | that loop is never stuck: when it confirms, an adder waits |
| PeriodicalExecutor.OwnerExecutesBatch | go-zero/go-zero/core/executors/periodicalexecutor.go:117-149 | wherever the loop stands, at most nine steps of its own hand the batch in the channel to Execute |
| PeriodicalExecutor.OwnerFlushes | go-zero/go-zero/core/executors/periodicalexecutor.go:73-80 | with no batch in the channel, at most eight steps of a loop, of one on its way out, or of a caller of Flush hand everything in the container to Execute |
| PeriodicalExecutor.FlushedInTime | go-zero/go-zero/core/executors/periodicalexecutor.go:117-149 | the same for every choice that its ticker and its clock make on the way |
| PeriodicalExecutor.IdleLoopEnds | go-zero/go-zero/core/executors/periodicalexecutor.go:139-149 | a loop that was idle for long enough, with nothing in flight, gives up the guard and ends |
| PeriodicalExecutor.BusyLoopStays | go-zero/go-zero/core/executors/periodicalexecutor.go:187-202 | a loop that was not stays in charge |
| PeriodicalExecutor.WaitMeansExecuted | go-zero/go-zero/core/executors/periodicalexecutor.go:89-94 | when the calls of Add have returned and the wait group is zero, all tasks outside the container have been handed to Execute |
| PeriodicalExecutor.AllExecutedAtTheEnd | go-zero/go-zero/core/executors/periodicalexecutor.go:117-149 | when callers have returned and loops have ended, the container is empty and everything was executed |
| MapReduce.StepKeepsInv | go-zero/go-zero/core/mr/mapreduce.go:216-388 | every step of source, dispatcher, mappers, reducer, caller and cancellation keeps the counts, the items, the values and the order of events |
| MapReduce.GuardsHold | go-zero/go-zero/core/mr/mapreduce.go:227-253 | returning a token never blocks, and a mapper is spawned for exactly the one item received |
| MapReduce.AtMostWorkers | go-zero/go-zero/core/mr/mapreduce.go:224-255 | in every run at most `workers` mappers are at work and no item is mapped more often than generated |
| MapReduce.NoSendOnClosedCollector | go-zero/go-zero/core/mr/mapreduce.go:216-255 | in every run, with panics and cancellation, no mapper sends on a closed collector, and the collector is still being emptied |
| MapReduce.EachItemMappedOnce | go-zero/go-zero/core/mr/mapreduce.go:216-255 | without cancel, panic or end of the context, each item is mapped exactly once, in order, and all mappers are through when the collector is closed |
| MapReduce.ReducerReceivesAll | go-zero/go-zero/core/mr/mapreduce.go:295-317 | in such a run a reducer that reads to the close has exactly the multiset of values written |
| MapReduce.CallerGetsTheOneValue | go-zero/go-zero/core/mr/mapreduce.go:258-338 | in such a run the caller gets the value if and only if the reducer wrote one, no output if it wrote none, a panic if it wrote more |
| MapReduce.ValueIsTheReducers | go-zero/go-zero/core/mr/mapreduce.go:258-338 | in every run a returned value is the only one received from the reducer |
| MapReduce.NoOutputMeansNoneWritten | go-zero/go-zero/core/mr/mapreduce.go:258-338 | in every run, no output is reported only when the reducer has ended without a value delivered |
| MapReduce.CallerKeepsCourse | go-zero/go-zero/core/mr/mapreduce.go:319-337 | in every run, a caller without a value when the run is cancelled never returns one; the end of the context and a panic that it has seen stay its result |
| MapReduce.FailureStopsMapping | go-zero/go-zero/core/mr/mapreduce.go:227-255 | after a mapper has panicked at most one more item is mapped |
| MapReduce.WritesLetGoAtTheEnd | go-zero/go-zero/core/mr/mapreduce.go:370-377 | after the end of the context or of the run no value written by a mapper goes to the collector |
| MapReduce.OutputLetGoAtTheEnd | go-zero/go-zero/core/mr/mapreduce.go:370-377 | nor a value written by the reducer to the caller |
| MapReduce.CancelFinishesRun | go-zero/go-zero/core/mr/mapreduce.go:278-293 | a cancelled run drains the closed source and then closes done |
| MapReduce.CalmRunsGoOn | go-zero/go-zero/core/mr/mapreduce.go:216-338 | no deadlock: without cancel, panic or end of the context, and with functions that return, some step is possible until the caller has returned |
| MapReduce.ReadersGoOn | go-zero/go-zero/core/mr/mapreduce.go:216-317 | in every run, a reducer that reads has a value or the close to read, or source, dispatcher or a mapper can go on, until it has seen the close |
| StableRunner.StepKeepsInv | go-zero/go-zero/core/threading/stablerunner.go:58-106 | every step keeps each message in one place and each holder in pushing order |
| StableRunner.TakenInPushedOrder | go-zero/go-zero/core/threading/stablerunner.go:58-97 | in every run, for any order of completion, before and after done is closed, the k-th value of Get is handle of the k-th message |
| StableRunner.RefusedWhenAllTaken | go-zero/go-zero/core/threading/stablerunner.go:65-75 | Get is first refused when done is closed and everything pushed so far has been taken |
| StableRunner.GetMoves | go-zero/go-zero/core/threading/stablerunner.go:58-97 | a Get whose message has been pushed is never stuck, however the locks, channels and workers are taken |
| StableRunner.PushMoves | go-zero/go-zero/core/threading/stablerunner.go:80-97 | a push under way can go on, or a task can, or the consumer's next message is ready |
| StableRunner.AtMostWorkers | go-zero/go-zero/core/threading/stablerunner.go:48-53 | no more tasks are at work than there are workers |
| StableRunner.WaitTakesAll | go-zero/go-zero/core/threading/stablerunner.go:78-106 | for a reachable state in which done is closed: every continuation that makes the indices meet has taken every pushed message, if and only if no push was past its check then |
| StableRunner.PushPastItsCheckIsMissed | go-zero/go-zero/core/threading/stablerunner.go:58-106 | from any such state with a push past its check, a run in which the earlier messages are taken, the push returns without error, Wait sees the indices meet, and the message is missed |
| StableRunner.AtMostOneMissed | go-zero/go-zero/core/threading/stablerunner.go:99-106 | when the indices meet all but at most one message have been taken, and all if Get was never refused |
| StableRunner.MissedMessage | go-zero/go-zero/core/threading/stablerunner.go:80-106 | for every runner with at least two holders and any number of workers, a run from the start that misses its only message, after which the next Get can only be refused |
| StableRunner.SameRound | go-zero/go-zero/core/threading/stablerunner.go:61-63 | two messages of one holder, less than a round apart, are the same |
| SingleFlight.StepKeepsInv | go-zero/go-zero/core/syncx/singleflight.go:36-81 | every step keeps the table, the calls and the callers consistent |
| SingleFlight.CallsExist | go-zero/go-zero/core/syncx/singleflight.go:56-70 | every caller past createCall has a call that was registered |
| SingleFlight.OneRunsPerKey | go-zero/go-zero/core/syncx/singleflight.go:56-81 | at most one function runs for a key |
| SingleFlight.SharesTheRegisteredCall | go-zero/go-zero/core/syncx/singleflight.go:36-81 | a caller returns what the call registered when it arrived recorded, only after its function is over, and runs its own function if there was none |
| SingleFlight.EveryoneGetsTheResult | go-zero/go-zero/core/syncx/singleflight.go:36-81 | what a function returns is what its caller and all that joined it return |
| SingleFlight.WaitersAreReleased | go-zero/go-zero/core/syncx/singleflight.go:56-81 | whoever waits, waits for a maker that can go on to release it, also when its function panics |
| ResourceManager.StepKeepsInv | go-zero/go-zero/core/syncx/resourcemanager.go:45-71 | look-up, creation and storing by the running function keep map, flight and log of creations consistent |
| ResourceManager.CreateSucceedsOnce | go-zero/go-zero/core/syncx/resourcemanager.go:45-71 | create succeeds at most once for a key |
| ResourceManager.AllGetTheSame | go-zero/go-zero/core/syncx/resourcemanager.go:45-71 | all successful calls for a key return the same resource, which create returned |
| ResourceManager.CreatedIsReturned | go-zero/go-zero/core/syncx/resourcemanager.go:45-71 | a resource that create returns is stored and is what its caller and all that joined it return |
| ResourceManager.OutcomeIsReturned | go-zero/go-zero/core/syncx/resourcemanager.go:45-71 | so is a resource that was there, and an error; after a panic nothing is |

## Left out

- `TimingWheel.Drain` and `Stop`: draining empties the slots but not the timers; treated as the end of a wheel.
- TimingWheel.TimingWheel.OnTick: tasks are returned in a list; that they run in their own goroutine is not modelled.
- Cache.Cache.SetWithExpire: sequential; races between the cache and its wheel, whose timers change outside the lock, are not modelled. The spread of the expiry around its mean is an input.
- Cache.Cache.Take: one caller; the single flight around fetch is the subject of module `SingleFlight`.
- The list and element pointers of the LRU are a sequence of keys; slots of the wheel are sequences of entries.
- Breaker.GoogleBreaker.DoReq: a fallback that panics is not modelled, and an acceptable function that panics neither.
- ConsistentHash.ConsistentHash.AddWithReplicas: for partial replicas the ring invariant is claimed only under the stated condition on collisions.
- Hash values are naturals; their width of 64 bits plays no part. The string forms of nodes are an arbitrary function.
- RollingWindow.RollingWindow.UpdateOffset: one clock reading an operation, never going backwards; the second reading inside is not modelled.
- Floating-point rounding in the breaker and the percentiles: reals. The random draw of the breaker is an input.
- Trie.TrieNode.Filter: strings are sequences of characters; invalid UTF-8 and byte offsets of runes are not modelled.
- The library sort, binary search and map iteration are modelled by what they promise; iteration order is arbitrary.
- PeriodicalExecutor.WaitMeansExecuted: which adder a confirmation reaches is arbitrary, so nothing is claimed of the batch of one particular adder. A panic inside Execute is swallowed by the source and does not change the protocol. `Sync` is not modelled.
- PeriodicalExecutor.OwnerExecutesBatch: the steps exist and are bounded; that the scheduler takes them, and that select does not prefer the ticker for ever, is not modelled.
- MapReduce.AtMostWorkers: a goroutine that calls cancel may go on while cancel drains the source, which allows more runs than the source has. `ForEach`, `Finish` and options are not modelled.
- MapReduce.NoSendOnClosedCollector: a panic report that finds no receiver may wait for ever in the source; the model lets it wait by not scheduling the step.
- StableRunner.TakenInPushedOrder: one pusher, one consumer and a handler that does not panic.
- ResourceManager.AllGetTheSame: without Inject and Close. A caller that joins a flight whose create panicked does not return a resource.
- SingleFlight.WaitersAreReleased: the function of the maker is assumed to end or panic.
- Statistics, logging, report writers, timers of goroutines and shutdown listeners.
- Queues, sets, padding, limiters, pools and other small structures, which would only add easy members.
- Message queues, service discovery, tracing, gateways, generated code, file rotation and configuration mapping: wrappers without a core.
