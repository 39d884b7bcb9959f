# duallity: verified model of the lazy transducer core

duallity turns dictionary queries into weighted transducers whose states are computed on demand. This project models its
compute core in Dafny and proves what those transducers mean. The dictionary is an arbitrary finite trie; characters are
classified and folded by arbitrary total functions; weights are exact natural numbers.

The five parts, and the main theorem of each:

1. **Levenshtein product** (`LevenshteinCodec`, `EditDistance`, `LevenshteinGraph`, `LevenshteinSource`,
   `LevenshteinTraversal`). State IDs pack a dictionary node, a query position, an edit cost and, for transposition, merge
   and split, a continuation kind into a `u32`. `LazySearchIsExact`: a traversal that sees nothing but IDs, while clones
   extend the shared registry underneath it, reads a prefix of the query, writes a dictionary term, and pays exactly for an
   alignment of the two and for deleting the rest of the query, never below the edit distance and never above the bound;
   when the IDs fit, every such reading is found, and every term within the bound at exactly its edit distance while the
   whole query is read. The distance is the recurrence extended by adjacent swap, 2-to-1 merge and 1-to-2 split, itself
   proved to be the least cost of an alignment.
2. **Generalized expansion as a transaction** (`Generalized*`). An explicit-stack path search stages nodes, a commit
   reconciles them with what other clones published and publishes nodes and states together. Whenever the locks are free
   (`SharedRegistries.Yield`) other clones publish an arbitrary batch of node IDs, product states and emission chains, so
   an expansion can find all of them new at its next lock section, in the search, between reconciliation attempts or
   before it stages its first state. `CommitExpansion` compares the registries with `Others`, which is what the foreign
   batches alone would have made of them: an aborted transaction leaves exactly that; a committed one leaves that plus
   an ID for every staged path that has none and the states its arcs need, and nothing else. Every failure has a cause
   that holds of the budget or of the registries, the cost of a search is exact, and the retry loop ends.
   `RelationIsAlignment` says that the accepted pairs and costs are exactly the alignments by operations of the original
   set within the budget, and `TiresForCause` why a traversal may stop short: with limits that cover what an expansion can
   cost, for every number of foreign batches, only because additions do not fit. `CanAnswer` shows that from any sound
   registries an expansion has such an answer. For the usual edit operations the accepted costs are the edit distance of
   part 1 (`EditsAreExact`).
3. **fzf V2 scoring** (`Fzf*`). `FzfNumbers` states every scoring rule in numbers, for every column. The per-character
   column decides subsequence matching exactly, every score is that of a
   concrete embedding of the query scored by itself, the prefix bound dominates
   every completion that fits the length limit, the pruned walk leaves in its heap the unique top k of scoring every term
   independently, and the transducer accepts exactly the matching terms with arc deltas that telescope to the same score.
4. **Lazy state cache** (`LazyCache`). The cache with its lazy-deletion heap, compaction and tick renumbering behaves over
   every run as a plain recency list, stays within its limits, and serves what the source would have answered, through any
   sequence of queries, resizes, policy changes and clearings (`Serve`).
5. **Three graph builders**. The phonetic NFA subset construction (`Phonetic*`), the rewrite transducer with dominated-arc
   pruning (`Rewrite*`) and the WallBreaker result forest (`WallBreaker*`), each with its exact language or relation.
   `FaultScope` is the stack that routes provider faults to nested scopes.

Lazy sources are proved in two layers. A class method states what one expansion returns in terms of the registries as they
are when it finishes. The traversal theorems then range over every function with that contract (`Honest`), whose registries
may have grown arbitrarily between two expansions. A snapshot carries a moment, which every expansion advances: two visits
of one state may therefore meet different growth, or succeed once and fail once. `HonestExists` shows that such functions
exist.

Where a stated promise fails, the model keeps the code's behaviour and shows when it does hold:

- `encode_transpose_second_state` does not check that the algorithm has a transpose slot. Under merge/split without
  transposition it yields the ID of a merge state (`TransposeEncoderCollides`). Decoding inverts a successful in-range
  encoding exactly when the algorithm supports the state (`DecodeInvertsEncode`); the source only calls the encoder then.
- A child's fzf bound can exceed its parent's once the child lies beyond the length limit (`BoundMayGrowBeyondLimit`).
  `BoundShrinksExactly` says when it does not, for every column that scoring can reach: if and only if the child is within
  the limit or its last cell does not beat the best score so far. `enter` tests the length first, so the search is
  unaffected.
- On the empty string the phonetic construction takes the start closure before the end closure, so an end anchor in front
  of a start anchor is not crossed although both hold there (`EndBeforeStartIsRejected`). `SubsetIsRun` gives the exact
  language: runs in which no start anchor follows an end anchor. `PositionsDecideExactly` says when that is what position
  alone decides: if and only if the string is not empty, or no final state can be reached over anchors in any order, or
  one can be reached over start anchors followed by end anchors. NFAs without a start anchor behind an end anchor always
  qualify (`OrderedAnchorsSuffice`), and some others (`OrderedAnchorsNotNeeded`).
- A character outside the configured alphabet may be accepted, when some other arc of the current state set spells it out;
  `LanguageIsExact` states exactly which characters are offered, and that nothing is lost over the alphabet.

## Model

| member | source | states |
|---|---|---|
| `NodeRegistry.ChildKeyInjective` | src/node_key.rs:11-23 | packed keys determine parent and label, and no `u32` parent packs to the root key |
| `NodeRegistry.KeysInNumbers` | src/node_key.rs:11-23 | keys in numbers: the label in the low 21 bits, the parent above them, all ones for the root |
| `NodeRegistry.PathStable` | src/node_registry.rs:28-37 | appending registrations never changes the path an ID denotes |
| `NodeRegistry.PathInjective` | src/node_registry.rs:28-37 | two IDs denote the same path only if they are the same ID |
| `NodeRegistry.RegistryBounded` | src/node_registry.rs:28-37 | a registry never holds more IDs than the dictionary has paths |
| `NodeRegistry.DenotesSnoc` | src/node_registry.rs:28-37 | registering the child along an edge keeps every ID denoting the node its path reaches |
| `NodeRegistry.DictionaryNodeRegistry.constructor` | src/node_registry.rs:19-26 | the fresh registry holds the root alone |
| `NodeRegistry.DictionaryNodeRegistry.CandidateId` | src/node_registry.rs:39-42 | a registered step gets the ID it already has, a new one the ID that registering it would append, and none exactly if a new step finds all `u32` IDs used |
| `NodeRegistry.DictionaryNodeRegistry.RegisterNode` | src/node_registry.rs:28-37 | a known step keeps its ID, a new one gets the next, exhaustion changes nothing; map and vectors stay inverse |
| `NodeRegistry.DictionaryNodeRegistry.CommitPrepared` | src/node_registry.rs:65-72 | appends a prepared batch and keeps map and vectors inverse |
| `LevenshteinCodec.DecodeInvertsEncode` | src/state_source_support.rs:89-181 | for every query length, distance and algorithm, decoding inverts a successful in-range encode exactly if the state is supported |
| `LevenshteinCodec.TransposeEncoderCollides` | src/state_source_support.rs:98-109 | the unchecked transpose encoder can return a merge state's ID |
| `LevenshteinCodec.EncodeInjective` | src/state_source_support.rs:89-181 | the four kinds of automaton state never collide, saturated bounds included |
| `LevenshteinCodec.ProductRoundTrip` | src/lib.rs:319-346 | product packing is inverted by decoding, so it is injective |
| `LevenshteinCodec.EncodeTotal` | src/state_source_support.rs:25-38 | without saturation every supported in-range state has an ID |
| `LevenshteinCodec.ProductTotal` | src/lib.rs:319-331 | if nodes times states fit in `u32`, every pair has an ID |
| `LevenshteinCodec.IdsInNumbers` | src/state_source_support.rs:66-175 | without saturation the IDs are costs within positions within kinds within nodes, in numbers, with normal states first, then swaps, merges and splits |
| `EditDistance.DistanceIsLowerBound` | src/state_source.rs:188-197 | no alignment by the algorithm's edits costs less than the distance |
| `EditDistance.DistanceIsAttained` | src/state_source.rs:188-197 | some alignment costs exactly the distance |
| `LevenshteinGraph.PathOwes` | src/state_source.rs:273-692 | an accepting path writes a dictionary term and pays at least its distance to the rest of the query, within the bound |
| `LevenshteinGraph.PathOfAlignment` | src/state_source.rs:273-692 | every alignment of a prefix of the unread query that leaves room for deleting the rest is an accepting path that reads exactly this prefix |
| `LevenshteinGraph.PathOfDistance` | src/state_source.rs:273-692 | every term within the bound has an accepting path at exactly its distance, on which the whole query is read |
| `LevenshteinGraph.PathAligns` | src/state_source.rs:273-708 | an accepting path aligns what it reads with what it writes, edit by edit, and its final weight deletes the rest of the query |
| `LevenshteinGraph.PathsAreAlignments` | src/state_source.rs:273-708 | an accepting path reads a given string and writes a given term at a given weight if and only if the string is a prefix of the query, the term is in the dictionary, and aligning them and deleting the rest costs the weight, within the bound |
| `LevenshteinGraph.StartsFirst` | src/state_source.rs:322-391 | the child-edge lookahead refuses no edit that can be completed below the node |
| `LevenshteinGraph.LeastWeightIsDistance` | src/state_source.rs:273-708 | the least accepting weight for a term is its bounded edit distance, and there is none beyond the bound |
| `LevenshteinGraph.WeightsSumToCost` | src/state_source.rs:273-528 | arc weights on any path sum to the growth of the decoded edit cost, which stays within the bound |
| `LevenshteinGraph.InputsSpellQuery` | src/state_source.rs:408-528 | the input side of an accepting path spells the query up to the part that is deleted on acceptance |
| `LevenshteinGraph.ArcsInOrder` | src/state_source.rs:345-528 | the arcs of a state come edge by edge, on each edge by kind of edit (match or substitute, insert, swap, merge, split), and last what stays on the node |
| `LevenshteinSource.StateIdRoundTrip` | src/state_source_support.rs:66-87 | an ID that was handed out denotes the node and state it was handed out for |
| `LevenshteinSource.StateIdTotal` | src/state_source_support.rs:71-87 | when everything fits, each enterable state of each node has an ID |
| `LevenshteinSource.EncodeKeepsOrder` | src/state_source.rs:404-528 | the encodable arcs are emitted in the order of the arcs, each with its own labels, weight and target ID |
| `LevenshteinSource.StateIdShrinks` | src/state_source_support.rs:71-87 | a state that has an ID at a later node has one at every earlier node, so waiting never makes a child addressable |
| `LevenshteinSource.AccountedKept` | src/state_source.rs:710-732 | a child that was rightly left out stays rightly left out while the registry grows |
| `LevenshteinSource.NotMissing` | src/state_source.rs:710-732 | when everything fits, no child with an arc is left out |
| `LevenshteinSource.LevenshteinStateSource.constructor` | src/state_source.rs:102-122 | the fresh source has registered the root alone |
| `LevenshteinSource.LevenshteinStateSource.ExpandEdge` | src/state_source.rs:710-732 | a child is registered exactly if it is new and some target then has an ID, nothing else is registered, and exactly the encodable arcs along the edge are emitted |
| `LevenshteinSource.LevenshteinStateSource.ExpandState` | src/state_source.rs:198-271 | an expansion returns the final weight and exactly the encodable arcs, in order; a child is registered only if that gives some arc a target ID, and left out only if it would not |
| `LevenshteinTraversal.FindsIsPath` | src/state_source.rs:741-755 | what a traversal through IDs finds is an accepting path of the graph |
| `LevenshteinTraversal.PathIsFound` | src/state_source.rs:741-755 | when IDs fit, every accepting path can be found through IDs |
| `LevenshteinTraversal.FoundIsReading` | src/state_source.rs:273-755 | what a traversal reads, writes and pays is such an alignment |
| `LevenshteinTraversal.ReadingIsFound` | src/state_source.rs:273-755 | when IDs fit, every such alignment is found |
| `LevenshteinTraversal.HonestExists` | src/state_source.rs:198-271 | some function has the contract that the traversal theorems assume |
| `LevenshteinTraversal.LazySearchIsExact` | src/state_source.rs:273-708 | over every interleaving, a traversal reads a prefix of the query and pays for an alignment of it with a dictionary term and for deleting the rest, never below the edit distance nor above the bound; when IDs fit, every such reading is found, and each term within the bound at its distance while the whole query is read |
| `FzfCore.Core.BonusFor` | src/fzf_support.rs:393-428 | every bonus lies between zero and the configured maximum bonus |
| `FzfNumbers.BonusTable` | src/fzf_support.rs:393-428 | the bonus of every pair of character classes under every scheme, in numbers |
| `FzfNumbers.StartInNumbers` | src/fzf_support.rs:164-171 | where a candidate starts: after a delimiter for paths, after white space otherwise, with nothing matched |
| `FzfNumbers.FirstInNumbers` | src/fzf_support.rs:173-212 | for every column, a match of the first query character scores 16 and twice its bonus; otherwise a gap costs it 3, or 1 if one is open |
| `FzfNumbers.LaterInNumbers` | src/fzf_support.rs:214-274 | for every column, a later cell scores at least what a match after the one before it gives (16 and its bonus, at least 4 and the bonus of the run within a run) and at least what a gap after itself leaves, and exactly one of the two or 0; the gap state and the run follow the better one |
| `FzfNumbers.BestInNumbers` | src/fzf_support.rs:275-289 | the best score is the greatest that the last query character has had |
| `FzfCore.AdvanceColumn` | src/fzf_support.rs:173-289 | the column loop computes the cell recurrence, whose steps are stated in numbers above |
| `FzfCore.ScoreChars` | src/fzf_support.rs:291-314 | scoring a candidate is folding it, and candidates beyond the limit are refused |
| `FzfCore.FoldAppend` | src/fzf_support.rs:291-314 | columns compose: a candidate may be folded in two pieces |
| `FzfBound.ReachableIffSubsequence` | src/fzf_support.rs:173-289 | cell i is reachable exactly if the first i+1 query characters are a subsequence of the folded candidate |
| `FzfBound.ScoredIffSubsequence` | src/fzf_support.rs:164-306 | a score exists exactly if the query is a subsequence of the folded candidate |
| `FzfBound.SaneFold` | src/fzf_support.rs:173-289 | reachable cells and best scores stay non-negative machine integers along every fold |
| `FzfBound.CoveredColumn` | src/fzf_support.rs:173-306 | in the column of any candidate the best score is at least that of the last cell |
| `FzfAlignment.CellIsRealised` | src/fzf_support.rs:173-289 | every reachable cell is the running score of one embedding of the query characters up to it, scored on its own by the match, bonus and gap rules |
| `FzfAlignment.ScoreIsRealised` | src/fzf_support.rs:291-306 | a candidate's score is that of an embedding of the whole query into it |
| `FzfBound.BoundIsGreatest` | src/fzf_support.rs:316-353 | the bound is the greatest of the optimistic terms, and none exactly if no cell can still complete |
| `FzfBound.UpperBound` | src/fzf_support.rs:316-343 | the loop computes that bound |
| `FzfNumbers.OptimisticInNumbers` | src/fzf_support.rs:325-343 | what a reached cell can still gain: 26, 25 or 24 for each query character left, by scheme, up to the end of `i32` |
| `FzfNumbers.MaximumInNumbers` | src/fzf_support.rs:345-353 | the greatest score of a query, in numbers |
| `FzfNumbers.BoundInNumbers` | src/fzf_support.rs:316-353 | the prefix bound is the greatest of the best score so far, of every reached cell completed at the most it can gain, and of the greatest score of the query, each if it fits the length limit |
| `FzfBound.BoundShrinks` | src/fzf_support.rs:316-353 | within the length limit a child's bound never exceeds its parent's |
| `FzfBound.BoundMayGrowBeyondLimit` | src/fzf_support.rs:316-343 | a column at the limit whose child has the larger bound |
| `FzfBound.BoundShrinksExactly` | src/fzf_support.rs:316-353 | for every column that scoring can reach, a child's bound is at most its parent's if and only if the child fits the limit or its last cell does not beat the best score |
| `FzfBound.BoundDominatesCompletions` | src/fzf_support.rs:316-353 | no completion that fits the limit scores above the prefix bound, and none matches if there is no bound |
| `FzfSearch.TopKUnique` | src/fzf_scorer.rs:123-141 | the top-k multiset of a bag of scores is unique |
| `FzfSearch.TermsAreContained` | benches/fzf_trie_vs_flat.rs:53-78 | the terms below a node are exactly the dictionary terms with that prefix |
| `FzfSearch.TermsDistinct` | benches/fzf_trie_vs_flat.rs:53-78 | each term is listed once |
| `FzfSearch.SubtreeBounded` | src/fzf_scorer.rs:149-179 | every score in a subtree fits the limit and is at most the prefix's bound |
| `FzfSearch.FzfScorer.Cutoff` | src/fzf_scorer.rs:85-93 | the kth score, present exactly when k scores have been kept |
| `FzfSearch.FzfScorer.ObserveScore` | src/fzf_scorer.rs:123-141 | the heap stays the top k of everything observed, and what was beaten stays beaten |
| `FzfSearch.FzfScorer.Enter` | src/fzf_scorer.rs:149-179 | pushes the prefix's column; the subtree is visited exactly if the prefix fits the limit and its bound is present and not below the kth score, and a refused one holds no score that reaches it |
| `FzfSearch.FzfScorer.Leave` | src/fzf_scorer.rs:181-185 | pops exactly the column that entering pushed |
| `FzfSearch.FzfScorer.Accept` | src/fzf_scorer.rs:195-204 | the accepted score is that of the current prefix, and it joins the heap |
| `FzfSearch.FzfScorer.Dfs` | benches/fzf_trie_vs_flat.rs:53-78 | the walk leaves the top k of the whole subtree in the heap and emits everything that reaches the final kth score |
| `FzfSearch.TrieScores` | benches/fzf_trie_vs_flat.rs:48-85 | for every trie and k, the heap ends as the top k of scoring each term independently, and no emitted score is invented or missing above the kth |
| `FzfWfst.PathScoreGrows` | src/fzf_state_source.rs:88-92 | the best score never shrinks along a path, so arc deltas are non-negative |
| `FzfWfst.DeltasTelescope` | src/fzf_state_source.rs:74-113 | the deltas along any path from the start sum to the score of the string it spells |
| `FzfWfst.FzfStateSource.RegisterChild` | src/fzf_state_support.rs:38-57 | each ID denotes one dictionary path with the folded column of that path; known children keep their IDs |
| `FzfWfst.FzfStateSource.Expand` | src/fzf_state_source.rs:74-113 | final exactly for matching terms; one arc per edge with the growth of the score, none lost while IDs last |
| `FzfWfst.FzfStateSource.ExpandState` | src/fzf_state_source.rs:122-132 | unregistered states are refused without effect |
| `FzfTraversal.FindsIsMatch` | src/fzf_state_source.rs:74-113 | what a traversal accepts is a matching dictionary term, at the growth of the score along it |
| `FzfTraversal.MatchIsFound` | src/fzf_state_source.rs:74-113 | while IDs last, every matching term below a state is accepted |
| `FzfTraversal.SmallIsRoomy` | src/fzf_state_support.rs:38-57 | IDs last in every dictionary of at most `u32::MAX` paths, whatever other clones register |
| `FzfTraversal.HonestExists` | src/fzf_state_source.rs:74-132 | some function has the contract that the traversal theorems assume |
| `FzfTraversal.ScoresAreExact` | src/fzf_state_source.rs:74-132 | over every interleaving, only matching dictionary terms are accepted, each at its exact score and no other weight; while IDs last all of them are, and they last if the dictionary has at most `u32::MAX` paths |
| `LazyCache.LazyStateCache.constructor` | src/lazy_cache.rs:147-157 | an empty cache that keeps everything |
| `LazyCache.LazyStateCache.SetPolicy` | src/lazy_cache.rs:181-186 | a policy change empties the cache |
| `LazyCache.LazyStateCache.Clear` | src/lazy_cache.rs:247-252 | nothing is kept, the settings stay |
| `LazyCache.LazyStateCache.SetMaxLruStates` | src/lazy_cache.rs:188-195 | lowering the default limit keeps exactly the most recent states; whatever is still served is unchanged, and the limit of other policies evicts nothing |
| `LazyCache.LazyStateCache.TouchIfCached` | src/lazy_cache.rs:201-210 | a hit becomes the most recent state, nothing served changes, and the heap stays small |
| `LazyCache.LazyStateCache.Insert` | src/lazy_cache.rs:212-245 | the recency list after an insert, under each policy, within the limit, with the heap at most max(64, 4 times the entries) |
| `LazyCache.LazyStateCache.NextTick` | src/lazy_cache.rs:269-275 | a tick later than every tick in use, even at the end of `u64` |
| `LazyCache.LazyStateCache.RenumberLruTicks` | src/lazy_cache.rs:277-293 | renumbering keeps residents, values and recency order |
| `LazyCache.LazyStateCache.PopLruVictim` | src/lazy_cache.rs:335-346 | stale records are skipped and the victim is the least recent state |
| `LazyCache.LazyStateCache.EvictOneLru` | src/lazy_cache.rs:320-333 | one eviction removes exactly the least recent state |
| `LazyCache.LazyStateCache.EvictLruUntilAtMost` | src/lazy_cache.rs:312-318 | what remains are the most recent states, as they were |
| `LazyCache.LazyStateCache.RebuildLruHeap` | src/lazy_cache.rs:348-356 | the rebuilt heap holds one current record per entry |
| `LazyCache.LazyStateCache.CompactLruHeapIfNeeded` | src/lazy_cache.rs:358-363 | compaction bounds the heap and keeps every current record |
| `LazyCache.LazyStateCache.EnsureState` | src/lazy_cache.rs:76-118 | if the cache agrees with the source, the answer is the source's own and it goes on to agree; what is kept afterwards is that of the recency list, under each policy |
| `LazyCache.LazyStateCache.CacheExpansion` | src/lazy_cache.rs:98-107 | an expansion is served from then on unless it failed; the cache goes on to agree with the source, and a failed one changes nothing |
| `LazyCache.Replay` | src/lazy_cache.rs:201-363 | over every sequence of inserts, touches and resizes the cache is the recency list and never over its limit |
| `LazyCache.Serve` | src/lazy_cache.rs:76-363 | over every session of queries, limit changes, policy changes and clearings, each answer is the one that the source gives without a cache, and the states kept are those of the recency list |
| `LazyCache.Obey` | src/lazy_cache.rs:76-252 | one command of such a session |
| `LazyCache.OrderedUnique` | src/lazy_cache.rs:277-293 | the ticks determine the recency order, so sorting by age recovers it |
| `LazyCache.PopKeeps` | src/lazy_cache.rs:335-346 | removing the least record keeps the heap faithful, and a current least record is the least recent state |
| `LazyCache.SortByAge` | src/lazy_cache.rs:277-293 | the sort by age lists every entry once, oldest first |
| `GeneralizedOps.BoundedOperationSet` | src/generalized_ops.rs:18-41 | of the operations within the budget exactly one is kept for each that differs from the others in more than its name |
| `GeneralizedOps.BoundedSetKeepsAlignments` | src/generalized_ops.rs:18-58 | filtering and deduplicating the operations leaves the alignments within the budget unchanged |
| `GeneralizedOps.PrepareOperations` | src/generalized_ops.rs:60-113 | width slots coincide exactly when widths coincide |
| `GeneralizedLevenshtein.OperationAlone` | src/generalized_ops.rs:133-156 | what one operation aligns at its widths: an equality copies, an unrestricted one replaces anything, a transposition swaps two symbols, a listed one stands for its pairs of term and query alone |
| `GeneralizedLevenshtein.LeastCostIsDistance` | src/generalized_ops.rs:133-156 | with the edit operations of an algorithm, the least alignment cost is the edit distance, for all strings |
| `GeneralizedStates.ProductsInverse` | src/generalized_state_support.rs:122-136 | the product map and the state vector are mutually inverse |
| `GeneralizedStates.ChainsInverse` | src/generalized_state_support.rs:122-136 | the chain map and the first positions in the vector are mutually inverse |
| `GeneralizedStates.ChainFound` | src/generalized_state_support.rs:106-108 | looking up an interned chain finds all of its emission states |
| `GeneralizedStates.AppendProduct` | src/generalized_expansion.rs:203-219 | a new product state keeps the vector well shaped and is found in the map |
| `GeneralizedStates.AppendChain` | src/generalized_expansion.rs:221-269 | a new chain is complete, contiguous and ends at its target, and disturbs nothing |
| `GeneralizedStates.StateRegistry.constructor` | src/generalized_state_support.rs:79-92 | the fresh registry holds the start state |
| `GeneralizedStates.StateRegistry.CommitPrepared` | src/generalized_state_support.rs:122-136 | appends a prepared batch and keeps maps and vector inverse |
| `GeneralizedStates.StateBatch.Product` | src/generalized_expansion.rs:203-219 | a product keeps its one ID or gets the next; it is refused exactly if it is new and the limit or the sentinel leaves no room, naming the one that does, and a refusal changes nothing |
| `GeneralizedStates.StateBatch.Chain` | src/generalized_expansion.rs:221-269 | a chain is reused or added whole; it is refused exactly if it is new and its states do not all fit below limit and sentinel, naming the one that is broken, and a refusal changes nothing |
| `GeneralizedStates.WithProductKeeps` | src/generalized_expansion.rs:203-219 | asking for a product, by whichever clone, keeps the vector well shaped, linked to existing nodes and within the limit |
| `GeneralizedStates.WithChainKeeps` | src/generalized_expansion.rs:221-269 | so does asking for a chain |
| `GeneralizedStates.IdsInNumbers` | src/generalized_state_support.rs:154-158 | state IDs are dense and stay below the `u32` that stands for no state, in numbers |
| `GeneralizedStaging.BelowMember` | src/generalized_computation.rs:331-392 | the listed paths are exactly the walkable paths of the requested width |
| `GeneralizedStaging.BelowDistinct` | src/generalized_computation.rs:331-392 | each path is listed once |
| `GeneralizedStaging.RefStable` | src/generalized_expansion.rs:123-154 | references keep their meaning while registry and staging area grow |
| `GeneralizedStaging.ExpansionBudget.ChargeWork` | src/generalized_expansion.rs:63-76 | fails exactly if a cancellation is noticed or the total goes beyond the limit, saying which; otherwise the units are charged |
| `GeneralizedStaging.ExpansionBudget.ChargePath` | src/generalized_expansion.rs:78-91 | the same for paths |
| `GeneralizedShared.ForeignAllSound` | src/generalized_computation.rs:316-328 | whatever batches other clones publish, IDs keep denoting paths, states stay linked and within the limits, and nothing old changes |
| `GeneralizedShared.InterferedTwice` | src/generalized_computation.rs:212-274 | two stretches in which only other clones changed anything are one such stretch |
| `GeneralizedShared.SharedRegistries.constructor` | src/generalized_wfst.rs:189-208 | the fresh registries hold the root and the start state |
| `GeneralizedShared.SharedRegistries.Yield` | src/generalized_computation.rs:358-372 | while the locks are free the next batch of other clones is published, nodes and states alike, and nothing else happens |
| `GeneralizedSearch.ExpansionStaging.StageChild` | src/generalized_expansion.rs:123-147 | a child is referred to by its ID, its earlier staging, or a new offset, and steps and offsets stay inverse |
| `GeneralizedSearch.BoundedEdges` | src/generalized_computation.rs:396-415 | enumerating the edges of a node costs two units more than their number, and fails only if the budget does not cover that or a cancellation is noticed |
| `GeneralizedSearch.StageEdge` | src/generalized_computation.rs:358-372 | the reference for a child stands for the longer path and its node |
| `GeneralizedSearch.SearchStep` | src/generalized_computation.rs:358-389 | each turn charges work out of what the stack still costs and keeps found and outstanding paths equal to the whole list, in order |
| `GeneralizedSearch.DictionaryPaths` | src/generalized_computation.rs:331-392 | the search returns exactly the paths of the width, each once, in depth-first order, with references to the nodes they reach; it stages only nodes within that width, has an exact cost, and fails only if the budget does not cover it or a cancellation is noticed |
| `GeneralizedCommit.ResolvedPath` | src/generalized_computation.rs:218-263 | staged parents resolve before their children, and a reference resolves to the ID of its path |
| `GeneralizedCommit.DuplicatesMeet` | src/generalized_computation.rs:218-263 | two references to one path resolve to one node ID |
| `GeneralizedCommit.FindStep` | src/generalized_computation.rs:220-222 | a step's ID is found in the registry or among this attempt's additions, or it is new |
| `GeneralizedCommit.AttemptSpans` | src/generalized_computation.rs:235-259 | an attempt plans IDs for staged paths only |
| `GeneralizedCommit.AttemptOverfull` | src/generalized_computation.rs:246-256 | if the next new node breaks a limit, the staged paths without an ID really are too many for it |
| `GeneralizedCommit.EnoughNodes` | src/generalized_computation.rs:246-251 | a node limit that admits every path of the dictionary is never broken |
| `GeneralizedCommit.ReuseId` | src/generalized_computation.rs:223-234 | a known node keeps its ID, and the staged node takes over the owner that the registry has for it without changing meaning; if nothing was retired, nothing was taken over |
| `GeneralizedCommit.SettledCanonical` | src/generalized_computation.rs:223-234 | after a complete attempt every staged node is held by the registry's owner, and copies of one path by one owner |
| `GeneralizedCommit.CanonicalReuse` | src/generalized_computation.rs:223-234 | then the next attempt retires nothing, unless other clones have published meanwhile |
| `GeneralizedCommit.ReconcileNext` | src/generalized_computation.rs:218-263 | each staged node is resolved to an existing or planned ID inside the limits; it fails, unchanged, only if so many staged paths have no ID that the node limit or `u32` cannot hold them |
| `GeneralizedCommit.Reconcile` | src/generalized_computation.rs:212-267 | an attempt resolves every staged node and charges one unit for each, or fails because of the budget or the number of new paths |
| `GeneralizedCommit.ReconcileAll` | src/generalized_computation.rs:212-274 | the retry loop ends, with at most two attempts more than other clones publish batches; then every staged node is held by the owner that the registry has or will have for it, and only other clones have changed the registries |
| `GeneralizedCommit.ArcMeansStable` | src/generalized_computation.rs:280-315 | a transition keeps realising its arc while the state vector grows |
| `GeneralizedCommit.StageArc` | src/generalized_computation.rs:280-314 | one arc gets its target product, its chain if it needs one, and its first transition; every state added serves it, and it fails only for states that it lacks and that the limit or the sentinel leaves no room for |
| `GeneralizedCommit.StageNext` | src/generalized_computation.rs:280-315 | the next arc is staged on top of the earlier ones, which keep their meaning |
| `GeneralizedCommit.StageArcs` | src/generalized_computation.rs:277-315 | every pending arc gets a transition that realises it, inside the limit, at an exact cost; it fails only because of the budget or the room for states |
| `GeneralizedCommit.BeginCommit` | src/generalized_computation.rs:203-274 | up to the lock section that publishes, only other clones change the registries |
| `GeneralizedCommit.Publish` | src/generalized_computation.rs:316-328 | the planned nodes and the batched states become visible together, exactly these, and dropping the staged nodes afterwards destroys none of them |
| `GeneralizedCommit.PlannedAdds` | src/generalized_computation.rs:316-328 | the registries with an attempt published are sound, and exceed those before it only by staged paths and states for the arcs |
| `GeneralizedCommit.PublishArcs` | src/generalized_computation.rs:277-328 | under both locks the attempt is published whole, or the registries stay as they are and the failure has a cause |
| `GeneralizedCommit.CommitExpansion` | src/generalized_computation.rs:195-329 | for every schedule of other clones: on failure the registries are exactly what the others made them, and the budget or the registries bear the failure out; on success they exceed that by an ID for every staged path without one and states that the arcs need, nothing else, and each transition realises its arc and leads to the node its reference stood for; the work stays within that of the attempts and arcs |
| `GeneralizedExpansion.Configure` | src/generalized_wfst.rs:166-209 | the constructed operation table represents the original set within the budget, with faithful width slots |
| `GeneralizedExpansion.MacrosMember` | src/generalized_computation.rs:127-183 | the arcs of a product state are exactly the firings of its operations within query and budget |
| `GeneralizedExpansion.PathsStore` | src/generalized_computation.rs:147-159 | one search per width slot serves every operation of that width |
| `GeneralizedExpansion.ApplyOperation` | src/generalized_computation.rs:161-182 | the paths an operation accepts become its arcs, in order, with targets that stand for them; what it accepts is `OperationAlone` |
| `GeneralizedExpansion.CollectedGoals` | src/generalized_computation.rs:127-191 | what the collected arcs ask the commit for is what the firings of the state ask for, and every staged path was probed by some search |
| `GeneralizedExpansion.GeneralizedWfst.constructor` | src/generalized_wfst.rs:189-208 | the fresh machine is valid and holds the start state alone |
| `GeneralizedExpansion.GeneralizedWfst.PathsFor` | src/generalized_computation.rs:147-159 | a width's paths are searched for at most once and stay faithful while the registry grows |
| `GeneralizedExpansion.GeneralizedWfst.SegmentFor` | src/generalized_computation.rs:134-146 | a cached query segment is the one its width selects, or its absence |
| `GeneralizedExpansion.GeneralizedWfst.CollectOperation` | src/generalized_computation.rs:127-183 | one operation adds exactly its firings after those of the earlier ones |
| `GeneralizedExpansion.GeneralizedWfst.CollectArcs` | src/generalized_computation.rs:122-184 | the collected arcs are those of all operations, in order, at no more work and paths than the operations can cost, and no more nodes are staged than work is charged |
| `GeneralizedExpansion.GeneralizedWfst.CommitCollected` | src/generalized_computation.rs:184-191 | after the commit each firing is realised by its transition and only what is owed was added; a failure adds nothing |
| `GeneralizedExpansion.GeneralizedWfst.ExpandProduct` | src/generalized_computation.rs:104-191 | a successful expansion realises every firing by one transition and, other clones' commits apart, adds only nodes it probed and states its firings need; a failed one adds nothing, and the budget or the registries bear the failure out; work and paths stay within what the site and the schedule allow |
| `GeneralizedExpansion.GeneralizedWfst.ExpandEmit` | src/generalized_computation.rs:69-86 | an emission state has the one free arc of its position and adds nothing; only the budget can stop it |
| `GeneralizedExpansion.GeneralizedWfst.ExpandState` | src/generalized_computation.rs:53-88 | the same for every state; an expansion that is not cancelled, under limits that cover its work and paths, fails only for an unknown state or a product state whose additions do not fit |
| `GeneralizedProgress.ReachPath` | src/generalized_computation.rs:235-259 | a dictionary path can be registered step by step, until an ID is missing for some prefix |
| `GeneralizedProgress.ReachGoal` | src/generalized_computation.rs:280-314 | the transition of a firing can be had, with its product and chain, unless they do not fit |
| `GeneralizedProgress.CanAnswer` | src/generalized_computation.rs:53-191 | from any sound registries every registered state can be expanded completely in some extension, unless what it owes does not fit there |
| `GeneralizedTraversal.ChainSpells` | src/generalized_computation.rs:69-86 | every way through a chain spells exactly the labels left of it, pays nothing and goes on from its target |
| `GeneralizedTraversal.ArcSpells` | src/generalized_expansion.rs:221-269 | a multi-label arc spells the operation's labels, pays once on its first transition, and ends at its product state, reused chains included |
| `GeneralizedTraversal.FinalState` | src/generalized_wfst.rs:327-339 | product states are final exactly at the end of the query on a final node |
| `GeneralizedTraversal.HonestExists` | src/generalized_computation.rs:53-191 | under all conditions some function has the contract that the traversal theorems assume and fails only where every permitted answer is a failure |
| `GeneralizedTraversal.TransitionInside` | src/generalized_computation.rs:316-328 | every transition leads to a registered state |
| `GeneralizedTraversal.ArriveInside` | src/generalized_computation.rs:104-191 | wherever a traversal arrives, over every interleaving, the registries are sound and the state is registered |
| `GeneralizedTraversal.AmpleSuffices` | src/generalized_expansion.rs:63-91 | limits that cover every product state of the dictionary and query are never the reason of a failure |
| `GeneralizedTraversal.TiresForCause` | src/generalized_computation.rs:104-329 | a traversal stops short only for a cancellation, a limit below what the state can cost, or a product state whose additions do not fit; under ample conditions only for the last, and if the node limit admits the whole dictionary, only its states can be too many |
| `GeneralizedTraversal.FindsIsAlignment` | src/generalized_computation.rs:104-191 | what a traversal accepts is an alignment of a term with the rest of the query within the budget |
| `GeneralizedTraversal.AlignmentIsFound` | src/generalized_computation.rs:104-191 | when expansions succeed, every alignment within the budget is accepted |
| `GeneralizedTraversal.RelationIsAlignment` | src/generalized_computation.rs:104-191 | over every interleaving, the accepted pairs and costs are exactly the alignments by the original operations within the budget |
| `GeneralizedTraversal.EditsAreExact` | src/generalized_computation.rs:104-191 | with the edit operations of an algorithm, the machine accepts only dictionary terms, never below their edit distance nor above the budget; and when expansions succeed, every term within the budget at its distance |
| `PhoneticNfa.PositionAnchorClosure` | src/phonetic_anchors.rs:50-70 | the worklist ends with exactly the states reachable along free arcs |
| `PhoneticNfa.RunByLabel` | src/phonetic_anchors.rs:34-70 | what each kind of arc does to a run: symbols, classes and `Any` read one character, start anchors hold before the first and end anchors after the last, other assertions stop it |
| `PhoneticNfa.FreeByLabel` | src/phonetic_anchors.rs:72-88 | what each closure crosses: epsilon arcs, and the start or the end anchors by name |
| `PhoneticNfa.OrderOnlyMattersWhenEmpty` | src/phonetic_anchors.rs:34-48 | on a non-empty string anchors cannot come in the wrong order |
| `PhoneticSubset.SubsetIsRun` | src/phonetic_nfa_wfst.rs:273-341 | following state sets accepts exactly the strings with an ordered run, so every string with a run if it is not empty |
| `PhoneticSubset.HitsByLabel` | src/phonetic_nfa_support.rs:175-204 | the successors of a character are the targets of exactly the arcs that read it: its symbol, `Any`, and classes whose test holds |
| `PhoneticSubset.ArisesInside` | src/phonetic_nfa_wfst.rs:273-341 | a set that arises by following some string is a state of the determinised NFA |
| `PhoneticSubset.DeterminisedBounded` | src/phonetic_nfa_wfst.rs:106-144 | the determinised NFA has at most two to the number of NFA states many states, so 31 of them never use up the IDs |
| `PhoneticSubset.EndBeforeStartIsRejected` | src/phonetic_anchors.rs:34-48 | an NFA with a run by position over the empty string, but no ordered run, so that the construction does not accept it |
| `PhoneticSubset.PositionsDecideExactly` | src/phonetic_anchors.rs:34-48 | the construction decides a string by position if and only if it is not empty, or no final state can be reached over anchors in any order, or one can be over start anchors followed by end anchors |
| `PhoneticSubset.AlwaysByPosition` | src/phonetic_anchors.rs:34-48 | the same for an NFA as a whole: every string is decided by position if and only if the empty one is |
| `PhoneticSubset.OrderedAnchorsSuffice` | src/phonetic_anchors.rs:34-48 | an NFA in which no start anchor follows an end anchor without reading meets that condition |
| `PhoneticSubset.OrderedAnchorsNotNeeded` | src/phonetic_anchors.rs:34-48 | an NFA with such a pair of anchors that meets it all the same |
| `PhoneticNfaSource.CandidateChars.PushUnique` | src/phonetic_nfa_support.rs:55-79 | first-seen order without repetition, across the switch to a hash set |
| `PhoneticNfaSource.PushBoundedRange` | src/phonetic_nfa_support.rs:206-224 | a range adds exactly its characters, if it is at most 256 wide |
| `PhoneticNfaSource.CollectLabelCandidates` | src/phonetic_nfa_wfst.rs:421-452 | exactly the characters that stand for a label are added |
| `PhoneticNfaSource.CollectCandidates` | src/phonetic_nfa_wfst.rs:287-296 | the candidates are exactly the characters the state set offers, each once |
| `PhoneticNfaSource.OfferedByLabel` | src/phonetic_nfa_wfst.rs:421-452 | the characters offered are those of symbols, the alphabet for `Any` and for the class tests that hold, and ranges of at most 256 characters of classes that are not negated |
| `PhoneticNfaSource.LabelSuccessors.SlotOf` | src/phonetic_nfa_support.rs:144-156 | index and linear scan find the one slot of a character |
| `PhoneticNfaSource.LabelSuccessors.Collect` | src/phonetic_nfa_support.rs:176-204 | an arc's target joins exactly the slots whose character the arc reads: its symbol, all for `Any`, those its test holds for |
| `PhoneticNfaSource.CollectSuccessors` | src/phonetic_nfa_wfst.rs:298-303 | each slot ends with what its character enters from the set |
| `PhoneticNfaExpansion.KeyInjective` | src/phonetic_nfa_support.rs:23-28 | sorted keys identify state sets |
| `PhoneticNfaExpansion.StartAnchorClosure` | src/phonetic_anchors.rs:34-40 | the initial set is what start anchors and epsilon arcs reach |
| `PhoneticNfaExpansion.StateSetIsFinal` | src/phonetic_anchors.rs:42-48 | a set is final exactly if it reaches a final state over end anchors |
| `PhoneticNfaExpansion.NfaStateRegistry.constructor` | src/phonetic_nfa_wfst.rs:106-117 | state 0 names the initial set |
| `PhoneticNfaExpansion.NfaStateRegistry.GetOrCreate` | src/phonetic_nfa_wfst.rs:127-144 | a set keeps its one ID or gets the next, refused only when IDs are used up; a registry of sets that arise by following strings stays one if the new set arises so |
| `PhoneticNfaExpansion.NfaStateRegistry.ResolveTargets` | src/phonetic_nfa_wfst.rs:343-396 | every target gets the ID that names its set, whatever is registered between the two lock sections; if all of that arises by following strings, so does the whole registry |
| `PhoneticNfaExpansion.UniqueMissing` | src/phonetic_nfa_wfst.rs:364-378 | equal missing sets share one entry, each with its finality |
| `PhoneticNfaExpansion.PendingTargets` | src/phonetic_nfa_wfst.rs:298-315 | one closed successor set for each offered character that leads somewhere |
| `PhoneticNfaExpansion.ArcsFollowed` | src/phonetic_nfa_wfst.rs:273-341 | while IDs last, every arc of the set that reads its symbol or a character of the alphabet has a transition on it into a state whose set holds its target |
| `PhoneticNfaExpansion.PhoneticNfaWfst.ComputeTransitions` | src/phonetic_nfa_wfst.rs:273-341 | an expansion has at most one identity arc per character, into the state naming its successor set; while IDs last none is missing, and every arc of the set over the alphabet is followed; each set is registered once, and if other clones register only sets that arise by following strings, so does this one |
| `PhoneticNfaExpansion.NormalizeAlphabet` | src/phonetic_nfa_support.rs:236-251 | the alphabet without repetitions, in the order of first occurrence |
| `PhoneticNfaTraversal.PathIsUnique` | src/phonetic_nfa_wfst.rs:273-341 | a string has at most one accepting path |
| `PhoneticNfaTraversal.HonestExists` | src/phonetic_nfa_wfst.rs:273-341 | some function has the contract that the traversal theorems assume |
| `PhoneticNfaTraversal.SmallIsRoomy` | src/phonetic_nfa_wfst.rs:343-396 | IDs last if the determinised NFA has at most `u32::MAX` states, whatever other clones register |
| `PhoneticNfaTraversal.AlphabetOffers` | src/phonetic_nfa_wfst.rs:421-452 | over the alphabet every character that an accepted string needs is offered |
| `PhoneticNfaTraversal.LanguageIsExact` | src/phonetic_nfa_wfst.rs:273-396 | a string is accepted as the identity, at its length times the phonetic weight, exactly if the NFA has an ordered run and its characters are offered; over the alphabet, exactly if it has the run; IDs last for every NFA of at most 31 states |
| `RewriteTables.OrderUnique` | src/phonetic_rewrite_support.rs:72-78 | there is only one list of the rules in priority order |
| `RewriteTables.OrderByPriority` | src/phonetic_rewrite_support.rs:72-78 | the order lists every rule once, priorities never rise, and rules of one priority keep their order |
| `RewriteTables.ContinuationRoundTrip` | src/phonetic_rewrite_wfst.rs:320-344 | looking up an encoded continuation returns it |
| `RewriteTables.StateRoundTrip` | src/phonetic_rewrite_wfst.rs:320-344 | every numbered state is some rule's continuation and encodes back to its number |
| `RewriteTables.TablesUnique` | src/phonetic_rewrite_support.rs:43-88 | the rules determine every table |
| `RewriteTables.FromRules` | src/phonetic_rewrite_support.rs:52-87 | bulk construction builds the tables of the rules, ordered by falling priority and then by age |
| `RewriteTables.PartitionPoint` | src/phonetic_rewrite_wfst.rs:358-362 | bisection finds where the rule belongs: behind all rules of higher priority and all older ones of its own |
| `RewriteTables.AppendRule` | src/phonetic_rewrite_wfst.rs:346-365 | adding a rule builds the tables of the longer rule list, ordered by falling priority and then by age |
| `RewriteTables.AppendAll` | src/phonetic_rewrite_wfst.rs:346-365 | adding rules one by one ends with the tables of the bulk construction |
| `RewritePrune.PruneIsLeast` | src/phonetic_rewrite_support.rs:103-158 | pruning keeps only original arcs, one per endpoints and labels, and the cheapest of each |
| `RewritePrune.PruneInOrder` | src/phonetic_rewrite_support.rs:103-158 | the pruned arcs differ in endpoints or labels, hold a cheapest one for every arc, and come in the order in which the first of their kind came |
| `RewritePrune.PruneLinear` | src/phonetic_rewrite_support.rs:136-158 | the linear pruner computes the pruned sequence |
| `RewritePrune.PruneHashed` | src/phonetic_rewrite_support.rs:115-133 | the hash pruner computes the same sequence |
| `RewritePrune.PruneDominated` | src/phonetic_rewrite_support.rs:103-134 | whichever form runs, the result is the same |
| `RewriteGraph.RewriteWfst.constructor` | src/phonetic_rewrite_wfst.rs:165-177 | the machine of a rule list, identity allowed |
| `RewriteGraph.RewriteWfst.AddRule` | src/phonetic_rewrite_wfst.rs:193-199 | a rule is added and nothing else changes |
| `RewriteGraph.RewriteWfst.SetAllowIdentity` | src/phonetic_rewrite_wfst.rs:201-207 | later expansions permit copies exactly if asked to; the tables stay |
| `RewriteGraph.RewriteWfst.ComputeTransitions` | src/phonetic_rewrite_wfst.rs:220-278 | the arcs of a state are its rule steps and copies, pruned; only the home state is final |
| `RewriteGraph.ContinuationArcs` | src/phonetic_rewrite_wfst.rs:280-318 | a continuation state has the one free arc of its step |
| `RewriteGraph.HomeOrder` | src/phonetic_rewrite_wfst.rs:250-252 | before pruning, the home state starts the rules in the order of falling priority, and of age within one priority |
| `RewriteGraph.CopiesLast` | src/phonetic_rewrite_wfst.rs:258-272 | the copies of printable characters come after all rules |
| `RewriteGraph.RuleFromHome` | src/phonetic_rewrite_wfst.rs:280-318 | a rule's first arc, followed home, spells the whole rule and pays its cost once |
| `RewriteGraph.WalkIsFactoring` | src/phonetic_rewrite_wfst.rs:220-318 | a path from home to home is a factoring of its labels at its weight |
| `RewriteGraph.FactoringIsWalk` | src/phonetic_rewrite_wfst.rs:220-318 | a factoring into addressable rules and copies is a path at no more weight |
| `RewriteGraph.PrunedIsRaw` | src/phonetic_rewrite_support.rs:103-134 | pruning adds no path |
| `RewriteGraph.RawIsPruned` | src/phonetic_rewrite_support.rs:103-134 | pruning keeps every label pair available at no more weight |
| `RewriteGraph.LeastWeightIsLeastCost` | src/phonetic_rewrite_wfst.rs:220-344 | for every pair, the least path weight is the least cost of factoring it, and one exists exactly if the other does |
| `WallBreakerResults.Normalize` | src/wallbreaker_results.rs:115-144 | one entry per usable term, at the least of its distances, in the order in which the terms are first seen |
| `WallBreakerResults.UsableInNumbers` | src/wallbreaker_results.rs:115-144 | a result counts within the distance of the query, up to 2^53 |
| `WallBreakerResults.FromResults` | src/wallbreaker_results.rs:37-62 | the arena holds the terms end to end |
| `WallBreakerResults.ArenaRoundTrip` | src/wallbreaker_results.rs:76-83 | reading the arena back gives the terms |
| `WallBreakerResults.BuildStateIndex` | src/wallbreaker_wfst.rs:74-106 | the index lists the start and every position as far as `u32` reaches |
| `WallBreakerResults.PositionRoundTrip` | src/wallbreaker_results.rs:93-112 | the ID computed for a position is where the index keeps it, and there is none exactly past `u32` |
| `WallBreakerResults.IdRoundTrip` | src/wallbreaker_wfst.rs:74-106 | every ID but the start's is that of one position |
| `WallBreakerForest.FromOwnedResults` | src/wallbreaker_wfst.rs:190-216 | the forest of the normalised results, in the order in which their terms are first seen |
| `WallBreakerForest.ComputeSuperStart` | src/wallbreaker_wfst.rs:313-353 | one arc into each addressable non-empty result, final for the empty term |
| `WallBreakerForest.PositionState` | src/wallbreaker_wfst.rs:356-415 | a position is final at the end of its term, at the term's distance, and otherwise goes on to the next character |
| `WallBreakerForest.ForestIsExact` | src/wallbreaker_wfst.rs:313-415 | exactly the terms with a usable raw result are accepted, each at its least distance and no other, the empty term at the start state |
| `FaultScope.SinksHear` | src/bindings/fault_scope.rs:73-100 | a fault goes to exactly the scopes that should hear of it |
| `FaultScope.OlderComputationIsShielded` | src/bindings/fault_scope.rs:84-97 | no fault reaches a computation older than the newest, nor anything beneath it |
| `FaultScope.RunWellFormed` | src/bindings/fault_scope.rs:38-71 | over every run each live scope has its own cell |
| `FaultScope.FirstStatusWins` | src/bindings/fault_scope.rs:56-112 | over every run each scope holds the first status routed to it |
| `FaultScope.RemoveTakes` | src/bindings/fault_scope.rs:56-71 | removal takes the newest frame of a cell and keeps all others in order |
| `FaultScope.FaultScopes.Push` | src/bindings/fault_scope.rs:38-49 | a new scope is the newest and has no fault |
| `FaultScope.FaultScopes.DropScope` | src/bindings/fault_scope.rs:56-71 | exactly the guard's own frame goes, wherever it is, the others stay in order, and nothing happens if it is gone already |
| `FaultScope.FaultScopes.RecordFault` | src/bindings/fault_scope.rs:73-112 | the hearing scopes latch the status, all others keep theirs, and a fault nobody hears is refused |

## Left out

- Universal and phonetic-product state sources: their transition functions live in liblevenshtein and are not part of this model.
- C ABI, language bindings, builders, vocabulary interning and release tooling: pointer plumbing, wrappers and I/O.
- `normalize_full_string_anchors`: its meaning depends on how the NFA compiler, not part of this model, uses the start state.
- liblevenshtein's own epsilon closure is modelled by the worklist without anchors; class membership and edge enumeration are parameters.
- Floating point: weights are exact naturals; cost scaling, validation of rule costs and the exactness test on the remaining query length (which would need more than 2^53 characters) are not modelled.
- UTF-8: query positions count characters, not bytes, so the byte length that `charge_work` adds for paths is not charged.
- Locks and reference counts: critical sections are atomic steps, ownership is an identity, and destructors run nothing.
- Cancellation and source faults during an expansion: a counter that lets the failure strike at any check.
- Allocation: reservations always succeed, and capacity hints are dropped; `usize` overflow of element counts is not modelled.
- Statistics: of the fzf counters only the pruning ones are kept; cache hit counts and transition totals are dropped.
- Construction limits of the generalized machine (query and operation sizes) are checks before any state exists and are not modelled.
- `LazyCache.LazyStateCache.Insert`: the binary heap is a multiset of records popped by minimum, not an array layout.
- `FzfSearch.FzfScorer.ObserveScore`: the score heap is a multiset as well.
- `RewriteTables.FromRules`: the library sort is an insertion sort with the same comparison.
- `WallBreakerForest.FromOwnedResults`: the WallBreaker query itself is a parameter, the list of raw results.
- `FaultScope.FaultScopes.RecordFault`: the panic on an unheard fault is the result `false`; an unavailable thread-local store is not modelled.
