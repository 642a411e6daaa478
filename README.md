# Four small AI programs, modelled and verified in Dafny

This project models the self-contained logic of four Python programs from a
course on artificial intelligence. It proves what each one promises.

- **PageRank** (`pagerank/pagerank.py`) ranks the pages of a corpus in two ways:
  - a random surfer, simulated for n steps, whose visits are counted;
  - the iterative PageRank formula, repeated until no rank moves by 0.001.

  The model covers the link normalisation of `crawl`, `transition_model`,
  `sample_pagerank` and `iterate_pagerank`. Modules: `PageRankCorpus`,
  `PageRankTransition`, `PageRankSampling` and `PageRankIteration`.
- **Tic-tac-toe** (`projects/0/tictactoe.py`) has the board rules (`player`,
  `actions`, `result`, `winner`, `terminal`, `utility`) and an exhaustive
  `minimax` search. Module: `TicTacToe`.
- **Shopping** (`shopping/shopping.py`) has the encoders that turn spreadsheet
  cells into integers, and `evaluate`, which computes sensitivity and
  specificity. Module: `Shopping`.
- **Parser** (`parser/parser.py`) has the token filter of `preprocess` and
  `np_chunk`, which finds the noun-phrase chunks of a parse tree. Module:
  `Parser`.

`Wrappers` holds the `Option` and `Result` types. They stand for Python's
`None`, and for the exceptions the source raises.

The model keeps the source's own form:
- Loops that build a dictionary, a set or a list are Dafny methods with loop
  invariants. Each is proved equal to a specification function. Examples:
  - `transition_model`, the sampling loop and the update rounds of
    `iterate_pagerank`;
  - `actions`, `max_value`, `min_value` and `minimax`;
  - `np_chunk`.
- `result`, which copies the board and assigns one cell, is a method without a
  loop (`TicTacToe.ResultOf`), proved equal to its specification function.
- Expressions and comprehensions are functions. Examples:
  - `player`, `winner`, `terminal` and `utility`;
  - the shopping encoders and `evaluate`;
  - `preprocess`.
- The properties are lemmas about those functions.

### Modelling choices
- **Numbers.** Probabilities and ranks are Dafny `real`s, not floats.
  Integers are unbounded, which matches Python's.
- **Corpus.** A corpus pairs the dictionary with its key order (`Corpus.pages`).
  `random.choices` draws from the keys in that order.
- **Randomness.** The random numbers are parameters:
  - the start page of the walk is an index into the key list;
  - each draw of `random.choices` is a number `u` in [0, 1). The running sums of
    the weights are searched for the first one above u·total. That is the index
    `bisect` returns on non-decreasing sums.
- **The `while True` loop of `iterate_pagerank`** gets an explicit bound on its
  rounds. It fails with `NonConvergence` when the bound runs out.
- **Set iteration order.** Python does not specify the order in which a set is
  iterated. So the tic-tac-toe loops take the moves in an arbitrary order,
  picked by `:|`, and record that order as a ghost output. The values are
  proved the same for every order. The move `minimax` returns is proved optimal,
  and the first optimal one in the order actually used.
- **Parse trees.** A tree is `Node(tag, children) | Leaf(word)`. Leaves are
  words. `tree.subtrees()` is the pre-order list of the inner nodes, the tree
  itself first. The filter `t != subtree` compares trees by structure, as
  nltk's `Tree` does. The model proves that it drops exactly the subtree itself,
  since no proper descendant is as large as its ancestor.

## Model

| member | source | states |
|---|---|---|
| PageRankCorpus.Normalised | pagerank/pagerank.py:39-46 | the normalised corpus has the same pages, no self-link and no link leaving the corpus; each page keeps every other in-corpus link it had and gains none |
| PageRankCorpus.NormalisedClosed | pagerank/pagerank.py:42-46 | normalising a corpus that already satisfies the invariant changes nothing |
| PageRankCorpus.NormalisedIdempotent | pagerank/pagerank.py:39-46 | normalising twice gives the same corpus as normalising once |
| PageRankCorpus.RemoveSelfLinks | pagerank/pagerank.py:39 | every page maps to its extracted links minus itself, with the same keys |
| PageRankCorpus.Crawl | pagerank/pagerank.py:39-48 | the two passes of `crawl` produce exactly the normalised corpus |
| PageRankCorpus.LinksAgree | pagerank/pagerank.py:42-46 | two link maps over the corpus keys that agree page by page are equal, so a loop over the key list determines the dictionary |
| PageRankCorpus.CountInDistinct | pagerank/pagerank.py:73 | counting the members of a set along a list without repeats gives the size of their intersection |
| PageRankCorpus.CountLinks | pagerank/pagerank.py:70-73 | in a closed corpus a walk over all pages meets every link of a page exactly once |
| PageRankCorpus.TotalTwoValued | pagerank/pagerank.py:70-73 | a vector with `a` everywhere plus `b` on the members of `s` sums to N·a + (members met)·b |
| PageRankTransition.Probability | pagerank/pagerank.py:63-73 | the value `transition_model` stores for `q`: 1/N from a page without links, otherwise (1-d)/N plus d/\|links\| when `q` is linked; its properties are the lemmas below |
| PageRankTransition.Distribution | pagerank/pagerank.py:51-75 | the distribution's keys are exactly the corpus pages |
| PageRankTransition.DanglingIsUniform | pagerank/pagerank.py:63-67 | a page without links gives every page probability exactly 1/N |
| PageRankTransition.LinkedProbabilities | pagerank/pagerank.py:69-73 | a linked page gets (1-d)/N + d/\|links\|, any other page (1-d)/N; for 0 ≤ d ≤ 1 each lies in [0, 1] |
| PageRankTransition.LinkedIsTwoValued | pagerank/pagerank.py:70-73 | the same two values for every page of the key list |
| PageRankTransition.ProbabilityBounds | pagerank/pagerank.py:56-58 | for 0 ≤ d ≤ 1 every probability lies in [0, 1] |
| PageRankTransition.DistributionNonNegative | pagerank/pagerank.py:56-58 | for 0 ≤ d ≤ 1 no probability is negative |
| PageRankTransition.DistributionSumsToOne | pagerank/pagerank.py:51-75 | in a crawled (closed) corpus, where every link names a page and no page links to itself, the probabilities sum to 1, for any d |
| PageRankTransition.DanglingSumsToOne | pagerank/pagerank.py:63-67 | the uniform distribution of a dangling page sums to 1 |
| PageRankTransition.LinkedSumsToOne | pagerank/pagerank.py:69-73 | in a crawled (closed) corpus, where every link names a page and no page links to itself, the two-valued distribution of a linked page sums to 1 |
| PageRankTransition.TwoValuedSumsToOne | pagerank/pagerank.py:70-73 | (1-d)/N on every page plus d/k on k pages sums to 1 |
| PageRankTransition.TransitionModel | pagerank/pagerank.py:51-75 | the dictionary both loops build equals the distribution |
| PageRankTransition.UniformModel | pagerank/pagerank.py:64-67 | the loop for a dangling page builds the distribution |
| PageRankTransition.LinkedModel | pagerank/pagerank.py:70-75 | the loop with `+=` for a linked page builds the distribution |
| PageRankSampling.Accumulate | pagerank/pagerank.py:91-95 | the running sums `random.choices` builds from the weights, one per weight; AccumulateSums states their values |
| PageRankSampling.Bisect | pagerank/pagerank.py:91-95 | the search for the first running sum above x between `lo` and `hi` returns an index in that range; BisectFinds states which |
| PageRankSampling.Choose | pagerank/pagerank.py:91-95 | `random.choices(population, weights, k=1)[0]` for the generator value u: NonPositiveWeights when the total is not positive, else the page whose running sum first exceeds u·total; ChooseSpec states its properties |
| PageRankSampling.AccumulateSums | pagerank/pagerank.py:91-95 | the cumulative weights `random.choices` builds start at the first weight, grow by one weight each and end at the total |
| PageRankSampling.BisectFinds | pagerank/pagerank.py:91-95 | the search returns the first index whose cumulative weight exceeds x |
| PageRankSampling.BisectHasWeight | pagerank/pagerank.py:91-95 | for x in [0, total) the index found has a positive weight |
| PageRankSampling.ChooseSpec | pagerank/pagerank.py:91-95 | a draw succeeds iff the weights sum to something positive, otherwise fails with NonPositiveWeights; a page of weight 0 is never drawn |
| PageRankSampling.Scaled | pagerank/pagerank.py:91-95 | `random() * total` lies in [0, total) |
| PageRankSampling.Weights | pagerank/pagerank.py:93 | `list(model.values())`: one probability per listed page; WeightsOfModel states their values |
| PageRankSampling.WeightsOfModel | pagerank/pagerank.py:92-93 | the weights list is the transition model's values in key order, and sums to its total |
| PageRankSampling.Draw | pagerank/pagerank.py:90-95 | a drawn page is a corpus page; in a closed corpus a draw always succeeds |
| PageRankSampling.DrawFollowsTransition | pagerank/pagerank.py:90-95 | the page drawn has positive probability in the current page's transition model |
| PageRankSampling.Walk | pagerank/pagerank.py:87-96 | a successful walk of n steps visits n corpus pages; a closed corpus never fails |
| PageRankSampling.WalkDraws | pagerank/pagerank.py:89-95 | step k of the walk is a draw from the page reached after k steps |
| PageRankSampling.WalkFollowsTransitions | pagerank/pagerank.py:89-95 | every step of the walk follows a transition of positive probability |
| PageRankSampling.WalkExtend | pagerank/pagerank.py:89-96 | one more loop round extends the walk by the page drawn, or ends it with the draw's error |
| PageRankSampling.WalkFailurePersists | pagerank/pagerank.py:89-96 | an exception in round i ends the whole loop with that error |
| PageRankSampling.SumCountsStep | pagerank/pagerank.py:96 | one more visit adds one to the count of exactly the page visited |
| PageRankSampling.CountsSumToLength | pagerank/pagerank.py:86-96 | each step increments exactly one counter, so the counts sum to n |
| PageRankSampling.ZeroCounts | pagerank/pagerank.py:86 | the counts of a walk with no visits sum to 0, as the counters start at zero |
| PageRankSampling.OccurrencesAtMost | pagerank/pagerank.py:96 | no counter exceeds the number of steps |
| PageRankSampling.Frequencies | pagerank/pagerank.py:99 | the normalised counts have a key for every corpus page |
| PageRankSampling.TotalOfFrequencies | pagerank/pagerank.py:99 | the normalised counts sum to the counts' sum divided by n |
| PageRankSampling.FrequenciesSumToOne | pagerank/pagerank.py:99 | when the counts sum to n, the normalised values sum to 1 |
| PageRankSampling.Estimate | pagerank/pagerank.py:77-100 | a successful estimate has a key for every corpus page |
| PageRankSampling.EstimateIsDistribution | pagerank/pagerank.py:82-84 | for a closed corpus and n > 0 the estimate exists, has every page as a key, gives each a value in [0, 1] and sums to 1 |
| PageRankSampling.EstimateOfFailedWalk | pagerank/pagerank.py:89-96 | a failing draw makes `sample_pagerank` fail with that error |
| PageRankSampling.EstimateOfWalk | pagerank/pagerank.py:98-100 | a successful walk's estimate is its visit frequencies |
| PageRankSampling.NextSample | pagerank/pagerank.py:90-95 | one round builds the model and draws from its keys and values: the draw of the specification |
| PageRankSampling.Normalise | pagerank/pagerank.py:99 | the comprehension keeps the counters' keys |
| PageRankSampling.NormaliseCounts | pagerank/pagerank.py:99 | normalising the counters of a walk gives its visit frequencies |
| PageRankSampling.CountStep | pagerank/pagerank.py:96 | `pageranks[sample] += 1` keeps every counter equal to its page's number of visits |
| PageRankSampling.Advance | pagerank/pagerank.py:90-96 | one round either ends the walk with the draw's error or extends it by a corpus page |
| PageRankSampling.CountVisits | pagerank/pagerank.py:86-96 | the loop's counters are the visit counts of the specified walk, keyed by every page, or the loop fails as the walk does |
| PageRankSampling.SamplePageRank | pagerank/pagerank.py:77-100 | an empty corpus fails at `random.choice`; otherwise the result is the estimate of the walk from the chosen start; for a closed corpus and n > 0 it has every page as a key and sums to 1 |
| PageRankIteration.Share | pagerank/pagerank.py:120-124 | what `possible_page` adds to `total`: its rank over its link count when it links to `page`, its rank over N when it has no links, and nothing otherwise |
| PageRankIteration.Inflow | pagerank/pagerank.py:117-124 | `total` after the inner loop has visited the pages `qs`: the sum of their shares; InflowExtend and CollectInflow state its relation to the loop |
| PageRankIteration.Damped | pagerank/pagerank.py:125 | the new rank (1-d)/N + d·total; DampedMass, DampedAtLeast and DampedNonNegative state its properties |
| PageRankIteration.Inflows | pagerank/pagerank.py:117-124 | the inflow vector has a key for every page |
| PageRankIteration.Step | pagerank/pagerank.py:116-125 | one update gives a rank vector over the corpus |
| PageRankIteration.StepOver | pagerank/pagerank.py:116-125 | the update of a list of pages has exactly those pages as keys |
| PageRankIteration.StepOverAt | pagerank/pagerank.py:125 | each new rank is (1-d)/N + d · (the inflow computed from the previous ranks) |
| PageRankIteration.StepAt | pagerank/pagerank.py:118-125 | the update is synchronous: each new rank depends on the previous vector only |
| PageRankIteration.Init | pagerank/pagerank.py:111 | the initial vector is a rank vector over the corpus |
| PageRankIteration.InitSumsToOne | pagerank/pagerank.py:111 | each initial rank is 1/N and they sum to 1 |
| PageRankIteration.AllClose | pagerank/pagerank.py:128 | the `all(...)` of the exit test over a list of pages; AllCloseMeans states what it means |
| PageRankIteration.Converged | pagerank/pagerank.py:127-129 | the exit test over every page of the corpus; IterateExit and IterateStops state what holds on exit |
| PageRankIteration.AllCloseMeans | pagerank/pagerank.py:128 | the exit test holds iff every page moved by less than 0.001 |
| PageRankIteration.Iterate | pagerank/pagerank.py:115-133 | a run that ends returns a rank vector over the corpus |
| PageRankIteration.IterateOneMore | pagerank/pagerank.py:115-133 | allowing one more round does not change a run that ends |
| PageRankIteration.IterateFuelIrrelevant | pagerank/pagerank.py:115-133 | a run that ends gives the same result under any larger bound on the rounds, so the result is the one the unbounded `while True` loop returns |
| PageRankIteration.IterateStep | pagerank/pagerank.py:127-131 | a round either returns the ranks it started from or goes on from the new ones |
| PageRankIteration.IterateExit | pagerank/pagerank.py:127-133 | the result is a vector from which one more update passes the exit test |
| PageRankIteration.IterateStops | pagerank/pagerank.py:127-133 | on exit no page's rank moves by 0.001 or more in the update that was not applied |
| PageRankIteration.CollectInflow | pagerank/pagerank.py:117-124 | the inner loop's `total` is the inflow into the page: ranks shared by linking pages, plus ranks of dangling pages spread over N |
| PageRankIteration.InflowExtend | pagerank/pagerank.py:118-124 | one more page of the corpus adds its share to the inflow |
| PageRankIteration.UpdateRanks | pagerank/pagerank.py:116-125 | a round of the outer loop gives the synchronous update, whatever `new_pageranks` held before |
| PageRankIteration.UpdatePage | pagerank/pagerank.py:117-125 | one pass of the outer loop overwrites exactly the entry of its page |
| PageRankIteration.AgreeOnPages | pagerank/pagerank.py:116 | rank vectors over the corpus that agree page by page are equal |
| PageRankIteration.IteratePageRank | pagerank/pagerank.py:102-133 | the loop, from the uniform vector, gives the specified run |
| PageRankIteration.OutflowCount | pagerank/pagerank.py:120-124 | a page passes one portion to each linked page, or to every page when it has no links |
| PageRankIteration.Outflow | pagerank/pagerank.py:120-124 | in a closed corpus each page passes out exactly its own rank |
| PageRankIteration.TotalInflowExtend | pagerank/pagerank.py:118-124 | one more source page adds its outflow to the total inflow |
| PageRankIteration.SwapSums | pagerank/pagerank.py:116-124 | the total inflow, summed by receiver, equals the total outflow, summed by sender |
| PageRankIteration.EmptyInflow | pagerank/pagerank.py:117 | no source page gives no inflow |
| PageRankIteration.OutflowsAddUp | pagerank/pagerank.py:116-124 | in a closed corpus the outflows add up to the total rank |
| PageRankIteration.TotalOfInflows | pagerank/pagerank.py:116-124 | the inflow vector sums to the double sum of all shares |
| PageRankIteration.TotalAffine | pagerank/pagerank.py:125 | a damped vector sums to N·(1-d)/N + d·(the sum of the inflows) |
| PageRankIteration.InflowsPreserveMass | pagerank/pagerank.py:116-124 | in a closed corpus the inflows sum to the total rank |
| PageRankIteration.StepIsDamped | pagerank/pagerank.py:125 | every new rank is the damped inflow of its page |
| PageRankIteration.StepPreservesMass | pagerank/pagerank.py:116-125 | in a crawled (closed), non-empty corpus, where every link names a page and no page links to itself, one update maps a vector summing to 1 to a vector summing to 1 |
| PageRankIteration.InflowNonNegative | pagerank/pagerank.py:117-124 | non-negative ranks give non-negative inflows |
| PageRankIteration.StepLowerBound | pagerank/pagerank.py:125 | for d ≥ 0 and non-negative ranks every new rank is at least (1-d)/N |
| PageRankIteration.StepNonNegative | pagerank/pagerank.py:125 | for 0 ≤ d ≤ 1 an update keeps every rank non-negative |
| PageRankIteration.StepKeepsDistribution | pagerank/pagerank.py:116-125 | in a closed non-empty corpus with 0 ≤ d ≤ 1 an update maps distributions to distributions |
| PageRankIteration.IterateKeepsDistribution | pagerank/pagerank.py:115-133 | a run from a distribution ends with a distribution |
| PageRankIteration.IterationIsDistribution | pagerank/pagerank.py:107-109 | `iterate_pagerank` on a closed non-empty corpus returns values in [0, 1] that sum to 1 |
| PageRankIteration.EmptyCorpusIterate | pagerank/pagerank.py:111-133 | an empty corpus gives the empty dictionary after one round |
| TicTacToe.AllCellsInRange | projects/0/tictactoe.py:19-20 | the row-major list of cells holds exactly the coordinates in 0..2 |
| TicTacToe.InitialState | projects/0/tictactoe.py:7-10 | every cell of the initial board is empty |
| TicTacToe.InitialStateStart | projects/0/tictactoe.py:7-15 | the initial board has no marks, is balanced and has X to move |
| TicTacToe.CountRowEmpty | projects/0/tictactoe.py:13-14 | an empty row holds no mark of either player |
| TicTacToe.PlayerOf | projects/0/tictactoe.py:12-15 | `player`: O when X has more marks, X otherwise; so X moves when the counts are equal and O when X has one more |
| TicTacToe.EmptyCells | projects/0/tictactoe.py:17-23 | the legal moves are exactly the in-range coordinates of empty cells |
| TicTacToe.Actions | projects/0/tictactoe.py:17-23 | the nested loops build exactly the set of empty cells |
| TicTacToe.Put | projects/0/tictactoe.py:28-29 | the new board has the mark at the action's cell and every other cell unchanged |
| TicTacToe.ResultOf | projects/0/tictactoe.py:25-30 | `result` fails with ValueError unless the action is legal, and otherwise returns the board with the mover's mark there |
| TicTacToe.Play | projects/0/tictactoe.py:28-30 | the board after the player to move marks the cell; Put states which cells change |
| TicTacToe.Apply | projects/0/tictactoe.py:25-30 | `result`: InvalidAction (the ValueError) unless the action is a legal move, otherwise the played board; ApplySpec and ApplyFills state its properties |
| TicTacToe.ApplySpec | projects/0/tictactoe.py:25-30 | the move fails iff the cell is out of range or taken; otherwise only that cell changes, to the mover's mark |
| TicTacToe.CountRowPut | projects/0/tictactoe.py:13-14 | marking an empty cell of a row adds one to that player's count in the row |
| TicTacToe.CountPut | projects/0/tictactoe.py:28-30 | marking an empty cell adds one to that player's count and none to the other's |
| TicTacToe.ApplyFills | projects/0/tictactoe.py:28-30 | a legal move adds one mark for the mover and none for the other, so the filled-cell count rises by one; a balanced board stays balanced and the turn passes |
| TicTacToe.PlayShrinks | projects/0/tictactoe.py:17-30 | a legal move removes exactly its cell from the legal moves |
| TicTacToe.UniformExclusive | projects/0/tictactoe.py:39-43 | no line is three X and three O at once |
| TicTacToe.FirstUniformSome | projects/0/tictactoe.py:38-44 | the scan returns a player iff some line is uniform in that player's marks and no earlier line is uniform |
| TicTacToe.FirstUniformNone | projects/0/tictactoe.py:38-44 | the scan returns None iff no line is uniform |
| TicTacToe.Winner | projects/0/tictactoe.py:32-44 | `winner`: the eight lines tried in the listed order; WinnerSpec states what it returns |
| TicTacToe.WinnerSpec | projects/0/tictactoe.py:32-44 | `winner` names a player only for the first line, in the listed order, made of three of that player's marks; None iff no row, column or diagonal is uniform |
| TicTacToe.Terminal | projects/0/tictactoe.py:46-47 | `terminal`: a winner, or no row holding an EMPTY cell; TerminalSpec states it in terms of the legal moves |
| TicTacToe.TerminalSpec | projects/0/tictactoe.py:46-47 | the game is over iff there is a winner or no empty cell remains |
| TicTacToe.Utility | projects/0/tictactoe.py:49-55 | the utility is -1, 0 or 1 |
| TicTacToe.UtilitySpec | projects/0/tictactoe.py:49-55 | the utility is 1 iff X holds the first uniform line, -1 iff O does, 0 iff there is no uniform line |
| TicTacToe.MaxStep | projects/0/tictactoe.py:65-66 | taking `max` with one more move's value keeps the best value over the moves seen |
| TicTacToe.MinStep | projects/0/tictactoe.py:73-74 | taking `min` with one more move's value keeps the best value for O over the moves seen |
| TicTacToe.BestForXUnique | projects/0/tictactoe.py:64-67 | the best value for X over a set of moves is unique |
| TicTacToe.BestForOUnique | projects/0/tictactoe.py:72-75 | the best value for O over a set of moves is unique |
| TicTacToe.MaxOverSpec | projects/0/tictactoe.py:64-67 | the fold of `max` over a list of moves is the best value X reaches with them |
| TicTacToe.MinOverSpec | projects/0/tictactoe.py:72-75 | the fold of `min` over a list of moves is the best value O reaches with them |
| TicTacToe.MaxValue | projects/0/tictactoe.py:61-67 | `max_value`: the utility of a finished game, otherwise the fold of `max` over every legal move; MaxValueIsBest and ValuesAreUtilities state its properties |
| TicTacToe.MinValue | projects/0/tictactoe.py:69-75 | `min_value`: the utility of a finished game, otherwise the fold of `min` over every legal move; MinValueIsBest and ValuesAreUtilities state its properties |
| TicTacToe.MaxValueIsBest | projects/0/tictactoe.py:61-67 | off a finished game, `max_value` is the largest `min_value` X can reach in one legal move |
| TicTacToe.MinValueIsBest | projects/0/tictactoe.py:69-75 | off a finished game, `min_value` is the smallest `max_value` O can reach in one legal move |
| TicTacToe.MaxLoopDone | projects/0/tictactoe.py:65-67 | once every legal move is tried, the best value is `max_value`'s |
| TicTacToe.MinLoopDone | projects/0/tictactoe.py:73-75 | once every legal move is tried, the best value is `min_value`'s |
| TicTacToe.ValuesAreUtilities | projects/0/tictactoe.py:61-75 | both searches return a utility in [-1, 1], never an infinity |
| TicTacToe.EnumerateStep | projects/0/tictactoe.py:65 | taking one more move out of those not tried keeps the enumeration of the set exact |
| TicTacToe.MaxOverAnyOrder | projects/0/tictactoe.py:65-67 | whatever order the set is iterated in, the loop yields `max_value` |
| TicTacToe.MinOverAnyOrder | projects/0/tictactoe.py:73-75 | whatever order the set is iterated in, the loop yields `min_value` |
| TicTacToe.MaxValueOf | projects/0/tictactoe.py:61-67 | the loop of `max_value` computes the minimax value for X |
| TicTacToe.MinValueOf | projects/0/tictactoe.py:69-75 | the loop of `min_value` computes the minimax value for O |
| TicTacToe.MinValueAfter | projects/0/tictactoe.py:66 | `min_value(result(board, action))` is the value after the move |
| TicTacToe.MaxValueAfter | projects/0/tictactoe.py:74 | `max_value(result(board, action))` is the value after the move |
| TicTacToe.XLoopStep | projects/0/tictactoe.py:80-84 | `if board_value > best_value` keeps the first strictly best move seen |
| TicTacToe.OLoopStep | projects/0/tictactoe.py:87-91 | `if board_value < best_value` keeps the first strictly best move seen |
| TicTacToe.XLoopDone | projects/0/tictactoe.py:78-84 | after all moves X's loop holds an optimal move, the first in the order tried |
| TicTacToe.OLoopDone | projects/0/tictactoe.py:85-91 | after all moves O's loop holds an optimal move, the first in the order tried |
| TicTacToe.XLoopRound | projects/0/tictactoe.py:81-84 | one round of X's loop keeps the loop invariant |
| TicTacToe.OLoopRound | projects/0/tictactoe.py:88-91 | one round of O's loop keeps the loop invariant |
| TicTacToe.BestMoveForX | projects/0/tictactoe.py:78-84 | X's loop returns a legal move reaching `max_value`, with every earlier move strictly worse |
| TicTacToe.BestMoveForO | projects/0/tictactoe.py:85-91 | O's loop returns a legal move reaching `min_value`, with every earlier move strictly worse |
| TicTacToe.Minimax | projects/0/tictactoe.py:57-93 | None iff the game is over; otherwise a legal move, optimal for the player to move, the first optimal one in the order tried |
| TicTacToe.OptimalIsBest | projects/0/tictactoe.py:78-91 | the chosen move is at least as good for the mover as every legal move |
| Shopping.IndexOf | shopping/shopping.py:57 | `list.index` gives the first position of the element, and ValueError exactly when it is absent |
| Shopping.IndexOfDistinct | shopping/shopping.py:57 | in a list without repeats each element's first position is its position |
| Shopping.MonthToInt | shopping/shopping.py:55-57 | a result is below 12 and names the month; ValueError exactly for strings that are not one of the twelve |
| Shopping.MonthsDistinct | shopping/shopping.py:56 | no abbreviation occurs twice |
| Shopping.MonthToIntRoundTrip | shopping/shopping.py:55-57 | "Jan".."Dec" map to 0..11 |
| Shopping.MonthToIntRejects | shopping/shopping.py:57 | any other string raises ValueError |
| Shopping.VisitorTypeToInt | shopping/shopping.py:59-60 | the result is 0 or 1, and 1 iff the input is "Returning_Visitor" |
| Shopping.WeekendToInt | shopping/shopping.py:62-63 | the result is 0 or 1, and 1 iff the input is "TRUE" |
| Shopping.LabelOf | shopping/shopping.py:51 | IndexError iff the row has fewer than 18 cells; otherwise 0 or 1, and 1 iff the 18th cell is "TRUE" |
| Shopping.Zip | shopping/shopping.py:71-74 | the pairs are as many as the shorter list has, each pairing the entries at one position |
| Shopping.CountPairs | shopping/shopping.py:71-74 | one of the four `sum(...)` lines: the number of zipped pairs equal to (label, prediction) |
| Shopping.Counts | shopping/shopping.py:71-74 | the four counts TP = (1, 1), FN = (1, 0), TN = (0, 0) and FP = (0, 1) of the zipped pairs; CountsPartition states how they add up |
| Shopping.Evaluate | shopping/shopping.py:70-79 | ZeroDivisionError iff TP + FN or TN + FP is 0; otherwise both rates lie in [0, 1] |
| Shopping.Ratio | shopping/shopping.py:76-77 | a count divided by a positive count it does not exceed lies in [0, 1] |
| Shopping.LabelSplits | shopping/shopping.py:71-74 | with 0/1 predictions the pairs with a label, split by prediction, add up to all pairs with that label |
| Shopping.LabelsPartition | shopping/shopping.py:71-74 | with 0/1 labels the pairs with label 1 and label 0 make up all pairs |
| Shopping.CountsPartition | shopping/shopping.py:71-74 | TP + FN is the number of pairs with label 1 and TN + FP the number with label 0; with 0/1 labels the four counts sum to the number of pairs |
| Shopping.EvaluateMeaning | shopping/shopping.py:70-79 | `evaluate` fails iff there is no positive or no negative label; otherwise sensitivity = TP / positives and specificity = TN / negatives |
| Parser.LowerChar | parser/parser.py:55 | an upper-case ASCII letter becomes its lower-case form, every other character stays |
| Parser.HasAlpha | parser/parser.py:56 | `any(char.isalpha() for char in word)`: some character is an ASCII letter |
| Parser.Lower | parser/parser.py:55 | lower-casing keeps the length, maps each character and leaves no upper-case letter |
| Parser.KeepAlphabetic | parser/parser.py:56 | the filter keeps no more words than it is given |
| Parser.KeepAlphabeticMembers | parser/parser.py:56 | a word is kept iff it is one of the tokens and contains a letter |
| Parser.KeepAlphabeticConcat | parser/parser.py:56 | filtering commutes with concatenation, so the kept words stay in their order |
| Parser.KeepAlphabeticOne | parser/parser.py:56 | a single token is kept iff it contains a letter |
| Parser.Preprocess | parser/parser.py:54-56 | the words returned are exactly the tokens of the lower-cased sentence that contain a letter |
| Parser.Subtrees | parser/parser.py:60 | `tree.subtrees()`: the inner nodes in pre-order, the tree itself first, leaves left out; SubtreesSmaller, ProperSubtrees and SubtreesTransitive state its properties |
| Parser.SubtreesSmaller | parser/parser.py:60 | every subtree is an inner node no larger than the tree |
| Parser.SubtreesAllSmaller | parser/parser.py:60 | the subtrees of the children are no larger than the children together |
| Parser.OtherSubtrees | parser/parser.py:62 | the filtered subtrees are no more than the subtrees |
| Parser.ProperSubtrees | parser/parser.py:62 | `subtree.subtrees(lambda t: t != subtree)` is exactly the proper descendants, in pre-order |
| Parser.KeepAllOthers | parser/parser.py:62 | the filter keeps every tree that differs from the subtree |
| Parser.OtherSubtreesConcat | parser/parser.py:62 | the filter commutes with concatenation |
| Parser.IsChunk | parser/parser.py:61-62 | the test of the loop: labelled "NP", and no NP among the subtrees that differ from it; ChunksSpec states it in terms of the proper descendants |
| Parser.Chunks | parser/parser.py:59-64 | there are no more chunks than subtrees |
| Parser.ChunksMembers | parser/parser.py:60-63 | a tree is a chunk iff it is one of the subtrees and passes the test |
| Parser.NpChunk | parser/parser.py:58-64 | the loop returns the subtrees that pass the test, in pre-order |
| Parser.ChunksSpec | parser/parser.py:60-63 | a tree is returned iff it is a subtree of the tree, labelled "NP", with no NP among its proper descendants |
| Parser.ChunksConcat | parser/parser.py:60-63 | the chunks of two runs of subtrees are the chunks of each, in order |
| Parser.ChunksOne | parser/parser.py:61-63 | a single subtree is kept iff it passes the test |
| Parser.SubtreesTransitive | parser/parser.py:60 | a subtree of a subtree is a subtree |
| Parser.NpHoldsChunk | parser/parser.py:60-63 | every NP node holds a chunk among its subtrees |
| Parser.NoChunksIffNoNp | parser/parser.py:59-64 | the result is empty iff the tree has no NP node |

## Left out
- I/O: every `main` (argv, printing), the directory listing and regex link extraction of `crawl` (`pagerank/pagerank.py` lines 33-38), `load_data` (CSV reading and `int`/`float` parsing), and the file and stdin reading of the parser.
- Library calls: sklearn's `train_model` and `train_test_split`; nltk's grammar, `ChartParser.parse`, `word_tokenize` and `pretty_print`. The tokenizer is a function parameter of `Parser.Preprocess`.
- `traffic/traffic.py` is not part of this model. It is OpenCV image loading and TensorFlow training, with no logic of its own to state.
- The distribution of `random.choice` and `random.choices`, and any statistical convergence of sampling towards iteration. The random numbers are parameters.
- PageRankSampling.Bisect, PageRankSampling.Choose: `random.choices` searches the running sums of the weights by bisection; `Bisect` scans them in order, which gives the same index on non-decreasing sums (zero weights make equal sums). `Choose` fails with `NonPositiveWeights` when the total weight is not positive; that is the `ValueError` of `random.choices` from Python 3.9 on, the version modelled. Earlier versions return an index instead.
- Floating point: all probabilities, ranks and rates are exact reals. Rounding in the sums and in the convergence test is not modelled.
- PageRankIteration.IteratePageRank: runs at most `fuel` rounds instead of `while True`. Termination of the real loop is not proved, since it needs a contraction argument. Only the exit condition is stated. IterateFuelIrrelevant shows that a run that ends gives the same ranks under any larger bound.
- TicTacToe: the board is a value. `result` returns a new board and the input cannot change, so aliasing between boards (the row copies) is not modelled.
- TicTacToe.MaxValueOf, TicTacToe.MinValueOf, TicTacToe.Minimax: the iteration order of a Python set is unspecified. The loops pick each move arbitrarily and report the order used as a ghost result. The tie-break "first in the order tried" is stated relative to that order.
- Shopping.CountsPartition, Shopping.EvaluateMeaning: assume predictions that are 0 or 1, which is what a classifier trained on 0/1 labels returns. `Shopping.Evaluate` itself holds for any integers.
- Parser.Lower, Parser.IsAlpha: `str.lower` and `str.isalpha` are modelled on ASCII only. Unicode case mapping and letter classes are not.
- Parser.NpChunk: requires the root to be an inner node, as it calls `tree.subtrees()`, which a bare word does not have.
- The helper methods UniformModel, LinkedModel, NextSample, Advance, CountVisits, CollectInflow, UpdatePage, UpdateRanks, MinValueAfter, MaxValueAfter, XLoopRound, OLoopRound, BestMoveForX and BestMoveForO split one loop of the source into pieces. They are structure only.
