# CS50 AI labs in Dafny: PageRank, tic-tac-toe and heredity

This project models three pieces of sequential logic from the CS50 AI labs and
proves what they promise.

- **PageRank** (`lab/pagerank/pagerank.py`):
  - the crawler's link filtering;
  - the damped random-surfer transition model;
  - the Monte Carlo estimate, which takes `n` steps and credits `1/n` per step;
  - the fixed-point iteration: two dictionaries and a convergence test with
    tolerance 0.001.
- **Tic-tac-toe** (`lab/tictactoe/tictactoe.py`):
  - the board, whose turn it is, the available moves and the board after a move;
  - winner, terminal and utility;
  - the minimax player, whose `max_value`/`min_value` prune with one strict bound
    per call.
- **Heredity** (`lab/heredity/heredity.py`):
  - the `PROBS` table and the `powerset` of a set;
  - the inheritance table that `joint_probability` fills, and the product of
    per-person factors;
  - `update` and `normalize` on the `probabilities` dictionary;
  - the loops of `main` that enumerate every assignment of traits and gene copies
    that agrees with the recorded traits.

Probabilities are exact `real`s. Dictionary order is explicit:

- A corpus or family is enumerated by an `order` sequence, which stands for
  insertion order.
- Python's listing of a set is a parameter `enumerate`. Every result holds for
  every listing.

Randomness is injected: the start page is an index into `order`, and the sampler
consumes one draw per step. The unbounded iteration loop is given fuel, a bound
on the number of sweeps.

Code that changes data step by step is written as methods with loops:

- PageRank's dictionaries;
- the counting loops of `player` and `actions`;
- the `prob` table (a 3×4×4 `array3`);
- the `ans *=` product;
- `update` and `normalize`, on a `Probabilities` class that owns the
  `probabilities` dictionary.

Each such method is proved equal to a specification function. The properties are
proved about those functions.

Files:

- `wrappers.dfy`: `Option`, `Result`.
- `sums.dfy`: sums of a map over an enumeration of its keys.
- `fixpoint.dfy`: a loop repeated until two consecutive states are close enough.
- `subsets.dfy`: `powerset`.
- `pagerank.dfy`, `tictactoe.dfy`, `heredity.dfy`: the three labs.
- `inference.dfy`: the loops of heredity's `main`.

Where the code and its design description disagree, the model follows the code:

- `iterate_pagerank` on an empty corpus returns an empty dictionary; it does not
  fail.
- `sample_pagerank` fails only on an empty corpus, as `random.choice` does. With
  `n = 0` it returns zero ranks.
- The walk stops at the first page whose probability is at least the remaining
  draw.
- There is no convergence-failure error: running out of fuel is the `OutOfFuel`
  outcome of the model.

## Model

| member | source | states |
|---|---|---|
| PageRank.CrawlLinks | lab/pagerank/pagerank.py:39-46 | the filtered corpus has the crawled pages as keys; a page keeps a link exactly when it points to another page of the corpus, so no page links to itself or outside the corpus |
| PageRank.Zeros | lab/pagerank/pagerank.py:60-62 | the fresh dictionary has exactly the enumerated pages as keys, each holding 0 |
| PageRank.Transition | lab/pagerank/pagerank.py:60-70 | the transition distribution has exactly the corpus pages as keys |
| PageRank.TransitionModel | lab/pagerank/pagerank.py:60-70 | the three loops (zeros, link shares, jump shares) build exactly the transition distribution |
| PageRank.Accumulate | lab/pagerank/pagerank.py:60-68 | after the three passes every page holds its link share (if linked) plus the jump share, and no other key exists |
| PageRank.TransitionCases | lab/pagerank/pagerank.py:64-68 | a linked page gets d/|links| + (1-d)/N, an unlinked page (1-d)/N, and every page of a page without links 1/N |
| PageRank.TransitionMass | lab/pagerank/pagerank.py:64-68 | the link shares and the jump shares add up to exactly 1, with or without links |
| PageRank.TransitionSumsToOne | lab/pagerank/pagerank.py:60-70 | every transition distribution sums to 1 over the corpus, whatever the damping factor |
| PageRank.TransitionBounds | lab/pagerank/pagerank.py:60-70 | with 0 <= d <= 1 every transition probability lies in [0, 1] |
| PageRank.Pick | lab/pagerank/pagerank.py:92-97 | the cumulative walk ends on the current page or on a page of the enumeration |
| PageRank.NextPage | lab/pagerank/pagerank.py:92-97 | the loop picks the first page at which the remaining draw is at most its probability, and keeps the current page when the draw passes over every page |
| PageRank.PickLands | lab/pagerank/pagerank.py:92-97 | a draw no larger than the total probability always lands on a page of the enumeration |
| PageRank.PickStops | lab/pagerank/pagerank.py:92-97 | when the walk lands on the k-th page, the draw passed over every earlier page and not this one |
| PageRank.Move | lab/pagerank/pagerank.py:90-97 | one move builds the transition model of the current page and walks it with the draw |
| PageRank.Step | lab/pagerank/pagerank.py:90-97 | a step of the walk always ends on a page of the corpus |
| PageRank.StepFollowsTransition | lab/pagerank/pagerank.py:90-97 | a draw in [0, 1) never falls through the walk: the next page is the one where the walk stops in the transition distribution |
| PageRank.PageAfter | lab/pagerank/pagerank.py:86-97 | the walk always stands on a page of the corpus |
| PageRank.Visits | lab/pagerank/pagerank.py:88-97 | the walk credits one page of the corpus per draw |
| PageRank.Count | lab/pagerank/pagerank.py:88-89 | a page is credited at most once per step |
| PageRank.Frequencies | lab/pagerank/pagerank.py:82-89 | the credited dictionary has exactly the corpus pages as keys |
| PageRank.SampleRanks | lab/pagerank/pagerank.py:82-99 | the estimate has exactly the corpus pages as keys |
| PageRank.FrequenciesRatio | lab/pagerank/pagerank.py:88-89 | crediting 1/n per visit gives each page its count of visits divided by n |
| PageRank.CountShare | lab/pagerank/pagerank.py:89 | c credits of 1/n make c/n |
| PageRank.FrequenciesNone | lab/pagerank/pagerank.py:82-84 | before any step every page holds 0 |
| PageRank.FrequenciesSnoc | lab/pagerank/pagerank.py:89 | one more step adds w to the visited page and to no other |
| PageRank.FrequenciesCredit | lab/pagerank/pagerank.py:89 | the in-place `ans[current_page] += 1/n` is exactly one more visit |
| PageRank.FrequenciesSum | lab/pagerank/pagerank.py:82-89 | after k steps the credits total k times the credit, i.e. k/n |
| PageRank.FrequenciesDistribution | lab/pagerank/pagerank.py:82-99 | the frequencies of n > 0 visits credited 1/n each sum to 1 and each lies in [0, 1] |
| PageRank.SampleRanksDistribution | lab/pagerank/pagerank.py:82-99 | after n > 0 samples the estimate sums to 1 and every value lies in [0, 1] |
| PageRank.SampleStep | lab/pagerank/pagerank.py:88-97 | one pass of the sampling loop turns the credits of i steps into the credits of i + 1 steps |
| PageRank.VisitsSnoc | lab/pagerank/pagerank.py:88-97 | each draw credits the page the walk stands on before it |
| PageRank.WalkStep | lab/pagerank/pagerank.py:88-97 | the page after i + 1 draws is one step on from the page after i draws |
| PageRank.Walk | lab/pagerank/pagerank.py:88-97 | the loop leaves the credits of the whole walk from the start page |
| PageRank.SamplePagerank | lab/pagerank/pagerank.py:73-99 | fails exactly on an empty corpus; otherwise returns the estimate of the walk from the chosen page, which sums to 1 when n > 0 |
| PageRank.Uniform | lab/pagerank/pagerank.py:111-113 | the starting ranks have exactly the corpus pages as keys |
| PageRank.UniformRanks | lab/pagerank/pagerank.py:111-113 | the loop gives every page 1/N |
| PageRank.UniformDistribution | lab/pagerank/pagerank.py:111-113 | the uniform start is a distribution over a non-empty corpus |
| PageRank.AddScaled | lab/pagerank/pagerank.py:121-122 | adding a scaled distribution keeps the keys |
| PageRank.Inflow | lab/pagerank/pagerank.py:120-122 | the rank handed on by the pages processed so far has exactly the corpus pages as keys |
| PageRank.Sweep | lab/pagerank/pagerank.py:116-122 | one sweep gives a rank to exactly the corpus pages |
| PageRank.InflowNone | lab/pagerank/pagerank.py:116-118 | before any page hands on its rank, every page of `res` holds 0 |
| PageRank.InflowSnoc | lab/pagerank/pagerank.py:120-122 | processing one more page p adds ans[p] times its transition distribution, read from the previous ranks only |
| PageRank.Disperse | lab/pagerank/pagerank.py:121-122 | the inner loop adds ans[p] * T(p)[q] to every q |
| PageRank.SweepOnce | lab/pagerank/pagerank.py:116-122 | the two loops compute exactly the sweep res[q] = sum over p of ans[p] * T(p)[q] |
| PageRank.IsSettled | lab/pagerank/pagerank.py:124-128 | the test loop reports `finished` exactly when every page moved by at most 0.001 |
| PageRank.IterateStep | lab/pagerank/pagerank.py:124-133 | a settled sweep ends the iteration with the new ranks; otherwise the iteration continues from the new ranks |
| PageRank.Settle | lab/pagerank/pagerank.py:115-133 | the `while True` loop returns exactly what the iteration defines |
| PageRank.IteratePagerank | lab/pagerank/pagerank.py:102-135 | the whole procedure is the iteration from the uniform ranks |
| PageRank.AddMass | lab/pagerank/pagerank.py:121-122 | adding c times a distribution adds c to the total |
| PageRank.InflowMass | lab/pagerank/pagerank.py:120-122 | the rank flowing out of the processed pages arrives in full |
| PageRank.SweepMass | lab/pagerank/pagerank.py:116-122 | a sweep preserves the total rank |
| PageRank.InflowNonneg | lab/pagerank/pagerank.py:120-122 | with 0 <= d <= 1, nonnegative ranks hand on nonnegative rank |
| PageRank.AddScaledNonneg | lab/pagerank/pagerank.py:121-122 | adding a nonnegative multiple of nonnegative values keeps them nonnegative |
| PageRank.SweepDistribution | lab/pagerank/pagerank.py:116-122 | a sweep maps a distribution to a distribution |
| PageRank.IterateDistribution | lab/pagerank/pagerank.py:115-135 | however the iteration ends, it ends on a distribution when it starts from one |
| PageRank.PagerankDistribution | lab/pagerank/pagerank.py:102-135 | the ranks returned for a non-empty corpus sum to 1 and each lies in [0, 1] |
| Fixpoint.RunFirstSettled | lab/pagerank/pagerank.py:115-133 | the loop converges on the ranks after the first sweep that settles, and otherwise runs out of fuel after sweeps none of which settled |
| Fixpoint.RunPreserves | lab/pagerank/pagerank.py:115-135 | a property every sweep preserves holds of the ranks the loop ends with |
| Fixpoint.SettlesAtShift | lab/pagerank/pagerank.py:115-133 | starting one sweep later shifts the sweep numbers by one |
| TicTacToe.InitialState | lab/tictactoe/tictactoe.py:12-18 | every square of the start board is empty |
| TicTacToe.CurrentPlayer | lab/tictactoe/tictactoe.py:21-34 | the counting loops return X exactly when X has no more marks than O |
| TicTacToe.ActionsExactlyEmpty | lab/tictactoe/tictactoe.py:37-49 | a move is available exactly when it names an empty square of the board |
| TicTacToe.PossibleActions | lab/tictactoe/tictactoe.py:37-49 | the loops collect exactly the available moves |
| TicTacToe.Next | lab/tictactoe/tictactoe.py:52-61 | a legal move leaves one fewer available move |
| TicTacToe.NextActions | lab/tictactoe/tictactoe.py:52-61 | a legal move removes exactly its square from the available moves |
| TicTacToe.ResultBoard | lab/tictactoe/tictactoe.py:52-61 | an unavailable move is refused; otherwise the square holds the mark of the player to move and every other square is unchanged |
| TicTacToe.CountAfterPlace | lab/tictactoe/tictactoe.py:21-34 | marking an empty square adds one mark for its owner and none for the other player |
| TicTacToe.PlayAlternates | lab/tictactoe/tictactoe.py:21-61 | after a legal move it is the other player's turn, and X keeps as many marks as O or one more |
| TicTacToe.InitialPosition | lab/tictactoe/tictactoe.py:12-34 | the game starts with X to move, every square available and the game not over |
| TicTacToe.AnyFilled | lab/tictactoe/tictactoe.py:102-114 | the line checks succeed exactly when some line from the k-th on is filled by one player |
| TicTacToe.FirstFilled | lab/tictactoe/tictactoe.py:68-91 | the winner's scan returns a player only for a line that player fills, and None exactly when no line is filled |
| TicTacToe.FillsAll | lab/tictactoe/tictactoe.py:102-114 | each numbered line check is a row, column or diagonal of three equal marks |
| TicTacToe.LinesCover | lab/tictactoe/tictactoe.py:102-114 | the eight line checks cover exactly the rows, columns and diagonals |
| TicTacToe.TerminalIff | lab/tictactoe/tictactoe.py:97-116 | the game is over exactly when a player has three in a line or no square is empty |
| TicTacToe.FullIff | lab/tictactoe/tictactoe.py:116 | no square is empty exactly when no move is available |
| TicTacToe.WinnerNone | lab/tictactoe/tictactoe.py:64-93 | there is no winner exactly when neither player has three in a line |
| TicTacToe.WinnerHasLine | lab/tictactoe/tictactoe.py:64-93 | a winner has three in a line, and a player who alone has a line is the winner |
| TicTacToe.Utility | lab/tictactoe/tictactoe.py:119-130 | the utility lies in {-1, 0, 1}; it is 1 exactly when X won and -1 exactly when O won |
| TicTacToe.MovesLeft | lab/tictactoe/tictactoe.py:133-155 | a game that is not over has a move left among the nine squares |
| TicTacToe.ActionsInAllCells | lab/tictactoe/tictactoe.py:37-49 | every available move is one of the nine squares |
| TicTacToe.MaxV | lab/tictactoe/tictactoe.py:133-143 | the full-search value for the maximiser lies in [-1, 1] |
| TicTacToe.MinV | lab/tictactoe/tictactoe.py:145-155 | the full-search value for the minimiser lies in [-1, 1] |
| TicTacToe.BestForMax | lab/tictactoe/tictactoe.py:136-143 | the running maximum is -2 (nothing tried yet) or a value in [-1, 1], and no longer -2 once an available move has been tried |
| TicTacToe.BestForMin | lab/tictactoe/tictactoe.py:148-155 | the running minimum is 2 (nothing tried yet) or a value in [-1, 1], and no longer 2 once an available move has been tried |
| TicTacToe.BestForMaxIsLargest | lab/tictactoe/tictactoe.py:136-143 | no available move tried so far has a higher reply value than the running maximum, which is -2 or reached by one of them |
| TicTacToe.BestForMinIsSmallest | lab/tictactoe/tictactoe.py:148-155 | no available move tried so far has a lower reply value than the running minimum, which is 2 or reached by one of them |
| TicTacToe.MaxVIsBest | lab/tictactoe/tictactoe.py:133-143 | in a game that is not over, the maximiser's value is the best reply value of some move and no move does better |
| TicTacToe.MinVIsBest | lab/tictactoe/tictactoe.py:145-155 | in a game that is not over, the minimiser's value is the best reply value of some move and no move does better |
| TicTacToe.MaxReply | lab/tictactoe/tictactoe.py:138-142 | a reply above the running value or above `beta` is exact, and one that is not kept still bounds the move's value |
| TicTacToe.MinReply | lab/tictactoe/tictactoe.py:150-154 | a reply below the running value or below `alpha` is exact, and one that is not kept still bounds the move's value |
| TicTacToe.MaxValue | lab/tictactoe/tictactoe.py:133-143 | on a finished game, the utility and no move; otherwise an available move whose reply has the returned value, which is the exact maximiser's value when that is at most `beta`, and otherwise lies above `beta` and no higher than it |
| TicTacToe.MaxSearched | lab/tictactoe/tictactoe.py:137-143 | after every move has been tried without a cut, the move kept reaches the maximiser's value |
| TicTacToe.MinValue | lab/tictactoe/tictactoe.py:145-155 | on a finished game, the utility and no move; otherwise an available move whose reply has the returned value, which is the exact minimiser's value when that is at least `alpha`, and otherwise lies below `alpha` and no lower than it |
| TicTacToe.MinSearched | lab/tictactoe/tictactoe.py:149-155 | after every move has been tried without a cut, the move kept reaches the minimiser's value |
| TicTacToe.Minimax | lab/tictactoe/tictactoe.py:157-169 | no move exactly when the game is over; otherwise an available move that is optimal for the player to move |
| Heredity.ProbsAreDistributions | lab/heredity/heredity.py:5-37 | the gene probabilities sum to 1, each trait row sums to 1, all entries are positive, and the mutation chance lies in (0, 1) |
| Heredity.Chances | lab/heredity/heredity.py:158-177 | a parent's passing chances cover 0 and 1 copies |
| Heredity.ChancesSplit | lab/heredity/heredity.py:158-177 | a parent passes on 0 or 1 copies with positive chances summing to 1 |
| Heredity.PassingChances | lab/heredity/heredity.py:158-166 | `mother_prob` and `father_prob` are set to the passing chances of a parent with i copies |
| Heredity.PartialStep | lab/heredity/heredity.py:179-181 | the pair (k, l) adds its chance to the cell for k + l copies and to no other |
| Heredity.PartialExpanded | lab/heredity/heredity.py:179-181 | the four pairs give m0*f0, m0*f1 + m1*f0 and m1*f1 for 0, 1 and 2 copies |
| Heredity.PartialDistribution | lab/heredity/heredity.py:179-181 | two independent parents give the child positive chances of 0, 1 and 2 copies summing to 1 |
| Heredity.RowIsPairSum | lab/heredity/heredity.py:179-181 | a row of the three pair products is the row the pair loops accumulate |
| Heredity.InheritIsPairSum | lab/heredity/heredity.py:157-181 | each written-out inheritance chance is what the pair loops add up for those parents |
| Heredity.InheritanceRowsSumToOne | lab/heredity/heredity.py:153-181 | for parents with i and j copies, prob[0][i][j] + prob[1][i][j] + prob[2][i][j] = 1, each positive |
| Heredity.FillCell | lab/heredity/heredity.py:179-181 | the two innermost loops add the pair sum to cell (i, j) for every g and leave every other cell unchanged |
| Heredity.InheritanceTable | lab/heredity/heredity.py:153-181 | the filled 3x4x4 table holds the inheritance chances for known parents, the gene prior at [g][3][3], and 0 elsewhere |
| Heredity.GeneCount | lab/heredity/heredity.py:144-151 | the assigned count is 0, 1 or 2 |
| Heredity.GeneCountDisjoint | lab/heredity/heredity.py:144-151 | with disjoint sets, count 1 exactly for members of `one_gene`, 2 exactly for members of `two_genes`, 0 exactly for everyone else |
| Heredity.AssignGenes | lab/heredity/heredity.py:144-151 | the `gene` dictionary gives every person their assigned count |
| Heredity.Factors | lab/heredity/heredity.py:183-218 | two factors per person, in dictionary order |
| Heredity.ProductStep | lab/heredity/heredity.py:198-218 | multiplying `ans` by a person's two factors extends the product by them |
| Heredity.ProductOfChances | lab/heredity/heredity.py:142-218 | a product of positive chances is a positive chance |
| Heredity.FactorsAreChances | lab/heredity/heredity.py:198-218 | both of a person's factors lie in (0, 1] |
| Heredity.FactorsBetween | lab/heredity/heredity.py:183-218 | every factor lies in (0, 1] |
| Heredity.FactorsSnoc | lab/heredity/heredity.py:183-218 | one more person adds their gene factor and then their trait factor |
| Heredity.JointIsChance | lab/heredity/heredity.py:131-220 | the joint probability lies in (0, 1] |
| Heredity.PersonFactors | lab/heredity/heredity.py:184-218 | the loop body picks the prior or the inheritance entry for the parents' counts, then the trait chance |
| Heredity.MultiplyFactors | lab/heredity/heredity.py:183-220 | the `ans *=` loop returns the product of all factors |
| Heredity.JointProbability | lab/heredity/heredity.py:131-220 | `joint_probability` returns the joint probability of the assignment |
| Heredity.ShapedKeys | lab/heredity/heredity.py:48-61 | the gene buckets are listed 2, 1, 0 and the trait buckets True, False |
| Heredity.ZeroBuckets | lab/heredity/heredity.py:49-59 | a person starts with buckets 2, 1, 0 and True, False |
| Heredity.ZeroTable | lab/heredity/heredity.py:48-61 | the starting dictionary has one entry per person |
| Heredity.ZeroTotals | lab/heredity/heredity.py:48-61 | the starting buckets hold no mass |
| Heredity.Credit | lab/heredity/heredity.py:231-238 | crediting keeps the buckets' keys |
| Heredity.Updated | lab/heredity/heredity.py:230-238 | `update` keeps the people and the buckets' keys |
| Heredity.UpdatedBuckets | lab/heredity/heredity.py:230-238 | `update` adds p to the bucket of the person's gene count and to the bucket of their trait value, and to no other bucket |
| Heredity.CreditTotals | lab/heredity/heredity.py:231-238 | a credit raises the gene total and the trait total each by p |
| Heredity.CreditStep | lab/heredity/heredity.py:230-238 | one pass of the loop credits the next person and nobody else |
| Heredity.CreditedAll | lab/heredity/heredity.py:230-238 | once the loop has passed every person, the table is the updated table |
| Heredity.CreditPerson | lab/heredity/heredity.py:231-238 | the loop body credits the person's gene bucket (one copy checked first) and trait bucket |
| Heredity.Probabilities.Update | lab/heredity/heredity.py:223-238 | the dictionary is updated in place to the updated table |
| Heredity.Rescale | lab/heredity/heredity.py:252-253 | dividing by the total keeps the keys |
| Heredity.NormalizeOne | lab/heredity/heredity.py:247-253 | normalising one person keeps the people and the bucket keys |
| Heredity.NormalizeFrom | lab/heredity/heredity.py:246-253 | normalising the people in turn keeps the people and the bucket keys |
| Heredity.Normalized | lab/heredity/heredity.py:247-253 | normalised buckets keep their keys |
| Heredity.NormalizeOneOutcome | lab/heredity/heredity.py:247-253 | normalising one person fails, naming that person, exactly when one of their totals is 0; otherwise it replaces only that person's buckets by their normalised form |
| Heredity.NormalizeOutcome | lab/heredity/heredity.py:246-253 | `normalize` fails exactly when a listed person has a zero total, naming such a person; otherwise every listed person's buckets are normalised and nobody else changes |
| Heredity.NormalizeEqualTotals | lab/heredity/heredity.py:246-253 | when every person's totals are the same positive number, normalising succeeds and divides every bucket by it |
| Heredity.SumOverRescale | lab/heredity/heredity.py:252-253 | dividing every value by the total divides their sum by it |
| Heredity.RescaleDistribution | lab/heredity/heredity.py:246-253 | a distribution divided by its nonzero total sums to 1 and keeps its proportions |
| Heredity.Total | lab/heredity/heredity.py:248-250 | the summing loop returns the sum of the distribution |
| Heredity.Divide | lab/heredity/heredity.py:252-253 | the dividing loop divides every value by the total |
| Heredity.Probabilities.constructor | lab/heredity/heredity.py:48-61 | every person starts with zero buckets |
| Heredity.Probabilities.Normalize | lab/heredity/heredity.py:241-253 | the dictionary is normalised in place, person by person, stopping at the first zero total |
| Heredity.Probabilities.NormalizePerson | lab/heredity/heredity.py:247-253 | one pass of the loop normalises the gene distribution, then the trait distribution, of one person |
| Subsets.Prefixed | lab/heredity/heredity.py:125-127 | putting an element in front keeps the number of picks |
| Subsets.ToSets | lab/heredity/heredity.py:124-128 | each pick becomes the set of its elements, in order |
| Subsets.CombinationsPick | lab/heredity/heredity.py:126 | a pick of r elements has r entries, all from the list |
| Subsets.CombinationsFromPick | lab/heredity/heredity.py:125-127 | every listed pick has some size between r and the length of the list |
| Subsets.PowersetOnlySubsets | lab/heredity/heredity.py:119-128 | `powerset(s)` lists only subsets of s |
| Subsets.SubsetIsPicked | lab/heredity/heredity.py:126 | every subset is the set of some pick |
| Subsets.PickListed | lab/heredity/heredity.py:125-127 | a pick of any size from r up is listed |
| Subsets.PowersetEverySubset | lab/heredity/heredity.py:119-128 | `powerset(s)` lists every subset of s |
| Subsets.PowersetStartsEmpty | lab/heredity/heredity.py:124-127 | the empty set comes first |
| Subsets.CombinationsCount | lab/heredity/heredity.py:126 | there are C(n, r) picks of r elements |
| Subsets.CombinationsFromCount | lab/heredity/heredity.py:125-127 | the picks of sizes r..n number C(n, r) + ... + C(n, n) |
| Subsets.PowersetCount | lab/heredity/heredity.py:119-128 | `powerset` of a list of n elements lists 2^n sets |
| Inference.Recorded | lab/heredity/heredity.py:68-72 | giving the trait to exactly the people recorded with it passes the evidence test |
| Inference.InTwoWorlds | lab/heredity/heredity.py:78-82 | the innermost loop visits exactly one assignment per listed set of two-copy holders |
| Inference.InOneWorlds | lab/heredity/heredity.py:77-82 | the middle loop visits exactly the listed one-copy sets with the listed subsets of the others |
| Inference.InWorlds | lab/heredity/heredity.py:65-82 | the outer loop skips exactly the trait assignments that fail the evidence |
| Inference.PowersetOfSet | lab/heredity/heredity.py:119-128 | `powerset` of any listing of a set lists exactly its subsets |
| Inference.PowersetListsSubsets | lab/heredity/heredity.py:65-78 | the loops' `powerset(names)` and `powerset(names - one_gene)` list exactly the subsets |
| Inference.VisitedExactly | lab/heredity/heredity.py:64-82 | the loops visit exactly the assignments that agree with every recorded trait and give nobody both one and two copies |
| Inference.VisitedNotEmpty | lab/heredity/heredity.py:64-82 | the loops visit at least one assignment |
| Inference.Accumulate | lab/heredity/heredity.py:76-82 | calling `update` once per visited assignment keeps the people and bucket keys |
| Inference.AccumulateAppend | lab/heredity/heredity.py:76-82 | crediting two runs of assignments is crediting the first, then the second |
| Inference.AccumulateSnoc | lab/heredity/heredity.py:81-82 | one more assignment is one more `update` with its joint probability |
| Inference.AccumulateTwoWorlds | lab/heredity/heredity.py:78-82 | one more pass of the innermost loop is one more `update` |
| Inference.TwoWorldsSnoc | lab/heredity/heredity.py:78 | one more two-copy set visits one more assignment |
| Inference.OneWorldsSnoc | lab/heredity/heredity.py:77-78 | one more one-copy set visits its two-copy subsets next |
| Inference.WorldsSnoc | lab/heredity/heredity.py:65-78 | one more trait set visits its gene assignments next, or nothing when it fails the evidence |
| Inference.GeneMassIn | lab/heredity/heredity.py:80-82 | the bucket for g copies gains the joint probabilities of exactly the assignments giving the person g copies |
| Inference.TraitMassIn | lab/heredity/heredity.py:80-82 | the bucket for a trait value gains the joint probabilities of exactly the assignments giving the person that value |
| Inference.AccumulateTotals | lab/heredity/heredity.py:80-82 | both of a person's totals grow by the sum of all the joint probabilities |
| Inference.JointSumPositive | lab/heredity/heredity.py:81 | the joint probabilities add up to a nonnegative sum, positive once any assignment is visited |
| Inference.AccumulatedPositive | lab/heredity/heredity.py:48-82 | from zero buckets, every person's gene total and trait total are both the sum of all the joint probabilities |
| Inference.AccumulatedMasses | lab/heredity/heredity.py:48-82 | from zero buckets, every bucket holds exactly the mass of the assignments it describes |
| Inference.NormalizedTable | lab/heredity/heredity.py:48-85 | the table `normalize` leaves has one entry per person |
| Inference.NormalizeSucceeds | lab/heredity/heredity.py:84-85 | after the loops, `normalize` never divides by zero |
| Inference.Posterior | lab/heredity/heredity.py:48-85 | a person's final buckets keep the shape of `probabilities`: genes 0, 1, 2 and trait True, False |
| Inference.PosteriorGene | lab/heredity/heredity.py:48-85 | the final chance of g copies is the mass of the assignments giving g copies over the mass of all visited assignments |
| Inference.PosteriorTrait | lab/heredity/heredity.py:48-85 | the final chance of a trait value is the mass of the assignments giving that value over the mass of all visited assignments |
| Inference.AddTwoWorlds | lab/heredity/heredity.py:78-82 | the innermost loop credits the assignment of each two-copy set in turn |
| Inference.AddOneWorlds | lab/heredity/heredity.py:77-82 | the middle loop credits the assignments of each one-copy set in turn |
| Inference.Infer | lab/heredity/heredity.py:48-85 | after the loops and `normalize`, no division by zero happened and the dictionary is the normalised table of all visited assignments |

## Left out

- Input, output and program arguments are not modelled:
  - `main` in all three files;
  - the printing of results;
  - the directory listing, file reading and link regex of `crawl` (lab/pagerank/pagerank.py:33-38);
  - `load_data` (lab/heredity/heredity.py:97-116);
  - the `print(sum)` inside `normalize` (lab/heredity/heredity.py:251).
- Randomness becomes parameters. `random.choice` is the `choice` index into `order`, and `random.random` is the `draws` sequence. SamplePagerank does not require the draws to lie in [0, 1); StepFollowsTransition shows what such draws guarantee.
- Floating point is not modelled. Probabilities are exact reals, so "sums to 1" is exact rather than within a rounding error.
- Termination is not modelled. The unbounded `while True` of `iterate_pagerank` is given fuel, a bound on the number of sweeps, and can end in `OutOfFuel`. Whether the ranks converge at all depends on the Markov chain and is not proved.
- Dictionary and set order become parameters:
  - Dictionary order is the `order` parameter.
  - Python's listing of a set is the `enumerate` parameter, a function of the set's value. CPython may list two equal sets differently, which the model does not capture.
  - The order in which `max_value`/`min_value` try moves from the action set is chosen arbitrarily by the model.
- Families need both parents or neither, with non-empty parent names, as `load_data` documents. The original reads stale parent counts for a person with one parent, which the model excludes.
- Inference.Visited: it is not proved that the loops visit each assignment only once. The posterior lemmas describe the sums over the list the loops produce.
- Heredity.Probabilities.Normalize: the loop over the words "gene" and "trait" is written as two blocks. The division by zero that Python raises becomes the `failed` result. People normalised before the failure stay normalised, as in the original.
- The aliasing of `ans = res.copy()` is not modelled: the dictionaries of `iterate_pagerank` are values.
- Tic-tac-toe boards always have 3×3 squares. The original's behaviour on other shapes is not modelled.
