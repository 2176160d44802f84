# Verified cores of Archimedes

Dafny models of the parts of the repository whose correctness is about whole runs rather than
single calls, with proofs about every input, every interleaving or every history. Code that
works by changing things step by step is modelled by methods with loops or by classes whose
methods are tied to a specification function; protocols are transition systems; expression
code is functions. Floating point is `real`; networks, clocks, databases and scoring functions
are arbitrary oracles.

| module | core | main results |
|---|---|---|
| `Interpolation` | Compose `${VAR}` scanner | every text has exactly one well-formed tree; the scanner returns its meaning, given operator by operator |
| `Kalman`, `KalmanPaths` | hedge-ratio filter | positive definite over every run, exact determinant and residual; the state is the end of the cheapest explanation of the whole run |
| `SessionSweep` | concurrent expired-session sweep | safety, exact counting (lost replies and skewed clocks included) and progress in every interleaving |
| `Deadline` | abandoned tasks and their drain | no teardown starts freeing under a stray; exact conditions for later frees and unrecorded tasks |
| `PairSelection`, `Gatev` | portfolio of pairs | optimal book, ties included; neutrality, gross bound, ledger agreement and exact opening and closing of pairs over every run; exactly when a change goes unordered |
| `ResendWindow` | resend countdown and delivery log | exactly when the quoted wait is least, and how far off it can be over every interleaving of writers |
| `Harvest` | arXiv paging loop | exactly which pages are taken and why it stops, idempotence, bounds and termination against an unreliable server |
| `Cscv` | cross-validation splits | every half visited once, rows partitioned, the overfitting figure is a plain fraction |
| `Cidr`, `ConfText`, `TrustFile` | CloudFront trust list | no special-purpose address accepted; the generated file reads back exactly |
| `PatchBudget` | boot schema patches | aggregate time bound, outcome independence, exactly when locks chain and settings are safe |
| `Quantiles`, `AlbReport` | ALB latency report | exact and monotone percentiles, longest-prefix routing, figures that add up |
| `Drawdown` | one-pass maximum drawdown | equals the maximum over all pairs of closes |

`Wrappers` holds `Option` and `Result`, `Text` the characters Python's patterns see, `Sorting` the
stable sort the cores share, `Powers` the powers of two.

## What the proofs found

- A caller of `run_with_deadline` that is itself cancelled while waiting leaves a running task
  that is recorded nowhere, so a drain can answer zero above it (`Deadline.OrphanEscapesDrain`;
  `Deadline.OrphansExactly` says that this is the only way).
- A teardown starts freeing with no stray running, but a call that exceeds its deadline while
  the teardown awaits between two closes is freed under (`Deadline.LaterFreeUnderStray`, with
  the exact condition in `Deadline.LaterFreeExactly`).
- The resend countdown relies on creation times agreeing with the sequence order, and two sends
  in flight in one process are enough to break that (`ResendWindow.OneProcessOutOfOrder`,
  `ResendWindow.SkewedHistoryMisquotes`). `ResendWindow.WaitIsLeastExactly` says when the wait is
  right, and `ResendWindow.QuotesStayClose` how far off it can be.
- A sweep whose delete commits and whose reply is lost removes rows nobody counts: the reports
  then fall short of the rows swept (`SessionSweep.LostReplyUncounted`), and only then
  (`SessionSweep.SweepIsSafe`).
- `DB_PATCH_LOCK_BUDGET=nan` passes the sanitiser and then no patch statement ever runs
  (`PatchBudget.NaNBudgetSkipsEverything`); `inf` passes too and then nothing bounds the boot
  (`PatchBudget.InfiniteBudgetRunsEverything`); every other setting gives a positive number of
  seconds (`PatchBudget.BudgetIsPositive`).
- `DB_PATCH_LOCK_TIMEOUT` accepts digits of any script and hands them to the database as they
  are (`PatchBudget.ForeignDigitPasses`, with the exact condition in
  `PatchBudget.TimeoutIsPlainExactly`), and two kinds of huge numeral raise outside any handler
  (`PatchBudget.LongNumeralRaises`, `PatchBudget.HugeMicrosRaise`).
- A change of legs within the order tolerance is not ordered (`Gatev.TradeSyncsExactly`), which a
  short run can show (`Gatev.SmallLegIsHidden`); with one leg above the tolerance nothing is ever
  missed (`Gatev.RunStaysSynced`), and with an exposure below half of it nothing is ever ordered
  (`Gatev.NothingIsEverOrdered`).
- A provenance token with white space in it is written but not read back: the next check calls
  the file unreadable (`TrustFile.RoundTrip`, `TrustFile.VendoredFile.RefreshThenCheck`).
- Of several routes that strip to `/` the last one wins, while every other tie goes to the
  first (`AlbReport.LongestPrefix`).
- A negative price makes the running peak miss the largest loss (`Drawdown.NegativePriceMissed`),
  exactly where `Drawdown.WorstIsMaxExactly` says.

## Model

| member | source | states |
|---|---|---|
| Interpolation.CloseIsFirst | scripts/check-local-mode.py:98-114 | the brace search returns the first index at which the depth counted from the start returns to zero, and nothing closes when it returns -1 |
| Interpolation.CloseNested | scripts/check-local-mode.py:98-114 | for a body whose raw braces balance, the brace found is exactly the one after the body, whatever follows |
| Interpolation.ClosedIsNested | scripts/check-local-mode.py:98-114 | conversely, what lies between the braces found always has balanced braces |
| Interpolation.FindClosingBrace | scripts/check-local-mode.py:98-114 | the index loop returns -1 exactly when no index closes the start, otherwise the least such index |
| Interpolation.PrintParse | scripts/check-local-mode.py:117-185 | every text is the print of a well-formed template tree, unclosed and malformed forms included |
| Interpolation.ParsePrint | scripts/check-local-mode.py:117-185 | the text of a well-formed tree is read as that tree: reading is unambiguous for unbounded nesting |
| Interpolation.DefaultMeans | scripts/check-local-mode.py:159-180 | for every name, operand and rest: with a non-empty value `-` and `:-` give the value, with the variable absent the operand, and with it set to the empty text they differ, `:-` giving the operand and `-` nothing |
| Interpolation.AlternateMeans | scripts/check-local-mode.py:159-182 | dually, `+` and `:+` give the operand with a non-empty value and nothing with the variable absent; with it set to the empty text `+` gives the operand and `:+` nothing |
| Interpolation.NameMeans | scripts/check-local-mode.py:159-185 | a bare or braced name gives its value, or nothing when absent; a name followed by `?`, `:?` or junk gives the same |
| Interpolation.DefaultTexts | scripts/check-local-mode.py:117-180 | the same of texts: what `${NAME:-operand}rest` and `${NAME-operand}rest` resolve to, for every balanced operand, rest and environment |
| Interpolation.AlternateTexts | scripts/check-local-mode.py:117-182 | what `${NAME:+operand}rest` and `${NAME+operand}rest` resolve to |
| Interpolation.NameTexts | scripts/check-local-mode.py:117-184 | what `${NAME}rest`, `${NAME:?operand}rest`, `${NAME?operand}rest` and `$NAMErest` resolve to: the same text in all four forms |
| Interpolation.JunkTexts | scripts/check-local-mode.py:159-185 | braces with no operator after the name give the value, and braces that start with no name give nothing |
| Interpolation.Step | scripts/check-local-mode.py:131-155 | one iteration emits a piece and moves to an index such that the meaning of the rest of the text is that piece followed by the meaning from the new index |
| Interpolation.Interpolate | scripts/check-local-mode.py:117-156 | the scanner returns the denotation of every well-formed tree that prints as its input, for every environment, which `DefaultMeans`, `AlternateMeans` and `NameMeans` give form by form; the mutual recursion terminates on text length |
| Interpolation.ResolveBraced | scripts/check-local-mode.py:159-185 | a braced body resolves to what its name, operator and operand mean, operand interpolated by the same rules; `DefaultTexts`, `AlternateTexts`, `NameTexts` and `JunkTexts` say what that is for every body |
| Interpolation.HeadIs | scripts/check-local-mode.py:199-205 | the registry candidate is the part before the first slash |
| Interpolation.NoSlashNoHost | scripts/check-local-mode.py:199-201 | an image reference without a slash names no registry |
| Interpolation.StripIs | scripts/check-local-mode.py:199-199 | stripping cuts white space off both ends and leaves none there |
| Interpolation.RegistryIs | scripts/check-local-mode.py:191-205 | a reference names the registry `h` exactly when, white space around it cut off, it is `h`, a slash and more, where `h` has no slash and is `localhost` or holds a dot or a colon |
| Interpolation.GatedWellFormed | scripts/check-local-mode.py:98-114 | the nested shape `${R:+${R}/}image` is well-formed, so its text is scanned as intended |
| Interpolation.GatedMeans | scripts/check-local-mode.py:159-185 | that shape means the image alone when `R` is unset or empty, and `R/image` otherwise |
| Interpolation.ResolveGated | scripts/check-local-mode.py:159-205 | for every gated image: with the registry variable unset or empty a slash-free image resolves to no registry, and with it exported to a registry host to exactly that host |
| Interpolation.CheckNoEcrPull | scripts/check-local-mode.py:306-336 | the loop over services reports exactly the built services whose image resolves to a registry with the two variables stripped, in order, and counts those it looked at |
| Interpolation.OffendersAre | scripts/check-local-mode.py:317-336 | the check passes exactly when no service offends |
| Interpolation.OffendersListed | scripts/check-local-mode.py:317-336 | the problems are the offending services, all of them, once each and in order |
| Interpolation.CheckedIs | scripts/check-local-mode.py:319-322 | the count is the number of services with both a build and an image |
| Interpolation.FreshClone | scripts/check-local-mode.py:314-314 | the environment used has every variable of the given one, unchanged, but the two the deployment exports |
| Interpolation.DefaultOffends | scripts/check-local-mode.py:306-336 | a built service whose tag defaults to a registry is reported whatever is exported |
| Interpolation.GatedServicesPass | scripts/check-local-mode.py:306-336 | whatever else is exported, a compose file whose built services tag themselves through the registry gate passes |
| Kalman.PositiveDefiniteByMinors | analytics-engine/strategies/elliott_2005_kalman_pairs.py:120-125 | for symmetric 2x2 matrices a positive quadratic form is equivalent to positive leading minors |
| Kalman.VarianceAboveNoise | analytics-engine/strategies/elliott_2005_kalman_pairs.py:143-147 | on a positive definite covariance the forecast variance exceeds the noise variance, so the early return is not taken |
| Kalman.DriftDivides | analytics-engine/strategies/elliott_2005_kalman_pairs.py:124-124 | the drift is `delta/(1 - delta)`: times `1 - delta` it is `delta`, and dividing by it is multiplying by `(1 - delta)/delta` |
| Kalman.ForecastIs | analytics-engine/strategies/elliott_2005_kalman_pairs.py:143-145 | the forecast error and variance of a bar in its prices, the state, the covariance, `delta` and the noise |
| Kalman.FirstForecast | analytics-engine/strategies/elliott_2005_kalman_pairs.py:120-145 | the first bar of any run has the price itself as error and variance `(1 + delta/(1 - delta)) * (price^2 + 1) + ve` |
| Kalman.UpdatedEntries | analytics-engine/strategies/elliott_2005_kalman_pairs.py:148-150 | the updated covariance scaled by the forecast variance, entry by entry, in terms of the predicted covariance and its determinant |
| Kalman.UpdatedDeterminant | analytics-engine/strategies/elliott_2005_kalman_pairs.py:143-150 | the determinant shrinks by exactly noise variance over forecast variance |
| Kalman.StepResidual | analytics-engine/strategies/elliott_2005_kalman_pairs.py:144-149 | the residual at the new state is exactly the forecast error times noise over forecast variance |
| Kalman.StepFacts | analytics-engine/strategies/elliott_2005_kalman_pairs.py:143-151 | one bar keeps the covariance positive definite and satisfies both identities |
| Kalman.UpdatedPenalty | analytics-engine/strategies/elliott_2005_kalman_pairs.py:148-150 | information form: the inverse covariance gains exactly the outer product of the regressor over the noise |
| Kalman.UpdateIsOptimal | analytics-engine/strategies/elliott_2005_kalman_pairs.py:143-150 | the new state is the unique minimiser of prior distance plus squared miss, and any other state pays exactly its distance under the new precision |
| Kalman.RunStaysPositiveDefinite | analytics-engine/strategies/elliott_2005_kalman_pairs.py:120-151 | in every run from the identity prior the covariance is symmetric positive definite, every bar is counted, and every possible next bar has variance above the noise |
| Kalman.NextBarIsExact | analytics-engine/strategies/elliott_2005_kalman_pairs.py:138-151 | after every run the next bar, whatever its prices, leaves exactly the stated determinant and residual and is counted |
| Kalman.ResidualShrinks | analytics-engine/strategies/elliott_2005_kalman_pairs.py:138-151 | after every run, an update shrinks the residual strictly and never changes its sign |
| Kalman.Strategy.constructor | analytics-engine/strategies/elliott_2005_kalman_pairs.py:120-125 | a new strategy is the filter of the empty run, from the zero state and the identity covariance, and its drift `w` satisfies `w * (1 - delta) == delta` |
| Kalman.Strategy.Update | analytics-engine/strategies/elliott_2005_kalman_pairs.py:138-151 | the in-place update is the run extended by the bar; the error it trades on is the price less hedge ratio times the other price less intercept, the variance is spelled out in the old covariance, `delta` and the noise, and the two identities hold of the updated fields |
| KalmanPaths.SplitAtLeast | analytics-engine/strategies/elliott_2005_kalman_pairs.py:143-143 | adding the drift to the covariance is the best way to account for a move: no split of a displacement into old uncertainty and drift is cheaper than the distance under the predicted covariance |
| KalmanPaths.PathsPay | analytics-engine/strategies/elliott_2005_kalman_pairs.py:120-151 | every path of states explaining a whole run costs at least the sum of squared forecast errors over their variances, plus the distance of its end from the filter's state under the filter's own precision |
| KalmanPaths.CheapestPath | analytics-engine/strategies/elliott_2005_kalman_pairs.py:120-151 | for every end state some path costs exactly that |
| KalmanPaths.RunIsBestExplanation | analytics-engine/strategies/elliott_2005_kalman_pairs.py:120-151 | over whole runs the filter's state is the end of the cheapest path, and every path that ends elsewhere costs strictly more; a path pays the squares of its start, of each move times `(1 - delta)/delta`, and of each miss over the noise |
| SessionSweep.StepKeepsInv | auth/session-sweep.js:46-95 | every action of any process, and every insert, renewal, sign-out and tick, keeps the accounting and guard invariant |
| SessionSweep.TraceKeepsInv | auth/session-sweep.js:46-95 | the invariant holds in every state of every interleaving |
| SessionSweep.SweepIsSafe | auth/session-sweep.js:15-25 | every swept row was expired by the clock of the run that removed it, each run removes at most a batch and reports what it removed or nothing, and the reports sum to at most the rows swept, exactly when no run that removed rows lost its reply |
| SessionSweep.MuteExactly | auth/session-sweep.js:19-22 | a run is left without its reply exactly when a step lost the reply of a delete that took rows |
| SessionSweep.LostReplyUncounted | auth/session-sweep.js:19-22 | a run of the whole system in which one row is swept and nothing is reported |
| SessionSweep.RemovedOnlyWhenExpired | auth/session-sweep.js:17-18 | with process clocks at most a skew ahead, no row is removed more than that skew before it expires; with true clocks only expired rows are |
| SessionSweep.DeleteTakesExpired | auth/session-sweep.js:17-22 | a row that a delete takes, reply or no reply, is expired by its run's clock, was not swept before, and is attributed to that run |
| SessionSweep.OneRunPerProcess | auth/session-sweep.js:73-95 | no process has two unfinished runs |
| SessionSweep.SelectionHolds | auth/session-sweep.js:46-60 | if rows expired for a run are not renewed, what it selected stays selected and dead until it deletes |
| SessionSweep.DeleteMakesProgress | auth/session-sweep.js:23-29 | when a run's delete commits, at least a batch has left the table since its select, or every row that was expired then, even with overlapping selections |
| SessionSweep.SelectedAll | auth/session-sweep.js:49-54 | a selection holds expired rows only, and is a full batch or every expired row |
| SessionSweep.FailureChangesNoRow | auth/session-sweep.js:30-32 | a run that fails before its delete commits changes no row and clears the in-flight guard |
| SessionSweep.NextRunMakesProgress | auth/session-sweep.js:30-32 | an idle process's next run can remove exactly one batch or the whole backlog, and reports it |
| SessionSweep.WithoutExpired | auth/session-sweep.js:56-59 | the conditional delete removes exactly the given ids that are still expired and returns their number |
| SessionSweep.SessionTable.FindMany | auth/session-sweep.js:49-54 | the select returns expired ids: a full limit of them, or all there are |
| SessionSweep.SessionTable.DeleteMany | auth/session-sweep.js:56-59 | the delete leaves the table without the given still-expired rows, and nothing else changes |
| SessionSweep.SessionTable.Sweep | auth/session-sweep.js:46-60 | undisturbed, a sweep removes and reports one batch or the whole backlog |
| Deadline.StepKeepsInv | backend/archimedes/deadline.py:84-155 | every step keeps: the abandoned set is exactly the unfinished strays plus finished ones whose reaper is queued |
| Deadline.TraceKeepsInv | backend/archimedes/deadline.py:84-155 | that holds in every reachable state |
| Deadline.NoFreeStartsUnderStray | backend/archimedes/deadline.py:47-50 | in every run each deadline-exceeded unfinished task is held, and no teardown ever started freeing while one was running |
| Deadline.LaterFreeExactly | backend/archimedes/chain/client.py:519-530 | a session closed later in a teardown is closed under no stray exactly when every call that exceeded its deadline since the zero answer has completed again |
| Deadline.LaterFreeUnderStray | backend/archimedes/chain/client.py:519-530 | a run in which a call exceeds its deadline between two closes and the second close is under it |
| Deadline.ZeroMeansNoStray | backend/archimedes/deadline.py:108-130 | a drain that answers zero answers truly at the moment it answers, even if tasks were abandoned during the drain |
| Deadline.DrainCounts | backend/archimedes/deadline.py:108-130 | what a drain answers is the number of strays plus the number of reapers still queued as it answers; at once it answers only zero |
| Deadline.OrphansExactly | backend/archimedes/deadline.py:141-148 | a running task is unrecorded exactly when some step cancelled its caller while it was running and it has not completed since |
| Deadline.ZeroMeansNoneSevered | backend/archimedes/deadline.py:108-155 | with an empty set, no task runs without a caller exactly when every task whose caller was cancelled was done by then or has completed since |
| Deadline.AnsweredIsDone | backend/archimedes/deadline.py:141-144 | a caller got a result only from a finished task |
| Deadline.SnapshotCountLies | backend/archimedes/deadline.py:117-120 | a run in which an answer from the snapshot would be zero with a stray running |
| Deadline.OrphanEscapesDrain | backend/archimedes/deadline.py:141-148 | a run in which the drain answers zero while a cancelled caller's task is running |
| Deadline.ReapersEmptyTheSet | backend/archimedes/deadline.py:87-94 | once no stray runs, the queued reapers alone bring the count to zero |
| Deadline.Registry.constructor | backend/archimedes/deadline.py:84-84 | a new registry is an initial state |
| Deadline.Registry.Resume | backend/archimedes/deadline.py:141-155 | after the wait the caller is answered exactly when the task is done; otherwise the task is cancelled and held as a stray |
| Deadline.Registry.Complete | backend/archimedes/deadline.py:146-148 | a finishing task schedules its reaper if it carries one |
| Deadline.Registry.Reap | backend/archimedes/deadline.py:87-94 | a reaper drops its own task and lowers the count by one |
| Deadline.Registry.Disconnect | backend/archimedes/chain/client.py:519-530 | the answer is the size of the live set; the teardown starts freeing only when no stray is running, and otherwise frees nothing |
| Deadline.Registry.CloseNext | backend/archimedes/chain/client.py:530-530 | a teardown that has started goes on to the next session, whoever is running by then |
| PairSelection.RowsToMembers | analytics-engine/strategies/gatev_2006_portfolio_of_pairs.py:160-178 | the nested loops collect exactly the tradeable pairs |
| PairSelection.RowsToOnce | analytics-engine/strategies/gatev_2006_portfolio_of_pairs.py:160-178 | and each of them once |
| PairSelection.JudgeIs | analytics-engine/strategies/gatev_2006_portfolio_of_pairs.py:160-178 | a pair is tradeable exactly when both bases are positive, there are two bars and the sample deviation is positive; distance and unit are then the sum of the squared gaps and the root of the sum of squares less the squared sum over the count, over the count less one |
| PairSelection.DistanceIs | analytics-engine/strategies/gatev_2006_portfolio_of_pairs.py:168-172 | two bars are as far apart as their second gap squared, and each further bar adds the square of its own gap |
| PairSelection.SquaresAboutMean | analytics-engine/strategies/gatev_2006_portfolio_of_pairs.py:173-174 | the squares about the mean are the squares less the squared sum over the count |
| PairSelection.RankedIsSorted | analytics-engine/strategies/gatev_2006_portfolio_of_pairs.py:179-179 | the ranking is ascending in distance and a permutation of the candidates |
| PairSelection.SelectedIsBest | analytics-engine/strategies/gatev_2006_portfolio_of_pairs.py:149-180 | the book holds distinct tradeable pairs, closest first; any tradeable pair left out is at least as far apart as every pair taken, and one is left out only when the book is full |
| PairSelection.SelectedIsFirst | analytics-engine/strategies/gatev_2006_portfolio_of_pairs.py:160-180 | ties are settled by position: the book is in strict order of distance and then of the pair's indices, and precedes every tradeable pair left out |
| PairSelection.SelectPairs | analytics-engine/strategies/gatev_2006_portfolio_of_pairs.py:149-180 | the two nested loops, sort and cut compute that book |
| Gatev.TargetsNeutral | analytics-engine/strategies/gatev_2006_portfolio_of_pairs.py:242-249 | netted targets of any number of pairs sharing legs sum to zero, with gross at most two legs per open pair |
| Gatev.TargetIsWholeLegs | analytics-engine/strategies/gatev_2006_portfolio_of_pairs.py:242-249 | each feed's target is its net leg count times the leg weight |
| Gatev.FormedFits | analytics-engine/strategies/gatev_2006_portfolio_of_pairs.py:211-226 | a new book fits the feeds and the size limit, with every side flat |
| Gatev.StepKeepsOk | analytics-engine/strategies/gatev_2006_portfolio_of_pairs.py:255-278 | every bar keeps the book sound, no older than the trading window, and its weights equal to its netted targets |
| Gatev.RunIsNeutral | analytics-engine/strategies/gatev_2006_portfolio_of_pairs.py:211-278 | after every bar of every run the weights sum to zero, gross is at most twice the exposure, and every weight is a whole number of legs |
| Gatev.NetLegsCount | analytics-engine/strategies/gatev_2006_portfolio_of_pairs.py:242-249 | the net leg count of a feed is the number of open pairs that make it their long leg less the number that make it their short leg |
| Gatev.RunWeights | analytics-engine/strategies/gatev_2006_portfolio_of_pairs.py:211-278 | after every bar of every run the weight of a feed is that difference times the exposure over the size of the book; side 1 is short the first leg and long the second |
| Gatev.WholeLegsVisible | analytics-engine/strategies/gatev_2006_portfolio_of_pairs.py:250-251 | a non-zero whole number of legs exceeds the tolerance when one leg does |
| Gatev.TradeSyncsExactly | analytics-engine/strategies/gatev_2006_portfolio_of_pairs.py:237-278 | for every sound synced book, a trading bar leaves the ledger right if and only if each feed's change of legs is nothing or exceeds the tolerance |
| Gatev.ReformSyncsExactly | analytics-engine/strategies/gatev_2006_portfolio_of_pairs.py:211-253 | a re-formation leaves it right if and only if the legs it closes are nothing or exceed the tolerance |
| Gatev.TradeSyncs | analytics-engine/strategies/gatev_2006_portfolio_of_pairs.py:250-253 | a trading bar leaves the last ordered target of each feed equal to its weight |
| Gatev.ReformSyncs | analytics-engine/strategies/gatev_2006_portfolio_of_pairs.py:211-253 | so does a re-formation to a book of another size |
| Gatev.RunStaysSynced | analytics-engine/strategies/gatev_2006_portfolio_of_pairs.py:237-253 | over every run with exposure per pair above the tolerance, the last ordered target of every feed equals its current weight |
| Gatev.NothingIsEverOrdered | analytics-engine/strategies/gatev_2006_portfolio_of_pairs.py:237-253 | with an exposure within half the tolerance, no order is placed for any feed in any run |
| Gatev.SmallLegIsHidden | analytics-engine/strategies/gatev_2006_portfolio_of_pairs.py:237-278 | a whole run on three bars of two feeds, for every exposure within the tolerance, that ends with a position nobody ordered |
| Gatev.SideMoves | analytics-engine/strategies/gatev_2006_portfolio_of_pairs.py:265-276 | a flat pair with prices opens if and only if the gap of its normalised prices is beyond the threshold either way, on the side of the gap; an open pair stays exactly while the gap is on its side and otherwise closes to flat; without both prices nothing moves |
| Gatev.AtStep | analytics-engine/strategies/gatev_2006_portfolio_of_pairs.py:255-278 | each bar of a run waits, replaces the book by a flat one, or ages it by one and moves its pairs |
| Gatev.BarTurns | analytics-engine/strategies/gatev_2006_portfolio_of_pairs.py:265-276 | every bar of every run that neither waits nor re-forms turns every pair by that rule and keeps its legs |
| Gatev.FlatPairOpens | analytics-engine/strategies/gatev_2006_portfolio_of_pairs.py:269-273 | after such a bar a pair that was flat is open on the side of its gap exactly when the gap is beyond its threshold, upwards or downwards |
| Gatev.BarForms | analytics-engine/strategies/gatev_2006_portfolio_of_pairs.py:207-226 | a bar that re-forms takes the best pairs of the formation window that ends with it, flat, based at the first closes of that window |
| Gatev.BookLifetime | analytics-engine/strategies/gatev_2006_portfolio_of_pairs.py:259-263 | a non-empty book keeps its legs and is replaced exactly trading+1 bars after it was formed |
| Gatev.OpenSince | analytics-engine/strategies/gatev_2006_portfolio_of_pairs.py:263-276 | every open pair entered at a bar of the current book beyond its threshold and has kept its side and its spread's strict sign on every computable bar since |
| Gatev.Strategy.constructor | analytics-engine/strategies/gatev_2006_portfolio_of_pairs.py:202-205 | a new strategy is the empty book |
| Gatev.Strategy.Apply | analytics-engine/strategies/gatev_2006_portfolio_of_pairs.py:237-253 | the loops over pairs and feeds leave weights and orders as specified and touch nothing else: a feed is ordered exactly when its weight moves by more than 1e-9 |
| Gatev.Strategy.Next | analytics-engine/strategies/gatev_2006_portfolio_of_pairs.py:255-278 | after each call the object is the run over the history so far; before the formation window nothing changes, and a trading bar turns every pair by the rule of `SideMoves` |
| ResendWindow.WaitIsLeastExactly | auth/verification-status.js:115-137 | for every history in any order, the wait is the least sufficient one if and only if the window is not full, or fewer than the maximum live rows wait longer than the third newest and at least the maximum wait as long |
| ResendWindow.HistoryIs | auth/delivery-log.js:178-184 | a history is every row of the table with that address and that kind, once each, in reverse order of insertion |
| ResendWindow.RecentIs | auth/delivery-log.js:173-185 | the query is the first `limit` of those created in the last 24 hours |
| ResendWindow.YoungPlaces | auth/verification-status.js:110-113 | the rows of a history younger than a cutoff are as many as the rows of the table with that address and kind that are |
| ResendWindow.OpenIsSufficient | auth/verification-status.js:110-113 | a wait is sufficient exactly when fewer than three rows of the table with that address and kind are then younger than a minute |
| ResendWindow.DisorderIs | auth/delivery-log.js:64-82 | the disorder of a history is the least bound on how far a row of that address and kind is older than one inserted ahead of it |
| ResendWindow.TruncatedViewExactly | auth/delivery-log.js:173-191 | for every log and limit, the 24-hour query gives the same wait as the whole log if and only if it shows a full window whenever there is one |
| ResendWindow.QuoteIsLeastExactly | auth/verification-status.js:103-137 | exactly when the wait computed from the limited query is the least sufficient one for the untruncated log |
| ResendWindow.QuoteIsClose | auth/verification-status.js:103-137 | whatever the log holds, the quoted wait is off the least sufficient one by at most the disorder of creation times, in whole seconds rounded up |
| ResendWindow.QuoteIsAbout | auth/verification-status.js:103-137 | the same over the table itself, for any bound on how far its rows are out of step |
| ResendWindow.RetryAfterIsLeast | auth/verification-status.js:125-137 | in a time-ordered history the wait is the least whole number of seconds after which fewer than the maximum rows remain in the window, zero when already so |
| ResendWindow.TruncatedViewIsExact | auth/delivery-log.js:173-191 | in a time-ordered history the limited 24-hour query gives the same wait as the whole log |
| ResendWindow.QuotedWaitIsLeast | auth/verification-status.js:103-137 | in a time-ordered history the wait computed from the 20-row query is least over the untruncated log |
| ResendWindow.TraceIsSteady | auth/delivery-log.js:122-158 | over every interleaving of stamps and inserts, rows that land within a delay of their stamp, stamped at most so far ahead, keep creation times within the sum of the two of the sequence order |
| ResendWindow.QuotesStayClose | auth/verification-status.js:103-137 | over every interleaving of any number of processes, the quote is then off by at most that sum, rounded up to whole seconds, from the least wait after which fewer than three rows of the table with that address and kind are younger than a minute |
| ResendWindow.SerialQuotesAreLeast | auth/delivery-log.js:64-82 | a single writer that settles each insert before stamping the next is always quoted exactly, however its clock behaves |
| ResendWindow.StampedHistoryDescends | auth/delivery-log.js:64-82 | strictly increasing stamps in insertion order give a time-ordered history |
| ResendWindow.OneProcessOutOfOrder | auth/delivery-log.js:133-148 | a run of one process with a true clock whose inserts land in another order than their stamps |
| ResendWindow.SkewedHistoryMisquotes | auth/verification-status.js:128-137 | from the log of that run one second is quoted where 57 is least |
| ResendWindow.DeliveryLog.constructor | auth/delivery-log.js:57-58 | a process starts with nothing issued |
| ResendWindow.DeliveryLog.NextCreatedAt | auth/delivery-log.js:79-82 | a stamp is never behind the clock and strictly after the one before, by the least that allows both |
| ResendWindow.DeliveryLog.Record | auth/delivery-log.js:122-136 | a row without address, kind or status is refused and spends no stamp; any other is stamped and sent off with what it was given |
| ResendWindow.DeliveryLog.Settle | auth/delivery-log.js:137-158 | an insert that lands appends its row, whatever else is in flight; one that fails leaves the table as it was with its stamp spent |
| ResendWindow.DeliveryLog.Quote | auth/verification-status.js:110-137 | over any table: after the wait, lengthened by how far rows of that address and kind are out of step, fewer than three of them are younger than a minute, and at no time before the wait shortened by as much; with none out of step the wait is the least |
| Harvest.MergeGrows | scripts/bulk_ingest_arxiv.py:311-316 | merging adds exactly the page's ids and never changes a known entry |
| Harvest.MergeTakesFirst | scripts/bulk_ingest_arxiv.py:311-316 | of the papers on a page with one new id the first is taken, as it is |
| Harvest.MergeNothing | scripts/bulk_ingest_arxiv.py:311-327 | a page adds nothing exactly when all its ids are known, and then changes nothing |
| Harvest.WalkWaits | scripts/bulk_ingest_arxiv.py:280-308 | against a stable feed, errors and tolerated empty pages leave the walk where it is with retries in step |
| Harvest.WalkAdvances | scripts/bulk_ingest_arxiv.py:309-338 | a page moves the start by exactly what was merged |
| Harvest.ErrorStep | scripts/bulk_ingest_arxiv.py:283-288 | an error keeps the invariant and uses up one of the finitely many errors |
| Harvest.BlipStep | scripts/bulk_ingest_arxiv.py:290-306 | a retried empty page keeps the invariant and uses up a retry |
| Harvest.PageStep | scripts/bulk_ingest_arxiv.py:309-338 | a page keeps the invariant and comes closer to the page limit |
| Harvest.StopStep | scripts/bulk_ingest_arxiv.py:252-308 | every way out before a page is merged leaves the corpus with the feed up to the start index, and the target met, the whole feed in, or the page limit reached |
| Harvest.StaleStop | scripts/bulk_ingest_arxiv.py:327-336 | the caught-up stop comes after a page past the first with nothing new on it |
| Harvest.PageTaken | scripts/bulk_ingest_arxiv.py:249-310 | a page merged is the next of the feed, at most 200 papers, asked for below the page limit and with the target not met |
| Harvest.StopsAre | scripts/bulk_ingest_arxiv.py:249-341 | what the stopping rules leave: nothing but feed ids added, and without the early stop and within the page limit the target met or the whole feed in |
| Harvest.MergePage | scripts/bulk_ingest_arxiv.py:311-316 | the loop over a page is the merge, and counts the growth |
| Harvest.Iterate | scripts/bulk_ingest_arxiv.py:249-339 | one pass goes on exactly when no stopping rule applies, is then closer to the end in the lexicographic measure, and keeps the invariant and the record of pages; when it stops against a stable feed, the target is met, the feed is at its end, the page limit is reached, or a page past the first added nothing under the caught-up stop |
| Harvest.Corpus.HarvestQuery | scripts/bulk_ingest_arxiv.py:225-341 | terminates when errors are finite; against any server loses and overwrites nothing, returns exactly the growth, stays within a page of a target and does nothing once it is met; against a stable feed it takes whole pages from the front, going past each exactly as the rules allow, until one of them stops it; without the early stop and within the page limit the target is met or exactly the feed is added |
| Harvest.Corpus.HarvestAgain | scripts/bulk_ingest_arxiv.py:225-341 | a second run over the same feed, with the same target if any, adds nothing |
| Harvest.Corpus.HarvestAll | scripts/bulk_ingest_arxiv.py:383-396 | over all categories: nothing lost, exactly the growth returned, and a target outgrown by less than a page, later categories skipped once it is met; with no early stop, over stable feeds within the page limit, the target is met or exactly the union of the feeds is added |
| Cscv.CombinationsCount | analytics-engine/scripts/compute_library_pbo.py:91-91 | the number of splits is the binomial coefficient |
| Cscv.CombinationsSound | analytics-engine/scripts/compute_library_pbo.py:91-91 | each split takes exactly half of the blocks |
| Cscv.CombinationsDistinct | analytics-engine/scripts/compute_library_pbo.py:91-91 | no split comes up twice |
| Cscv.EachHalfOnce | analytics-engine/scripts/compute_library_pbo.py:91-91 | every half of the blocks is in-sample in one and only one split |
| Cscv.BlockRows | analytics-engine/scripts/compute_library_pbo.py:83-85 | a block is its slice of consecutive rows |
| Cscv.SplitPartitionsRows | analytics-engine/scripts/compute_library_pbo.py:91-94 | in-sample and out-of-sample rows are disjoint, cover the rows used, and have the expected sizes |
| Cscv.LogitSign | analytics-engine/scripts/compute_library_pbo.py:97-98 | the clipped logit is non-positive exactly when twice the rank is at most the number of strategies |
| Cscv.TallyStep | analytics-engine/scripts/compute_library_pbo.py:91-101 | one split raises exactly its winner's count and keeps the tallies exact |
| Cscv.RankedOnTheRest | analytics-engine/scripts/compute_library_pbo.py:91-97 | the strategy ranked is the best on the in-sample rows, and it is ranked on exactly the other rows used |
| Cscv.WinsAre | analytics-engine/scripts/compute_library_pbo.py:99-100 | a strategy's count is the number of splits in whose in-sample rows it is best |
| Cscv.OverfitAre | analytics-engine/scripts/compute_library_pbo.py:97-106 | the overfit count is the number of splits whose best ranks in the lower half of the other rows |
| Cscv.SharesListed | analytics-engine/scripts/compute_library_pbo.py:101-101 | the quantiles of a strategy are the out-of-sample ranks over the number of strategies of the splits it won, in their order |
| Cscv.SharesAre | analytics-engine/scripts/compute_library_pbo.py:99-101 | each strategy has one rank quantile per split it won, above zero and at most one |
| Cscv.MedianInRange | analytics-engine/scripts/compute_library_pbo.py:111-113 | the median exists exactly when there are values and lies within their bounds |
| Cscv.MedianIs | analytics-engine/scripts/compute_library_pbo.py:111-113 | the median is the middle of an odd number of values in order, and the mean of the middle two of an even number |
| Cscv.MedianIsNear | analytics-engine/scripts/compute_library_pbo.py:111-113 | the reported median is the median to half a ten-thousandth |
| Cscv.RoundedIsNear | analytics-engine/scripts/compute_library_pbo.py:106-113 | rounding moves a figure by at most half a unit in its last place |
| Cscv.RoundedHalf | analytics-engine/scripts/compute_library_pbo.py:106-113 | exactly half way between two multiples the even one is taken |
| Cscv.PboIsFraction | analytics-engine/scripts/compute_library_pbo.py:106-106 | the reported probability is the fraction of splits to half a millionth |
| Cscv.Diagnose | analytics-engine/scripts/compute_library_pbo.py:69-117 | the counts are the numbers of splits each strategy is best in and sum to the number of splits; the reported overfitting probability is the rounded fraction of splits whose best ranks in the lower half on the other rows, zero for one strategy; each reported median is that of the quantiles of the splits won, rounded, and absent exactly without a win |
| Cidr.ContainsRange | scripts/refresh_cloudfront_origin_ranges.py:88-89 | for an aligned block, clearing host bits is the same as lying between its endpoints |
| Cidr.OverlapIffShared | scripts/refresh_cloudfront_origin_ranges.py:102-102 | the endpoint overlap test holds exactly when the blocks share an address |
| Cidr.NestedOrDisjoint | scripts/refresh_cloudfront_origin_ranges.py:55-66 | section 3.1 of RFC 4632: blocks that share an address are nested, the longer prefix inside |
| Cidr.PublicAvoidsSpecial | scripts/refresh_cloudfront_origin_ranges.py:55-66 | a network passes exactly when it is judged global and no address of it lies in a listed special-purpose block |
| Cidr.NonPublicSix | scripts/refresh_cloudfront_origin_ranges.py:59-66 | the listed IPv6 blocks are `::/8`, `fc00::/7`, `fe80::/10` and `ff00::/8` |
| Cidr.EndpointsAreNotEnough | scripts/refresh_cloudfront_origin_ranges.py:55-58 | 192.160.0.0/12 has both endpoints outside every listed block and is refused all the same |
| Cidr.AscendingUnique | scripts/refresh_cloudfront_origin_ranges.py:88-89 | a list in file order is determined by the set it holds |
| Cidr.Sorted | scripts/refresh_cloudfront_origin_ranges.py:113-113 | the sorted list is free of duplicates and holds exactly the set: IPv4 first, then by address, then by prefix length |
| ConfText.SplitJoined | scripts/refresh_cloudfront_origin_ranges.py:131-131 | lines without a line break come back from their joined text |
| ConfText.SplitLinesAt | scripts/refresh_cloudfront_origin_ranges.py:131-131 | each of the ten line breaks ends a line, and a carriage return takes the line feed after it along |
| ConfText.Print4Parses | scripts/refresh_cloudfront_origin_ranges.py:125-140 | the dotted-quad text of every IPv4 block is one token and reads back as that block |
| ConfText.DecIsUnique | scripts/refresh_cloudfront_origin_ranges.py:99-99 | a numeral without a needless leading zero is the one its number is printed as |
| ConfText.Parse4Exactly | scripts/refresh_cloudfront_origin_ranges.py:99-99 | what is read as an IPv4 network is exactly four canonical octets of an aligned address, a slash, and digits that spell a length |
| ConfText.PrintIs | scripts/refresh_cloudfront_origin_ranges.py:125-125 | dotted notation is the four bytes from the highest down, and the length |
| ConfText.NonPublicNames | scripts/refresh_cloudfront_origin_ranges.py:59-66 | the listed IPv4 blocks are the ten texts of the source |
| ConfText.ColonIsNot4 | scripts/refresh_cloudfront_origin_ranges.py:99-99 | a text with a colon is never taken for IPv4 |
| ConfText.ShowParse | scripts/refresh_cloudfront_origin_ranges.py:125-140 | every network's text is one token and reads back as that network |
| TrustFile.MatchLineIff | scripts/refresh_cloudfront_origin_ranges.py:68-68 | the entry pattern matches exactly prefix, token, semicolon, and captures the token |
| TrustFile.MatchMetaIff | scripts/refresh_cloudfront_origin_ranges.py:69-69 | the provenance pattern matches exactly `# syncToken t, createDate d.` with two tokens, and captures them |
| TrustFile.MetaMatchesExactly | scripts/refresh_cloudfront_origin_ranges.py:69-75 | the line written as provenance is recognised if and only if both tokens are non-empty and free of white space |
| TrustFile.ItemIs | scripts/refresh_cloudfront_origin_ranges.py:131-140 | what each line is taken for: white space alone is skipped, `#` starts a comment or the provenance, an entry names a network, and every other line is refused as malformed or as no network |
| TrustFile.FirstMetaIs | scripts/refresh_cloudfront_origin_ranges.py:134-135 | the provenance is that of the first line that has one |
| TrustFile.EntriesAre | scripts/refresh_cloudfront_origin_ranges.py:137-140 | the networks read are those of all entry lines, in file order |
| TrustFile.RenderedText | scripts/refresh_cloudfront_origin_ranges.py:71-125 | the rendered file line by line: banner, provenance, the counts of either version, and one entry to a network |
| TrustFile.ParseConf | scripts/refresh_cloudfront_origin_ranges.py:128-143 | the reader reports the first offending line, or missing provenance, or the networks in order with the first provenance line |
| TrustFile.ReadsOnce | scripts/refresh_cloudfront_origin_ranges.py:128-143 | that answer is unique |
| TrustFile.RoundTrip | scripts/refresh_cloudfront_origin_ranges.py:116-143 | under any banner of comment lines, the rendered file reads back as exactly the networks, token and date it was given, if and only if token and date are non-empty and free of white space |
| TrustFile.NoProvenanceExactly | scripts/refresh_cloudfront_origin_ranges.py:116-143 | for tokens without line breaks the file is refused for want of provenance if and only if one of them is empty or holds white space |
| TrustFile.RawIs | scripts/refresh_cloudfront_origin_ranges.py:94-95 | the texts looked at are exactly those of the service's records in either list |
| TrustFile.JudgesExactly | scripts/refresh_cloudfront_origin_ranges.py:97-110 | a prefix is accepted exactly when it reads as a network that is global, holds no special-purpose address, and is no broader than /12 or /32 |
| TrustFile.OriginFacing | scripts/refresh_cloudfront_origin_ranges.py:92-113 | validation of a document gives the distinct networks of the service in file order, or the first refusal, or too few |
| TrustFile.WrittenIsPublic | scripts/refresh_cloudfront_origin_ranges.py:92-113 | every network of an accepted list is a proper block, no broader than allowed, with no address in a special-purpose block |
| TrustFile.ValidatedOnce | scripts/refresh_cloudfront_origin_ranges.py:92-113 | an accepted list is the only answer validation can give |
| TrustFile.VendoredFile.Refresh | scripts/refresh_cloudfront_origin_ranges.py:160-181 | the file is written only without `--check` and only when the set of networks differs; refused or unreadable input leaves it as it was |
| TrustFile.VendoredFile.RefreshThenCheck | scripts/refresh_cloudfront_origin_ranges.py:160-181 | a check on the same data after a refresh: up to date if the file already was, or was written with solid non-empty tokens; unreadable for want of provenance if it was written with tokens that stay on their line and are not |
| PatchBudget.BudgetIsPositive | backend/archimedes/db.py:206-219 | the sanitised budget is a positive number of seconds exactly when the setting does not spell NaN or infinity |
| PatchBudget.BudgetIs | backend/archimedes/db.py:206-219 | a setting that reads as more than zero is taken as it reads; absent, unreadable or not positive it is ten seconds |
| PatchBudget.MatchOf | backend/archimedes/db.py:187-195 | a numeral in any script followed by a unit is read as that many units |
| PatchBudget.TimeoutIsUsable | backend/archimedes/db.py:192-203 | the sanitiser raises exactly on a numeral too long for `int` or, in microseconds, too large for `float`; otherwise the timeout used is above zero and at most INT_MAX milliseconds, a usable setting is kept and only such, and sanitising again changes nothing |
| PatchBudget.TimeoutKeepsExactly | backend/archimedes/db.py:187-203 | unit by unit, the numbers that are kept: up to 2147483647 ms, 2147483 s, 35791 min, 596 h, 24 d or 2147483647000 us, and more than zero |
| PatchBudget.TimeoutIsPlainExactly | backend/archimedes/db.py:171-203 | only ASCII digits and lower-case letters reach the SQL text if and only if the setting is not usable or spells its number in ASCII digits |
| PatchBudget.ForeignDigitPasses | backend/archimedes/db.py:187-196 | U+0665 followed by `s` is kept and handed on as it is |
| PatchBudget.LongNumeralRaises | backend/archimedes/db.py:194-195 | a numeral of more than 4300 digits raises, whatever it is worth |
| PatchBudget.HugeMicrosRaise | backend/archimedes/db.py:188-195 | a microsecond count beyond the range of `float` raises |
| PatchBudget.ChainsExactly | backend/archimedes/db.py:260-295 | over every series of transactions of any sizes and endings, locks are never chained if and only if no transaction asks for the locks of two tables, and none is left held |
| PatchBudget.LocksAreNeverChained | backend/archimedes/db.py:260-310 | with one statement to a transaction no lock is waited for while another is held, and none outlives its statement |
| PatchBudget.SharedTransactionChains | backend/archimedes/db.py:265-271 | two tables patched in one transaction would chain their locks |
| PatchBudget.InitIsBounded | backend/archimedes/db.py:368-412 | with statements of at most a limit, both loops start none after the shared deadline, end each before deadline plus limit, and only the last past the deadline |
| PatchBudget.FailuresStopNothing | backend/archimedes/db.py:296-310 | which statements run, and when, does not depend on which of them fail or how; only an interrupt, which is not an `Exception`, changes it |
| PatchBudget.LoopTakes | backend/archimedes/db.py:402-405 | statements are taken in order, each begun when the one before has ended and its pause is over and before the deadline, taking the time and ending the way the world has it; one is left out only once the deadline has passed or an interrupt struck |
| PatchBudget.InitTakes | backend/archimedes/db.py:368-412 | the whole boot: on Postgres the listed statements and then, short of an interrupt, what the inspection found, both on the deadline taken at the start |
| PatchBudget.InterruptIsLast | backend/archimedes/db.py:289-310 | nothing is tried after an interrupt |
| PatchBudget.InfiniteBudgetRunsEverything | backend/archimedes/db.py:226-243 | with an infinite budget every statement runs, and the loop takes all the time they take |
| PatchBudget.NaNBudgetSkipsEverything | backend/archimedes/db.py:226-243 | with a NaN deadline no statement is attempted |
| PatchBudget.Booting.constructor | backend/archimedes/db.py:373-373 | a boot starts with nothing attempted |
| PatchBudget.Booting.Apply | backend/archimedes/db.py:260-310 | one statement runs in a transaction that ends in every case, and reports whether it took effect |
| PatchBudget.Booting.Events | backend/archimedes/db.py:289-310 | what a statement does to locks for each way it can end: nothing without a connection, otherwise begin, wait, hold if it got so far, and end |
| PatchBudget.AppliedAre | backend/archimedes/db.py:401-410 | the count is the number of attempts that took effect |
| PatchBudget.Booting.Patch | backend/archimedes/db.py:401-410 | the loop is its specification, counts what took effect, and accounts for every statement as attempted or skipped |
| PatchBudget.Booting.EnsureOwnership | backend/archimedes/db.py:478-484 | the ownership loop spends from the deadline it is handed |
| PatchBudget.Booting.InitDb | backend/archimedes/db.py:368-412 | the whole boot is its specification and leaves no lock held or chained |
| Sorting.SortIsSorted | scripts/alb_latency_report.py:359-360 | the stable sort by any order gives an ordered permutation |
| Sorting.SortIsStable | analytics-engine/strategies/gatev_2006_portfolio_of_pairs.py:179-179 | entries that tie keep the order the list came in, whatever that is |
| Sorting.SortSet | scripts/refresh_cloudfront_origin_ranges.py:113-113 | sorting a set lists everything in it, once, in order |
| Quantiles.SamplesAreSorted | scripts/alb_latency_report.py:360-360 | the sorted samples are ascending and a permutation |
| Quantiles.PercentileIsMonotone | scripts/alb_latency_report.py:253-265 | on sorted input a larger quantile never gives a smaller value, and every percentile lies between the least and the largest sample |
| Quantiles.PercentileIs | scripts/alb_latency_report.py:253-265 | at position `k + x` the percentile is `1 - x` of the `k`-th sample and `x` of the next |
| Quantiles.BisectLeft | scripts/alb_latency_report.py:283-283 | the bucket found has every smaller edge strictly below the value and no other |
| Quantiles.Histogram | scripts/alb_latency_report.py:279-285 | each bucket holds exactly the values its edges enclose, and the buckets sum to the number of values |
| AlbReport.MatchRoute | scripts/alb_latency_report.py:268-276 | the loop computes the route that `LongestPrefix` characterises |
| AlbReport.StrippedIs | scripts/alb_latency_report.py:272-272 | a route's base is the route without its trailing slashes |
| AlbReport.MatchesIs | scripts/alb_latency_report.py:272-273 | a path matches exactly when it is the route, its base, or lies below the base |
| AlbReport.LongestPrefix | scripts/alb_latency_report.py:268-276 | a path goes to `(other)` exactly when nothing matches; otherwise to a matching route whose base extends every matching base, with ties resolved as stated |
| AlbReport.InWindowIs | scripts/alb_latency_report.py:335-335 | the rows of a window are all rows from its start on and before its end, in their order |
| AlbReport.UnderIs | scripts/alb_latency_report.py:343-345 | the rows of a route are all rows whose path is matched to it, in their order |
| AlbReport.TimesAre | scripts/alb_latency_report.py:186-202 | the latencies are those of the rows a target answered, in their order: the three parts added, unmeasured outer parts as none |
| AlbReport.RoutesPartitionRows | scripts/alb_latency_report.py:343-353 | rows, timed rows and unforwarded rows, summed over the routes, are those of all rows: each row counts once |
| AlbReport.FoldNext | scripts/alb_latency_report.py:343-353 | one row keeps every dictionary equal to what its route's rows amount to |
| AlbReport.FoldRows | scripts/alb_latency_report.py:337-356 | after the loop the dictionaries describe all in-window rows |
| AlbReport.RankRanks | scripts/alb_latency_report.py:359-359 | routes are listed busiest first, ties by name, each once |
| AlbReport.LexIs | scripts/alb_latency_report.py:359-359 | names are ordered by their first difference, a prefix first |
| AlbReport.StatsAreOrdered | scripts/alb_latency_report.py:360-372 | per route, count is forwarded plus unforwarded, and with samples p50, p95, p99 and max ascend |
| AlbReport.StatsAre | scripts/alb_latency_report.py:360-372 | with `100 h + 1` latencies the percentiles are those at `50 h`, `95 h` and `99 h` in order, and the maximum is the greatest |
| AlbReport.ReportAddsUp | scripts/alb_latency_report.py:374-392 | in any report the routes' counts, forwarded and unforwarded rows sum to the totals, and the histogram sums to the forwarded rows |
| AlbReport.HostOfIs | scripts/alb_latency_report.py:191-195 | a target's host is what precedes its last colon, or the whole target without one |
| AlbReport.AddressesAre | scripts/alb_latency_report.py:354-356 | an address is reported exactly when a forwarded row names it |
| AlbReport.InAlphabet | scripts/alb_latency_report.py:386-386 | the addresses are listed once each, in strictly ascending order |
| AlbReport.Summarize | scripts/alb_latency_report.py:323-392 | the fold produces such a report, routes in report order and target addresses in alphabetical order, with the parsed and malformed rows and the least healthy-host value passed through |
| Drawdown.WorstOccurs | analytics-engine/strategies/low_tan_wermers_2004_dividend_yield.py:140-148 | what the loop returns is zero or a loss between two closes |
| Drawdown.WindowIs | analytics-engine/strategies/low_tan_wermers_2004_dividend_yield.py:133-139 | the window is the closes before the current one, whatever came before |
| Drawdown.WorstBounds | analytics-engine/strategies/low_tan_wermers_2004_dividend_yield.py:142-148 | it is no smaller than any loss down to a close that is not negative |
| Drawdown.PeakStandsExactly | analytics-engine/strategies/low_tan_wermers_2004_dividend_yield.py:142-148 | at each price the running peak stands for every earlier positive close if and only if the price is not negative or no earlier positive close is below the peak |
| Drawdown.WorstBoundsPeaks | analytics-engine/strategies/low_tan_wermers_2004_dividend_yield.py:142-148 | the answer is no smaller than the loss from the running peak at any bar |
| Drawdown.WorstIsPeakDrop | analytics-engine/strategies/low_tan_wermers_2004_dividend_yield.py:142-148 | a positive answer is the loss from the running peak at some bar |
| Drawdown.WorstIsMaxExactly | analytics-engine/strategies/low_tan_wermers_2004_dividend_yield.py:133-149 | the loop's answer is the maximum over all pairs of closes if and only if every loss from a positive close to a negative one is matched, at some negative close, by the loss from the running peak there |
| Drawdown.WorstIsMax | analytics-engine/strategies/low_tan_wermers_2004_dividend_yield.py:133-149 | for closes that are never negative it is the maximum, and below one for positive closes |
| Drawdown.MaxDrawdown | analytics-engine/strategies/low_tan_wermers_2004_dividend_yield.py:133-149 | absent exactly when the window is; otherwise that answer |
| Drawdown.NegativePriceMissed | analytics-engine/strategies/low_tan_wermers_2004_dividend_yield.py:142-148 | on closes 1, 2, -1 the loop answers 1.5 where the largest loss is 2 |

## Left out

- Floating-point rounding everywhere: prices, weights, covariances and latencies are exact reals, and the square root of the pair selection is an arbitrary function.
- The trading half of the Kalman strategy's `next` (entry and exit bands, order sizes) and broker behaviour.
- Session sweep: timers are represented by a run starting at any moment.
- Deadline: the drain's wait may end at any moment, so its timeout is not a number; how many sessions a teardown closes is left open.
- Delivery log: address normalisation, the failed read that yields no history, and the precedence of states reported by the verification endpoint.
- arXiv harvest: back-off and delay lengths, the XML fetch, row normalisation and the manifest file.
- Cscv.Diagnose: takes the Sharpe and rank computations as oracles and does not report the whole-window Sharpe, because their arithmetic is not part of the split accounting; `build_aligned_matrix` is not modelled.
- TrustFile.RoundTrip: the wording of the fixed comment lines is a parameter; any comment lines whose third character is not an `s` will do, and those of the source are such.
- Trust list: IPv6 notation and network forms other than a dotted quad with a decimal prefix length are an oracle that is only required to read back what it prints; `is_global` is an arbitrary extra condition; JSON reading is not modelled.
- Boot patches: the moment between a deadline check and the start of its statement is taken as one instant, schema inspection time counts against nobody's limit, Postgres rounds `lock_timeout` on its own, which characters beyond ASCII are decimal digits is a parameter, and what Postgres makes of such a digit is not modelled.
- ALB report: log-line parsing, the healthy-host guard and the comparison of windows.
- Quantile arguments outside the unit interval, which the report never uses.
- Rigor gates, deflated Sharpe formulas, single-asset strategies, DMARC reports, UI, infrastructure and request routing: they would only add easy members or sit on code that lives elsewhere.
