# Swarm optimisation engine — a Dafny model

The Go back end of the swarm optimisation visualiser minimises a two-variable
formula with five population heuristics: the artificial bee colony (ABC), the
artificial fish swarm (AFSA), the shuffled frog leaping algorithm (SFLA), the
grey wolf optimiser (GWO) and the firefly algorithm (FA). All five share the
engine `Algo` (`NewAlgo`), which validates the request, compiles the formula,
seeds a random stream, builds the population and takes the first global best.
Each strategy's `Run` sends one snapshot (population, best position, best
value, iteration number) before its first iteration and one after every
iteration, and stops at the first snapshot the `send` callback refuses. An
older JavaScript worker runs its own AFSA, and the front end's `getLabelStep`
picks the spacing of the plot's axis labels.

The model has one module per source concern:

- `Values`: float64 results as extended reals with NaN (`Less` is Go's and
  JavaScript's `<`, false on NaN), IEEE addition and scaling, the two clamps,
  and the objective closure built by `ConvertMathExpressionToFunc`.
- `Random`: the random stream as a function from positions to uniform draws
  in [0, 1), with a class `Rng` whose `Float64`/`Intn` consume one draw each.
- `General`: `setDefault`.
- `Metric`: the distances FA and AFSA compute.
- `Engine`: the request, `NewAlgo`, the class `Algo` with the shared
  population (an `array` of row `array`s, since the strategies replace rows
  and write into them), the `send` callback as a class `Sink` that records
  every snapshot, and the emission protocol every `Run` follows.
- `Fa`, `Gwo`, `Sfla`, `Afsa`, `Abc`: each strategy as a class around its
  `Algo`, whose methods change the population in place as the Go code does
  and are proved against specification functions of the old state.
- `AfsaWorker`: the JavaScript worker, proved against the same functions as
  the Go AFSA where the two agree, and against its own where they differ.
- `Graph`: `getLabelStep`.

Behaviours of the code that the model keeps as written, with the member that
states each:

- GWO's second branch of `updateBestWolves` appoints a wolf worse than the
  current alpha as the new alpha (`Gwo.UpdateCanRaiseAlpha`), so the best
  value a GWO run reports can rise. A pack of one wolf never gets a delta
  (`Gwo.LoneWolfLeavesNoDelta`), and the first hunt reads a nil delta and
  panics (`Gwo.Pack.Advance`).
- ABC's `updateGlobalBest` copies into the best slice, which is one of the
  population's rows after construction, so it overwrites that row
  (`Abc.Colony.UpdateGlobalBest`). With the default `ForagerSize = P / 2`,
  a population of 2 or 3 has one forager and the partner loop never ends
  (`Random.NoFairStreamForOneIndex`, `Abc.Colony.Run`); no foragers with
  observers, or no dimension, panics in `Intn(0)` (`Abc.Colony.Run`).
- SFLA's `updateBest` stores a reference to a row, so a later leap that
  writes into that row changes the reported best position.
- AFSA's `setDefault(&request.Visual, ...)` always returns the field, so the
  default `[1, 8]` is never used and a missing visual range panics
  (`General.FieldAddressNeverDefaults`, `Afsa.NewAFSA`).
- The JavaScript worker differs from the Go AFSA in its clamp on inverted
  bounds, its random move (which caps every coordinate by the first bound
  row), its seeding of the best with member 0, its history, and in throwing
  where Go keeps going (`AfsaWorker.BehaviourAgainstGo` and the members
  cited below).

## Model

Specification functions that carry no contract of their own (such as `Engine.ScanMin`, `Engine.ScanMax`, `Sfla.Leap`, `Abc.Roulette`, `Afsa.Widest`, `Afsa.Nudge`, `Afsa.Jolt`, `AfsaWorker.MinOf`, `AfsaWorker.JsJolt` and `AfsaWorker.JsStep`) have no row: the lemma and method rows that name them state what they mean.

| member | source | states |
|---|---|---|
| Values.LessIsStrictOrder | backend-go/algos/Algo.go:123 | `<` on float64 is irreflexive, asymmetric and transitive, total apart from NaN, and `>=` is the negation of `<` only between non-NaN values |
| Values.NotAboveTransitive | backend-go/algos/Algo.go:121-127 | a best that is not above a second one, itself not above a third, is not above the third |
| Values.NaNNeverCompares | backend-go/algos/Algo.go:123 | a NaN neither wins nor loses any `<` or `>=` comparison, so a NaN objective value never becomes a best |
| Values.Add | backend-go/algos/ABC.go:128-131 | IEEE addition: NaN exactly when an operand is NaN or the operands are opposite infinities; the exact sum of two finite values |
| Values.Scale | backend-go/algos/ABC.go:133 | the product of a uniform draw and a double: NaN exactly when the double is NaN or the draw is 0 and the double infinite; the exact product of finite values |
| Values.CloseToOnlyFinite | backend-go/algos/AFSA.go:132 | `math.Abs(h1 - h0) < eta` holds exactly when both history values are finite and less than `eta` apart: two equal infinities are never close |
| Values.Clamp | backend-go/algos/ABC.go:123 | `math.Max(lo, math.Min(x, hi))` is at least `lo`, at most `hi` on ordered bounds, leaves an inside value alone, and answers `lo` on inverted bounds |
| Values.JsClamp | backend/workers/afsaWorker.js:161 | `Math.min(Math.max(x, lo), hi)` is at most `hi`, at least `lo` on ordered bounds, leaves an inside value alone, and answers `hi` on inverted bounds |
| Values.ClampsAgreeOnOrderedBounds | backend/workers/afsaWorker.js:166 | the Go and JavaScript clamps agree on every ordered interval and disagree on every inverted one |
| Values.Evaluate | backend-go/algos/Algo.go:152-172 | the objective's value is NaN exactly when the argument count is not two or the evaluation fails at run time; a NaN output becomes +Inf; every other output is passed through unchanged |
| Values.ObjectiveOf | backend-go/algos/Algo.go:132-173 | the objective returned by `ConvertMathExpressionToFunc` is the evaluation of the compiled program on every argument vector |
| Random.IntDraw | backend/workers/afsaWorker.js:127 | `Math.floor(rng() * n)`, the model of Go's `Intn(n)`, is an index in [0, n) |
| Random.NoFairStreamForOneIndex | backend-go/algos/ABC.go:73-76 | with one index every draw of `Intn(1)` is 0, so no random stream ends a loop that redraws until the index differs from 0 |
| Random.Rng.constructor | backend-go/algos/Algo.go:86-92 | a new generator reads its stream from the start |
| Random.Rng.Float64 | backend-go/algos/FA.go:99 | `Rng.Float64()` answers the next draw and advances by one |
| Random.Rng.Consume | backend-go/algos/AFSA.go:164-170 | passing over n draws advances the stream by n |
| Random.Rng.Intn | backend-go/algos/ABC.go:92 | `Rng.Intn(n)` for n > 0 answers the integer draw of the next uniform, an index in [0, n), and advances by one |
| General.SetDefault | backend-go/algos/general.go:3-8 | a nil pointer gives the default and a present one gives the value it points to, a zero value included |
| General.FieldAddressNeverDefaults | backend-go/algos/AFSA.go:37 | `setDefault` of a field's address is always the field, so an absent visual range is not replaced by `[1, 8]` |
| Metric.SquaredDistanceZero | backend-go/algos/FA.go:109-115 | the sum of squared differences is non-negative and zero exactly when the two vectors are equal |
| Metric.DistanceSymmetric | backend-go/algos/FA.go:109-115 | the distance of `a` from `b` is the distance of `b` from `a` |
| Graph.LabelStep | frontend/src/utils/graph.js:1-16 | the spacing is one of the table's steps and is positive |
| Graph.OverrideSelectsLargestExceeded | frontend/src/utils/graph.js:2-14 | a chain of overriding `if`s over increasing thresholds answers the step of the largest threshold exceeded, or the initial step when none is |
| Graph.LabelStepIsLastMatch | frontend/src/utils/graph.js:1-16 | `getLabelStep` answers the step of the largest threshold that the distance strictly exceeds |
| Graph.SmallDistances | frontend/src/utils/graph.js:2 | up to 5 the spacing is 0.1 |
| Graph.LargeDistances | frontend/src/utils/graph.js:13-14 | beyond 1000 the spacing is 100, the largest of all |
| Graph.LabelStepMonotone | frontend/src/utils/graph.js:1-16 | a wider plot never gets a smaller spacing |
| Engine.SampledRow | backend-go/algos/Algo.go:110-114 | a sampled row has one coordinate per dimension, coordinate j drawn from bound row j |
| Engine.SampledRows | backend-go/algos/Algo.go:107-115 | sampling `size` rows gives `size` rows |
| Engine.SampledRowInBounds | backend-go/algos/Algo.go:113 | a row sampled within well-ordered bounds lies within them |
| Engine.Sample | backend-go/algos/Algo.go:113 | `u * (max - min) + min` lies in [min, max], strictly below max unless min = max |
| Engine.SampleStaysInside | backend-go/algos/ABC.go:147 | the sampling formula stays inside ordered bounds, strictly below the upper one when the interval is not a point |
| Engine.Toward | backend-go/algos/AFSA.go:175-201 | a step toward a target by a fraction has the length of its start and, coordinate by coordinate, is the Go clamp of `x + r * (target - x)` into that coordinate's bounds |
| Engine.TowardInBounds | backend-go/algos/AFSA.go:179 | a step lands within well-ordered bounds wherever it starts |
| Engine.TowardIsConvexInsideBounds | backend-go/algos/AFSA.go:188 | between two in-bounds points a step by a fraction in [0, 1] is never clamped: it is the convex combination |
| Engine.Scores | backend-go/algos/Algo.go:121-122 | the objective value of every row, in order |
| Engine.ScanMinFindsFirstLeast | backend-go/algos/Algo.go:121-127 | the strict-`<` scan for a minimum keeps nothing strictly below its answer, never rises above its start, keeps its start exactly when nothing is below it, and otherwise answers the first index of a least value |
| Engine.ScanMaxFindsFirstGreatest | backend-go/algos/SFLA.go:82-88 | the strict-`>` scan for a maximum answers the first index of a greatest value, or its start when nothing is above it |
| Engine.Sink.constructor | backend-go/algos/Algo.go:15 | a new `send` callback has an empty log and a fixed answer per call |
| Engine.Sink.Send | backend-go/algos/Algo.go:15 | `send` appends the snapshot to the log and reports whether it was accepted |
| Engine.StepsNeverRiseAll | backend-go/algos/FA.go:73-76 | a best value that never rises from one snapshot to the next never rises between any two snapshots |
| Engine.EmittedFirst | backend-go/algos/FA.go:38-43 | the snapshot of iteration 0 starts a run's log |
| Engine.EmittedNext | backend-go/algos/FA.go:79-84 | after an accepted send, the snapshot of the next iteration with a best not above the last one extends the log |
| Engine.PrefixAgrees | backend-go/algos/FA.go:79-87 | two logs equal up to entry n agree before it and at it |
| Engine.EmittedRun | backend-go/algos/FA.go:37-90 | a run that stops after its last iteration or at the first refused send leaves the log of its snapshots 0, 1, ..., all accepted but the last, with a best that never rises |
| Engine.EmittedInterrupted | backend-go/algos/SFLA.go:46-62 | a run that stops inside an iteration after an accepted snapshot leaves a log whose snapshots are all accepted and whose best never rises |
| Engine.EmittedCrashed | backend-go/algos/AFSA.go:119-141 | a run that panics after the send of an iteration, once that snapshot was accepted, leaves a log of accepted snapshots with a best that never rises |
| Engine.SentNext | backend-go/algos/GWO.go:76-81 | an accepted send followed by the next iteration's snapshot extends the log, whatever the best value did |
| Engine.SentRun | backend-go/algos/GWO.go:42-89 | a run that stops after its last iteration or at the first refused send leaves one snapshot per iteration started, all accepted but the last |
| Engine.SentHalted | backend-go/algos/GWO.go:55-86 | a run that panics inside an iteration leaves only accepted snapshots |
| Engine.RowValues | backend-go/algos/GWO.go:45 | the contents of the rows a snapshot shows, row by row |
| Engine.Algo.Init | backend-go/algos/Algo.go:78-84 | a new engine holds the objective and the iteration count, no best position and a best value of +Inf, and zero values elsewhere |
| Engine.Algo.Contents | backend-go/algos/FA.go:39 | the population's contents, row by row |
| Engine.Algo.Emit | backend-go/algos/FA.go:79-84 | the snapshot shows the population, the best and the iteration, and the answer is whether `send` accepted it |
| Engine.Algo.EmitFirst | backend-go/algos/FA.go:38-43 | the snapshot of iteration 0 is logged and starts the emission protocol |
| Engine.Algo.EmitNext | backend-go/algos/FA.go:79-84 | the snapshot of iteration t + 1 extends the protocol when the previous one was accepted and the best has not risen |
| Engine.Algo.SampleVector | backend-go/algos/Algo.go:111-114 | a fresh row with one coordinate per dimension, the sampled row of the next `N` draws |
| Engine.Algo.SetDefaultBounds | backend-go/algos/Algo.go:98-101 | one `[-100, 100]` bound row per dimension, nothing else changed |
| Engine.Algo.SamplePopulation | backend-go/algos/Algo.go:107-115 | `size` fresh, distinct rows, row i the i-th sampled row, `size * N` draws consumed |
| Engine.Algo.Adopt | backend-go/algos/Algo.go:116-119 | the request's rows become the population by reference and set its size |
| Engine.Algo.ScanBest | backend-go/algos/Algo.go:121-127 | the index and value the strict-`<` scan from the current best reaches over the population |
| Engine.Algo.Populate | backend-go/algos/Algo.go:107-127 | the population sampled (fresh rows) or adopted, then the initial best taken by the scan |
| Engine.Algo.UpdateBest | backend-go/algos/Algo.go:121-127 | the best value becomes the scan's result and never rises, and the best position becomes a reference to the first row reaching it, or stays |
| Engine.Validate | backend-go/algos/Algo.go:45-71 | the request is rejected exactly when a check fails, with the first failing check's error: bounds not two rows, an empty population, no population and no size, no dimension source, or disagreeing dimensions |
| Engine.DefaultBounds | backend-go/algos/Algo.go:98-101 | n rows, each `[-100, 100]` |
| Engine.DeclaredDimensionsDroppedWithoutBounds | backend-go/algos/Algo.go:94-98 | a dimension count given without bounds is dropped: the engine keeps zero dimensions and no bound rows |
| Engine.DefaultBoundsCoverDimensions | backend-go/algos/Algo.go:94-101 | without request bounds every dimension gets `[-100, 100]`, ordered and covering |
| Engine.RequestBoundsMeanTwoDimensions | backend-go/algos/Algo.go:45-114 | with request bounds a population can only be sampled when each of the two bound rows is a pair, so the engine works in two dimensions |
| Engine.NewAlgo | backend-go/algos/Algo.go:43-130 | a rejected request returns its validation error and consumes no draw; a formula that does not compile is an error; otherwise the engine is built, or sampling panics exactly when the size is negative or a bound row is missing or short |
| Fa.FarthestIsLargest | backend-go/algos/FA.go:50-63 | the scan answers a distance no other firefly exceeds, which is 0 or the distance to some other firefly |
| Fa.FarthestZeroIffCoincide | backend-go/algos/FA.go:50-63 | with a genuine square root the farthest distance is 0 exactly when every other firefly sits where firefly i is |
| Fa.Drift | backend-go/algos/FA.go:98-104 | a moved vector has the length of its start and lies within well-ordered bounds |
| Fa.Moved | backend-go/algos/FA.go:92-107 | `UpdatePosition` answers a vector of the same length, within well-ordered bounds |
| Fa.DriftAt | backend-go/algos/FA.go:99-103 | coordinate k of a move is the clamped sum of the start, the attraction toward the brighter firefly and the noise of draw k |
| Fa.NoiselessMoveIsConvex | backend-go/algos/FA.go:100-103 | with `Alpha` 0 and an attraction in [0, 1], a move between in-bounds fireflies is never clamped: it is the convex step toward the brighter one, the same step AFSA and SFLA take |
| Fa.Pursuit | backend-go/algos/FA.go:65-72 | a firefly's pursuit keeps its dimension, consumes draws only forward and stays within well-ordered bounds |
| Fa.PursuitStep | backend-go/algos/FA.go:66-71 | firefly j is passed over when it is i or not strictly brighter than i's current position, and otherwise i moves toward it, consuming one draw per dimension; a move never happens with a farthest distance of 0 |
| Fa.PursuitStaysIffNoneBrighter | backend-go/algos/FA.go:65-72 | in at least one dimension, a firefly consumes no draw exactly when no later firefly is strictly brighter than it, and it then stays where it is |
| Fa.Pursued | backend-go/algos/FA.go:50-72 | the pursuit over the whole population keeps the firefly's dimension and bounds |
| Fa.Turn | backend-go/algos/FA.go:50-76 | a turn never raises the best value, keeps the best value the value of the best position, and keeps fireflies and best within well-ordered bounds |
| Fa.Flight | backend-go/algos/FA.go:49-77 | the turns of an iteration keep the population's shape |
| Fa.FlightStep | backend-go/algos/FA.go:49 | an iteration is the turn of the first firefly followed by the turns of the rest |
| Fa.FlightKeepsInvariants | backend-go/algos/FA.go:49-77 | over an iteration the best value never rises and stays the value of its position, and fireflies and best stay within well-ordered bounds |
| Fa.Fireflies.constructor | backend-go/algos/FA.go:29-34 | the strategy holds the engine and its three coefficients |
| Fa.Fireflies.SumOfSquares | backend-go/algos/FA.go:110-113 | the loop computes the sum of squared differences |
| Fa.Fireflies.CalculateDistance | backend-go/algos/FA.go:109-115 | `calculateDistance` is the Euclidean distance |
| Fa.Fireflies.MaxDistance | backend-go/algos/FA.go:50-63 | the loop computes the farthest distance from firefly i |
| Fa.Fireflies.UpdatePosition | backend-go/algos/FA.go:92-107 | a fresh vector equal to the moved position of the next draws, one draw per coordinate |
| Fa.Fireflies.Relocate | backend-go/algos/FA.go:70 | only row i changes, to a fresh row holding the moved position toward row j |
| Fa.Fireflies.Approach | backend-go/algos/FA.go:66-71 | one pass of the pursuit loop advances the pursuit by firefly j and changes no other row |
| Fa.Fireflies.ChaseStep | backend-go/algos/FA.go:66-71 | one pass keeps the loop's invariant: other slots keep their rows and contents, and the rest of the pursuit from the current row and stream ends where the whole pursuit does |
| Fa.Fireflies.ChaseAll | backend-go/algos/FA.go:65-72 | after the pass over every firefly the pursuit has nothing left, so row i and the stream are the pursuit's result |
| Fa.Fireflies.Chase | backend-go/algos/FA.go:65-72 | the loop ends with row i and the stream where the pursuit says, every other row untouched |
| Fa.Fireflies.Pursue | backend-go/algos/FA.go:50-72 | only row i changes, to the pursuit's end, and the stream ends where the pursuit says |
| Fa.Fireflies.Remember | backend-go/algos/FA.go:73-76 | the best takes row i, by reference, exactly when its value is strictly below the best; the population is untouched |
| Fa.Fireflies.TakeTurn | backend-go/algos/FA.go:50-76 | the new state is the turn of firefly i applied to the old one |
| Fa.Fireflies.Sweep | backend-go/algos/FA.go:49-77 | the new state is the iteration's turns applied to the old one |
| Fa.Fireflies.Advance | backend-go/algos/FA.go:49-77 | the state after an iteration (rows, best position and value, stream position) is `Flight` of the state before, swept from firefly 0; the best value never rises and stays honest and within bounds |
| Fa.Fireflies.Round | backend-go/algos/FA.go:49-87 | an iteration followed by its snapshot extends the emission protocol, and the best never rises |
| Fa.Fireflies.Run | backend-go/algos/FA.go:37-90 | the log follows the emission protocol with a best that never rises; the answer is the best position (by reference) and value, the value of the last snapshot |
| Fa.Fireflies.Iterations | backend-go/algos/FA.go:48-88 | the loop ends after the last iteration or at the first refused send, with the protocol kept |
| Fa.NewFA | backend-go/algos/FA.go:23-35 | the engine's construction, with its errors, then `Alpha` 0.01, `Beta0` 1.0 and `Gamma` 0.8 unless the request gives them |
| Gwo.AlphaRisesBetweenAlphaAndBeta | backend-go/algos/GWO.go:94-101 | a wolf raises the alpha value exactly when its value lies strictly between alpha's and beta's |
| Gwo.RankKeepsOrderOutsideAlphaBeta | backend-go/algos/GWO.go:94-104 | ordered leaders stay ordered unless the wolf lies in [alpha, beta), and a wolf strictly inside that range breaks the order |
| Gwo.OnlyDeltaBetweenBetaAndDelta | backend-go/algos/GWO.go:102-103 | a wolf not below alpha or beta but below delta replaces delta and nothing else |
| Gwo.RankAllChoosesAmong | backend-go/algos/GWO.go:91-106 | an update only appoints former leaders and wolves of the population |
| Gwo.UpdateCanRaiseAlpha | backend-go/algos/GWO.go:91-106 | leaders (5, 10, +Inf) and wolves valued 6, 1, 5.5 end as (5.5, 1, 6): alpha rises and beta ends below it |
| Gwo.LoneWolfLeavesNoDelta | backend-go/algos/GWO.go:91-106 | from the construction's leaders, ranking a single wolf leaves delta nil whatever its value |
| Gwo.RealAbs | backend-go/algos/GWO.go:112 | `math.Abs` is non-negative and is the value or its negation |
| Gwo.HuntWithinReach | backend-go/algos/GWO.go:108-114 | `A` lies in [-a, a] for a non-negative `a`, so a hunt lands within `a` times `D` of the prey |
| Gwo.DecayFalls | backend-go/algos/GWO.go:56 | the coefficient of the first iteration is `a`, and over a run it falls without going below 0, staying positive when `a` is |
| Gwo.DecayStart | backend-go/algos/GWO.go:56 | the coefficient is `a` at iteration 0 and 0 at the iteration count |
| Gwo.DecayOrder | backend-go/algos/GWO.go:56 | with a non-negative `a` the coefficient never rises from one iteration to a later one |
| Gwo.DecayPositive | backend-go/algos/GWO.go:56 | with a positive `a` the coefficient stays positive before the last iteration |
| Gwo.Hunted | backend-go/algos/GWO.go:59-68 | the hunted vector has one coordinate per dimension |
| Gwo.MoveNeverWorsens | backend-go/algos/GWO.go:69-71 | a wolf never gets worse, changes only to a strictly better position, and stays within well-ordered bounds |
| Gwo.NoWorseTransitive | backend-go/algos/GWO.go:58-73 | "no member worse" composes over successive passes |
| Gwo.Pack.constructor | backend-go/algos/GWO.go:31-39 | the strategy holds the engine, `a` and `C`, and no beta or delta, both valued +Inf |
| Gwo.Pack.UpdateBestWolves | backend-go/algos/GWO.go:91-106 | the leaders become the update of the old leaders over the population in order; the population is untouched and the bounds invariant survives |
| Gwo.Pack.Regroup | backend-go/algos/GWO.go:92-105 | the loop computes the update of the leaders over the population |
| Gwo.Pack.Hunting | backend-go/algos/GWO.go:108-114 | `hunting` consumes two draws and answers the hunt they define |
| Gwo.Pack.HuntVector | backend-go/algos/GWO.go:59-68 | a fresh row holding the hunted vector of the next `6 * N` draws |
| Gwo.Pack.HuntCoordinate | backend-go/algos/GWO.go:62-67 | three hunts, six draws, then the mean clamped into the bound row |
| Gwo.Pack.ValidLeadersAreArmed | backend-go/algos/GWO.go:62-64 | a pack whose three leaders exist can hunt without a nil dereference |
| Gwo.Pack.Prowl | backend-go/algos/GWO.go:59-71 | only wolf i changes, to its hunted vector when that is strictly better, after `6 * N` draws |
| Gwo.Pack.Pass | backend-go/algos/GWO.go:58-73 | every wolf has hunted the same leaders with its own draws, and the bounds invariant survives |
| Gwo.Pack.Sweep | backend-go/algos/GWO.go:58-73 | wolf k ends at its move computed from the draws starting at `6 * N * k` |
| Gwo.Pack.Advance | backend-go/algos/GWO.go:56-74 | the iteration panics exactly when the population is non-empty and a leader is missing, changing nothing; otherwise the wolves hunt with the iteration's coefficient and the leaders are updated over the new population |
| Gwo.Pack.Iterate | backend-go/algos/GWO.go:56-74 | an iteration panics exactly when a non-empty pack lacks a leader, and keeps the shape and the bounds invariant |
| Gwo.Pack.Round | backend-go/algos/GWO.go:56-85 | a panic leaves the log alone; otherwise the snapshot of the new population and best extends the log |
| Gwo.Pack.Run | backend-go/algos/GWO.go:42-89 | the first snapshot shows the alpha of the first update; a run that does not panic leaves the emission log, one that panics leaves only accepted snapshots; the answer is alpha (by reference) and its value |
| Gwo.Pack.Open | backend-go/algos/GWO.go:43-49 | the leaders are updated, then the snapshot of iteration 0 shows the new alpha value |
| Gwo.Pack.Iterations | backend-go/algos/GWO.go:55-86 | the loop ends after the last iteration, at a refused send, or in a panic after an accepted send |
| Gwo.FirstDrawNext | backend-go/algos/GWO.go:58-68 | each wolf of a pass consumes `6 * N` draws |
| Gwo.SweptNeverWorsens | backend-go/algos/GWO.go:58-73 | over a pass no wolf gets worse, and wolves within well-ordered bounds stay within them |
| Gwo.NewGWO | backend-go/algos/GWO.go:25-40 | the engine's construction, with its errors, then `a` and `C` (2 unless given) and no beta or delta, both valued +Inf |
| Sfla.MemeplexWithinPopulation | backend-go/algos/SFLA.go:70-72 | memeplex i spans `[i * s, (i + 1) * s)` inside the population, and fewer than `count` frogs are in no memeplex |
| Sfla.TooManyMemeplexesAreEmpty | backend-go/algos/SFLA.go:70 | with more memeplexes than frogs every memeplex is empty |
| Sfla.BlockScanMisses | backend-go/algos/SFLA.go:74-89 | the scan finds no worst frog exactly when every value is -Inf or NaN, and no best exactly when every value is +Inf or NaN |
| Sfla.EqualBlockPicksStart | backend-go/algos/SFLA.go:79-89 | in a block of equal finite values the best and the worst frog are both the first one |
| Sfla.LeapThenRetry | backend-go/algos/SFLA.go:91-108 | a leap is its move toward the memeplex best followed by the fallback, which sees the global best as it is after that move |
| Sfla.LeapStaysInBounds | backend-go/algos/SFLA.go:91-108 | a leap lands within well-ordered bounds |
| Sfla.LeapImprovesOrResamples | backend-go/algos/SFLA.go:91-108 | a leap ends not at or above the memeplex's worst value after one or two draws, or on the random row of the draws after the two moves |
| Sfla.LeapPanicsOnlyOnNilBest | backend-go/algos/SFLA.go:97-100 | a leap panics exactly when the first move failed, the global best is nil and there is a dimension |
| Sfla.SwapKeepsMultiset | backend-go/algos/SFLA.go:125-127 | a swap keeps the rows as a multiset |
| Sfla.ShuffleIsPermutation | backend-go/algos/SFLA.go:124-128 | the shuffle keeps the length and the multiset of rows |
| Sfla.Frogs.constructor | backend-go/algos/SFLA.go:28-32 | the strategy holds the engine, the memeplex count and the leap count |
| Sfla.Frogs.ScanBlock | backend-go/algos/SFLA.go:74-89 | the first strict minimum and maximum of the block, as population indices or -1, and the worst value |
| Sfla.Frogs.MoveToward | backend-go/algos/SFLA.go:92-95 | the row, written in place, becomes the clamped step toward the target |
| Sfla.Frogs.Resample | backend-go/algos/SFLA.go:105-107 | the row, written in place, becomes the sampled row of the next `N` draws |
| Sfla.Frogs.MoveWorst | backend-go/algos/SFLA.go:91-108 | the worst row becomes the leap's result, or the leap panics; when that row is the best position the best moves with it |
| Sfla.Frogs.Leapfrog | backend-go/algos/SFLA.go:91-108 | a leap that does not panic keeps frogs and best within bounds |
| Sfla.Frogs.FirstMove | backend-go/algos/SFLA.go:91-95 | the worst row steps toward the memeplex best, one draw |
| Sfla.Frogs.Fallback | backend-go/algos/SFLA.go:97-108 | the row becomes the fallback's result, or the fallback panics |
| Sfla.Frogs.LocalSearch | backend-go/algos/SFLA.go:68-112 | only the memeplex's rows change, the best stays, and a search that does not panic keeps the bounds |
| Sfla.Frogs.Sweep | backend-go/algos/SFLA.go:47-50 | the memeplexes never raise the best value and keep the bounds unless one panics |
| Sfla.Frogs.Memeplex | backend-go/algos/SFLA.go:48-49 | after the local search (which leaves the best alone), unless it panicked, the best value and position are the ones `updateBest`'s scan of the frogs from the stored best gives: the least score if it beats the stored best, with a reference to the first row reaching it, else unchanged; the best never rises |
| Sfla.Frogs.Publish | backend-go/algos/SFLA.go:49 | `updateBest` on the frogs: the best value and position are the scan's, the shape is kept, and the bounds invariant survives because the new best is one of the frogs |
| Sfla.Frogs.Shuffle | backend-go/algos/SFLA.go:124-128 | the rows are permuted as references; contents, shape and bounds survive |
| Sfla.Frogs.FisherYates | backend-go/algos/SFLA.go:125 | the population becomes the shuffle of the next `P - 1` draws, a permutation of the old rows |
| Sfla.Frogs.Swap | backend-go/algos/SFLA.go:126 | rows i and j trade places |
| Sfla.Frogs.Round | backend-go/algos/SFLA.go:47-62 | a panic leaves the log alone; otherwise the snapshot extends the emission protocol, and the best never rises |
| Sfla.Frogs.Advance | backend-go/algos/SFLA.go:47-52 | the memeplexes then the shuffle never raise the best value and keep the bounds unless one panics |
| Sfla.Frogs.Run | backend-go/algos/SFLA.go:35-66 | the log follows the emission protocol, or ends with accepted snapshots after a panic; the best never rises; the answer is the best position (by reference) and value |
| Sfla.Frogs.Iterations | backend-go/algos/SFLA.go:46-63 | the loop ends after the last iteration, at a refused send, or in a panic after an accepted send |
| Sfla.NewSFLA | backend-go/algos/SFLA.go:21-33 | the engine's construction, with its errors, then one memeplex and ten leaps unless the request gives them |
| Afsa.WidestIsLargest | backend-go/algos/AFSA.go:257-265 | `maxDifference` is at least 0 and at least every bound row's width, and is 0 or the width of some row |
| Afsa.VisualDecays | backend-go/algos/AFSA.go:73 | the visual range is never below `MinVisual`, starts at the larger of the two bounds, and with a non-negative initial range never grows from one iteration to the next |
| Afsa.Matrix | backend-go/algos/AFSA.go:62-68 | the distance matrix is square, one row and one column per fish |
| Afsa.MatrixSymmetric | backend-go/algos/AFSA.go:62-68 | the distance from fish i to fish j is the distance from j to i |
| Afsa.Neighbors | backend-go/algos/AFSA.go:146-158 | a fish is a neighbour of fish i exactly when it is another fish whose distance is at most the range |
| Afsa.NeighborsAscending | backend-go/algos/AFSA.go:151-155 | the neighbours are listed in ascending index order |
| Afsa.NeighborsStep | backend-go/algos/AFSA.go:152-153 | one more entry of the distance row adds at most its own index to the neighbours |
| Afsa.NeighborsSymmetric | backend-go/algos/AFSA.go:146-158 | fish j sees fish i exactly when fish i sees fish j |
| Afsa.Select | backend-go/algos/AFSA.go:246-250 | the rows of the listed fish, in list order |
| Afsa.BestOf | backend-go/algos/AFSA.go:221-234 | `bestNeighbor` answers -1 exactly when there is no neighbour, and otherwise one of the neighbours |
| Afsa.BestOfIsFirstLeast | backend-go/algos/AFSA.go:225-233 | the chosen neighbour has a value no other neighbour is strictly below, and every neighbour listed before it has another value |
| Afsa.Mean | backend-go/algos/AFSA.go:244-255 | the centre has one coordinate per dimension |
| Afsa.ColumnSumBetween | backend-go/algos/AFSA.go:246-250 | a column sum of coordinates in [lo, hi] lies between the count times lo and the count times hi |
| Afsa.MeanInBounds | backend-go/algos/AFSA.go:244-255 | the centre of fish within the bounds lies within the bounds |
| Afsa.Average | backend-go/algos/AFSA.go:251-253 | dividing such a sum by the count gives a value in [lo, hi] |
| Afsa.Wander | backend-go/algos/AFSA.go:160-173 | a random move keeps the dimension and lands within well-ordered bounds |
| Afsa.Leap | backend-go/algos/AFSA.go:203-219 | a jump keeps the dimension and lands within well-ordered bounds |
| Afsa.ClampWithin | backend-go/algos/AFSA.go:168-169 | clamping a coordinate moved by at most m into an interval holding it moves it by at most m |
| Afsa.ScaledBound | backend-go/algos/AFSA.go:211-212 | a direction of at most q either way times a width is at most q times the width |
| Afsa.ClampScaled | backend-go/algos/AFSA.go:211-215 | a jump coordinate, clamped, moves by at most q times the width |
| Afsa.NudgeNear | backend-go/algos/AFSA.go:165-169 | a random-move coordinate stays in its bound row and moves by at most the smaller of the range and the row's width |
| Afsa.JoltNear | backend-go/algos/AFSA.go:208-215 | a jump coordinate stays in its bound row and moves by at most the jump size times the row's width |
| Afsa.WanderStaysNear | backend-go/algos/AFSA.go:160-173 | from within well-ordered bounds a random move lands within them, each coordinate moving by at most the range and at most its row's width |
| Afsa.LeapStaysNear | backend-go/algos/AFSA.go:203-219 | from within well-ordered bounds a jump lands within them, each coordinate moving by at most the jump size times its row's width |
| Afsa.Search | backend-go/algos/AFSA.go:193-201 | a search takes two draws and keeps the dimension and the bounds |
| Afsa.SwarmOrSearch | backend-go/algos/AFSA.go:85-90 | the swarm-or-search outcome keeps the dimension and takes one or two draws |
| Afsa.ChaseOrSearch | backend-go/algos/AFSA.go:92-99 | the chase-or-search outcome keeps the dimension and the bounds and takes one or two draws |
| Afsa.Behaviour | backend-go/algos/AFSA.go:79-102 | a behaviour keeps the dimension and the bounds and consumes draws only forward |
| Afsa.BehaviourCases | backend-go/algos/AFSA.go:79-102 | without neighbours the fish moves at random with one draw per dimension; in a neighbourhood more crowded than `Teta` it searches; otherwise the swarm-or-search outcome is computed and then replaced by the chase-or-search outcome |
| Afsa.Candidate | backend-go/algos/AFSA.go:77-102 | the candidate of a fish keeps the dimension and the bounds |
| Afsa.BehaviourStepsTowardNeighbor | backend-go/algos/AFSA.go:81-102 | with neighbours the candidate is always a step toward one of them by a draw of the turn (the step toward the centre is always discarded), after 2 to 4 draws, exactly 2 when crowded |
| Afsa.BehaviourChases | backend-go/algos/AFSA.go:92-95 | in a sparse neighbourhood whose first least neighbour is strictly better than the fish, the candidate is the step toward it by the turn's last draw |
| Afsa.ChaseOrSearchSteps | backend-go/algos/AFSA.go:92-99 | the chase-or-search outcome steps toward a neighbour, and toward the best neighbour by the first draw when it is strictly better |
| Afsa.SearchPicksNeighbor | backend-go/algos/AFSA.go:193-201 | a search steps toward the neighbour picked by the first draw, by the second draw |
| Afsa.Turn | backend-go/algos/AFSA.go:76-114 | a turn keeps the school's shape |
| Afsa.TurnKeepsInvariants | backend-go/algos/AFSA.go:104-114 | a turn never raises the best or the fish's value, keeps the best the value of its position, and keeps fish and best within well-ordered bounds |
| Afsa.Flight | backend-go/algos/AFSA.go:75-117 | the turns of an iteration keep the school's shape |
| Afsa.FlightStep | backend-go/algos/AFSA.go:75 | an iteration is the turn of the first fish followed by the turns of the rest |
| Afsa.FlightKeepsInvariants | backend-go/algos/AFSA.go:75-117 | over an iteration the best never rises and stays the value of its position, no fish gets worse, and fish and best stay within well-ordered bounds |
| Afsa.StreakIsTrailingRun | backend-go/algos/AFSA.go:130-136 | the stagnation count is the number of close consecutive history pairs at the end of the history: all of the last `Streak` pairs are close and the pair before them is not |
| Afsa.InfiniteBestNeverStagnates | backend-go/algos/AFSA.go:132 | a history ending in +Inf has a stagnation count of 0 |
| Afsa.Jumped | backend-go/algos/AFSA.go:138-141 | a jump keeps the school's shape, leaves the best untouched and keeps everything within well-ordered bounds |
| Afsa.MaxDifference | backend-go/algos/AFSA.go:257-265 | the loop computes the widest bound row |
| Afsa.Sums | backend-go/algos/AFSA.go:246-250 | one sum per dimension |
| Afsa.SumsStep | backend-go/algos/AFSA.go:247-249 | adding one more fish adds its coordinates to the sums |
| Afsa.RunLogged | backend-go/algos/AFSA.go:49-144 | the iterations' log, after the first snapshot, is the log of a run that stopped or crashed, with a best not above the first one |
| Afsa.ChronicleGrows | backend-go/algos/AFSA.go:119-130 | an accepted snapshot brings its best into the history; a refused one ends the run without one |
| Afsa.ChronicleStep | backend-go/algos/AFSA.go:119-130 | one more snapshot keeps the history's prefix and keeps the history a record of the accepted snapshots' bests |
| Afsa.AppendSlices | backend-go/algos/AFSA.go:130 | appending to the history extends its suffix and keeps its prefix |
| Afsa.AddRow | backend-go/algos/AFSA.go:247-249 | each sum grows by the row's coordinate |
| Afsa.School.constructor | backend-go/algos/AFSA.go:38-46 | the strategy holds the engine and its parameters, and its history starts with the initial best |
| Afsa.School.CalculateDistance | backend-go/algos/AFSA.go:236-242 | `calculateDistance` is the sum of squared differences (the caller takes the root) |
| Afsa.School.DistanceMatrix | backend-go/algos/AFSA.go:62-68 | the matrix of the population as it is before the first iteration; nothing changes |
| Afsa.School.FindNeighbors | backend-go/algos/AFSA.go:146-158 | the neighbours of fish `index` in the matrix under the current range |
| Afsa.School.Towards | backend-go/algos/AFSA.go:177-180 | a fresh vector holding the clamped step toward the target |
| Afsa.School.RandomMove | backend-go/algos/AFSA.go:160-173 | a fresh vector holding the random move of the next `N` draws; the population is untouched |
| Afsa.School.Drift | backend-go/algos/AFSA.go:164-170 | the loop computes the random move with range v |
| Afsa.School.JumpBehavior | backend-go/algos/AFSA.go:203-219 | a fresh vector holding the jump of the next `1 + N` draws |
| Afsa.School.Shake | backend-go/algos/AFSA.go:206-216 | the loop computes each jump coordinate from its own draw |
| Afsa.School.ChaseBehavior | backend-go/algos/AFSA.go:175-182 | a fresh vector stepping from fish i toward fish `jStar` by the next draw |
| Afsa.School.SwarmBehavior | backend-go/algos/AFSA.go:184-191 | a fresh vector stepping from x toward the centre by the next draw |
| Afsa.School.SearchBehavior | backend-go/algos/AFSA.go:193-201 | a fresh vector holding the search of the next two draws |
| Afsa.School.BestNeighbor | backend-go/algos/AFSA.go:221-234 | the loop answers `bestNeighbor` |
| Afsa.School.MeanPosition | backend-go/algos/AFSA.go:244-255 | a fresh vector holding the centre of the listed fish |
| Afsa.School.SumPositions | backend-go/algos/AFSA.go:246-250 | the loops compute the coordinate sums |
| Afsa.School.SwarmOrSearchStep | backend-go/algos/AFSA.go:85-90 | a fresh vector holding the swarm-or-search outcome |
| Afsa.School.ChaseOrSearchStep | backend-go/algos/AFSA.go:92-99 | a fresh vector holding the chase-or-search outcome |
| Afsa.School.Sparse | backend-go/algos/AFSA.go:85-99 | the chase-or-search outcome taken after the swarm-or-search draws |
| Afsa.School.Respond | backend-go/algos/AFSA.go:79-102 | a fresh vector holding the behaviour among the given neighbours |
| Afsa.School.Behave | backend-go/algos/AFSA.go:77-102 | a fresh vector holding the candidate of fish i |
| Afsa.School.Settle | backend-go/algos/AFSA.go:104-114 | the candidate replaces the fish exactly when strictly better than it, and becomes the best, by reference, exactly when strictly better than the best |
| Afsa.School.TakeTurn | backend-go/algos/AFSA.go:76-114 | the new state is the turn of fish i applied to the old one |
| Afsa.School.Sweep | backend-go/algos/AFSA.go:75-117 | the new state is the iteration's turns applied to the old one |
| Afsa.School.Advance | backend-go/algos/AFSA.go:73-117 | the range of iteration t, then the iteration's turns; the best never rises and stays honest and within bounds |
| Afsa.School.Replace | backend-go/algos/AFSA.go:140 | row j becomes the new position, nothing else changes |
| Afsa.School.Relocate | backend-go/algos/AFSA.go:140 | the new state is the jump of the fish drawn |
| Afsa.School.Jump | backend-go/algos/AFSA.go:139-140 | the new state is the jump of a fish drawn by `Intn` |
| Afsa.School.Record | backend-go/algos/AFSA.go:130-136 | the best joins the history and the count becomes the stagnation count of the run's history |
| Afsa.School.Unstick | backend-go/algos/AFSA.go:138-141 | past `MaxTries` a fish jumps; `Intn(0)` panics exactly when the population is empty, which needs a negative `MaxTries` |
| Afsa.School.Tally | backend-go/algos/AFSA.go:130-141 | the history entry and the count, then the jump, panicking exactly when an empty population exceeds `MaxTries` |
| Afsa.School.Turns | backend-go/algos/AFSA.go:70-128 | the turns and the snapshot extend the emission protocol |
| Afsa.School.Stride | backend-go/algos/AFSA.go:70-142 | one iteration keeps the protocol and the history's record, and stops at a refused send or at the `Intn(0)` panic |
| Afsa.School.Follow | backend-go/algos/AFSA.go:70-142 | the loop ends after the last iteration, at a refused send, or at the panic, which needs an empty population and a negative `MaxTries` |
| Afsa.School.Iterations | backend-go/algos/AFSA.go:56-142 | no iteration begins after a refused first snapshot; otherwise as the loop |
| Afsa.School.Begin | backend-go/algos/AFSA.go:50-55 | the snapshot of iteration 0 starts the protocol and changes nothing else |
| Afsa.School.Run | backend-go/algos/AFSA.go:49-144 | the log follows the emission protocol, or ends in the `Intn(0)` crash after accepted snapshots; the history records each accepted snapshot's best; the best never rises; the answer is the best position (by reference) and value |
| Afsa.NewAFSA | backend-go/algos/AFSA.go:30-47 | the engine's construction, with its errors; a visual range of fewer than two entries panics; otherwise `MaxTries` 5, `Eta` 1e-4 and `Teta` 1 unless given, the visual bounds from the request, and a history holding the initial best |
| AfsaWorker.MaxRange | backend/workers/afsaWorker.js:151 | the widest bound row: no row is wider and some row is exactly that wide (no floor at 0, unlike Go) |
| AfsaWorker.MaxRangeAgainstGo | backend/workers/afsaWorker.js:151 | Go's widest row equals the worker's when that is positive and is 0 otherwise |
| AfsaWorker.Roam | backend/workers/afsaWorker.js:158-162 | the random move yields a position of the same dimension |
| AfsaWorker.RoamNear | backend/workers/afsaWorker.js:160-161 | one coordinate of a random move stays in its bounds and moves by at most the cap |
| AfsaWorker.RoamStaysNear | backend/workers/afsaWorker.js:158-162 | on ordered bounds the random move stays in the box, and every coordinate moves by at most the smaller of the visual reach and the width of the FIRST bound row |
| AfsaWorker.JoltsAgree | backend/workers/afsaWorker.js:180-184 | one coordinate of the worker's jump equals Go's on ordered bounds |
| AfsaWorker.StepsAgree | backend/workers/afsaWorker.js:166 | the worker's `Math.min(Math.max(...))` clamp of a step toward a target equals Go's on ordered bounds |
| AfsaWorker.Hop | backend/workers/afsaWorker.js:180-184 | the jump yields a position of the same dimension |
| AfsaWorker.HopAgainstGo | backend/workers/afsaWorker.js:180-184 | on ordered bounds the worker's jump is Go's `Leap` from the same stream position |
| AfsaWorker.Approach | backend/workers/afsaWorker.js:164-178 | a move toward a target has the same dimension and stays in ordered bounds |
| AfsaWorker.ApproachAgainstGo | backend/workers/afsaWorker.js:164-178 | on ordered bounds the worker's move toward a target is Go's |
| AfsaWorker.Search | backend/workers/afsaWorker.js:174-178 | the search move keeps the dimension and takes exactly two draws |
| AfsaWorker.SearchAgainstGo | backend/workers/afsaWorker.js:174-178 | on ordered bounds the worker's search is Go's search from the same stream position |
| AfsaWorker.MinOfIsLeast | backend/workers/afsaWorker.js:189 | `Math.min` is NaN exactly when some value is NaN; otherwise no value is below it and, for a non-empty list, it is one of the values |
| AfsaWorker.IndexOfFindsFirst | backend/workers/afsaWorker.js:189 | `indexOf` is -1 exactly when no entry is strictly equal, and otherwise the first strictly equal entry |
| AfsaWorker.IndexOf | backend/workers/afsaWorker.js:189 | `indexOf` is -1 or a valid index |
| AfsaWorker.BestNeighbor | backend/workers/afsaWorker.js:186-190 | `null` exactly for no neighbours; a chosen fish is one of the neighbours |
| AfsaWorker.BestNeighborAgainstGo | backend/workers/afsaWorker.js:186-190 | the lookup fails (an `undefined` index) exactly when some neighbour's value is NaN; otherwise it picks Go's best neighbour |
| AfsaWorker.Sparse | backend/workers/afsaWorker.js:78-83 | the swarm-or-search move keeps the dimension and consumes draws |
| AfsaWorker.SparseAgainstGo | backend/workers/afsaWorker.js:78-83 | on ordered bounds the worker's swarm-or-search is Go's |
| AfsaWorker.Chase | backend/workers/afsaWorker.js:86-94 | the chase-or-search override keeps the dimension and consumes draws |
| AfsaWorker.Behaviour | backend/workers/afsaWorker.js:71-95 | a candidate has the fish's dimension and never rewinds the stream |
| AfsaWorker.BehaviourThrows | backend/workers/afsaWorker.js:71-95 | the turn throws exactly when there are neighbours and one of them evaluates to NaN; otherwise a candidate from a fish in ordered bounds stays in them |
| AfsaWorker.BehaviourChases | backend/workers/afsaWorker.js:71-95 | when the best neighbour is strictly better the candidate is the chase by the last draw, even in a crowded neighbourhood, where the discarded search took two draws before it |
| AfsaWorker.BehaviourAgainstGo | backend/workers/afsaWorker.js:71-95 | with neighbours, no NaN among them, ordered bounds and an uncrowded neighbourhood, the worker's candidate and stream position are Go's |
| AfsaWorker.Turn | backend/workers/afsaWorker.js:67-112 | a turn keeps the population's shape |
| AfsaWorker.Flight | backend/workers/afsaWorker.js:67-113 | the turns of all fish keep the population's shape |
| AfsaWorker.SettledKeeps | backend/workers/afsaWorker.js:98-111 | accepting a candidate never raises the best or any fish's value, and keeps the best's value its position's value |
| AfsaWorker.TurnKeeps | backend/workers/afsaWorker.js:67-112 | a turn that does not throw never raises the best or any fish's value and keeps the best honest |
| AfsaWorker.FlightKeepsInvariants | backend/workers/afsaWorker.js:67-113 | the same over all fish of one iteration |
| AfsaWorker.Jumped | backend/workers/afsaWorker.js:126-129 | the jump keeps the population's shape and leaves the best untouched |
| AfsaWorker.JumpedAgainstGo | backend/workers/afsaWorker.js:126-129 | on ordered bounds the worker's jump of a drawn fish is Go's |
| AfsaWorker.Iteration | backend/workers/afsaWorker.js:61-130 | an iteration that does not throw keeps the population's shape and a non-empty history |
| AfsaWorker.DescendingPairwise | backend/workers/afsaWorker.js:115 | a history whose neighbours never rise never rises between any two entries |
| AfsaWorker.IterationKeeps | backend/workers/afsaWorker.js:61-130 | an iteration appends the new best to the history, never raises the best, keeps the stagnation count equal to the length of the closing run of the history since the start, and keeps the best honest |
| AfsaWorker.StreakGrows | backend/workers/afsaWorker.js:119-124 | the count update (`t > 0` and a change below `eta`, or reset) is the closing streak of the extended history |
| AfsaWorker.DescendingGrows | backend/workers/afsaWorker.js:115 | appending a value not above the last keeps the history non-rising |
| AfsaWorker.IterationAppends | backend/workers/afsaWorker.js:115 | an iteration appends exactly the new best to the history |
| AfsaWorker.IterationStreaks | backend/workers/afsaWorker.js:61-130 | an iteration carries the stagnation-count invariant from `t` to `t + 1` |
| AfsaWorker.IterationDescends | backend/workers/afsaWorker.js:61-130 | an iteration keeps the history's last entry the best and the history non-rising |
| AfsaWorker.RunsPreserve | backend/workers/afsaWorker.js:61-130 | any property an iteration carries forward holds after all iterations |
| AfsaWorker.RunsStreak | backend/workers/afsaWorker.js:56-130 | after the loop the stagnation count is the closing streak of the history |
| AfsaWorker.RunsLength | backend/workers/afsaWorker.js:61-130 | a run that does not throw adds one history entry per iteration (none for a non-positive `maxIter`) |
| AfsaWorker.RunsPrefix | backend/workers/afsaWorker.js:115 | the loop only appends to the history |
| AfsaWorker.RunsStayCurrent | backend/workers/afsaWorker.js:115 | after the loop the history's last entry is the best |
| AfsaWorker.RunsDescend | backend/workers/afsaWorker.js:61-130 | the history never rises over the whole run |
| AfsaWorker.RunsStayHonest | backend/workers/afsaWorker.js:61-130 | the reported best value is the objective at the reported best position |
| AfsaWorker.InitialBest | backend/workers/afsaWorker.js:34-40 | the strict-`<` reduce seeded with member 0 picks a member that no member is strictly below, the first with its value; it stays member 0 exactly when nothing is strictly below member 0, so always when member 0 is NaN |
| AfsaWorker.Worker.constructor | backend/workers/afsaWorker.js:14-41 | the fields are the arguments, the best is the reduce's pick and its value, and the history holds that value |
| AfsaWorker.Worker.DistanceMatrix | backend/workers/afsaWorker.js:135-144 | the matrix is the distance between every pair of fish |
| AfsaWorker.Worker.DistanceRow | backend/workers/afsaWorker.js:138-141 | one row of the matrix |
| AfsaWorker.Worker.TakeTurn | backend/workers/afsaWorker.js:67-112 | the turn throws exactly when the specification's turn fails, and otherwise leaves the state it describes |
| AfsaWorker.Worker.Offer | backend/workers/afsaWorker.js:98-111 | the fish takes a strictly better candidate, and the best takes a candidate strictly below it, as Go's `Settled` |
| AfsaWorker.Worker.Sweep | backend/workers/afsaWorker.js:67-113 | all turns of one iteration, throwing exactly when the specification's sweep fails |
| AfsaWorker.Worker.Jump | backend/workers/afsaWorker.js:127-128 | a fish drawn from the stream is replaced by its jump |
| AfsaWorker.Worker.Iterate | backend/workers/afsaWorker.js:61-130 | one iteration, as the specification's `Iteration` |
| AfsaWorker.Worker.Conclude | backend/workers/afsaWorker.js:115-129 | the history gains the best; the count grows after the first iteration when the change is below `eta` and resets otherwise; a count above `maxTryNum` jumps a drawn fish |
| AfsaWorker.Worker.Run | backend/workers/afsaWorker.js:53-133 | the run is the specification's loop over the distance matrix of the INITIAL population; it throws exactly when that loop fails, and returns the best position and value |
| AfsaWorker.Worker.Iterations | backend/workers/afsaWorker.js:61-130 | the loop of iterations, as the specification's `Runs` |
| AfsaWorker.Distances | backend/workers/afsaWorker.js:135-148 | the matrix is square over the population |
| AfsaWorker.NewWorker | backend/workers/afsaWorker.js:6-42 | defaults of 50 fish, `maxTryNum` 5, `eta` 1e-4, visual [1, 8], `teta` 1 and bounds [-100, 100]; no worker (the reduce throws) exactly for an empty population; a sampled population takes one draw per coordinate; the best is the reduce's pick and the history holds its value |
| Abc.Factor | backend-go/algos/ABC.go:122 | the mutation factor `Float64()*2 - 1` lies in [-1, 1) |
| Abc.MutationTouchesOneCoordinate | backend-go/algos/ABC.go:118-125 | a mutation keeps the dimension, changes only coordinate `s`, puts it at or above its minimum and, on an ordered bound, at or below its maximum, so a member within bounds stays within them |
| Abc.TotalExtends | backend-go/algos/ABC.go:128-131 | the fitness sum grows by one IEEE addition per forager |
| Abc.RouletteIsFirstReaching | backend-go/algos/ABC.go:127-142 | the selection is the first forager whose running sum reaches the threshold `Float64() * sum`, and forager 0 when none does (NaN sums included) |
| Abc.FirstReachingFrom | backend-go/algos/ABC.go:134-141 | the scan from forager `i` finds the first index whose running sum reaches the threshold, or falls back to 0 |
| Abc.TotalOfNonNegative | backend-go/algos/ABC.go:128-131 | finite non-negative fitness values have a finite non-negative sum that bounds every running sum |
| Abc.NonNegativeValuesAlwaysSelect | backend-go/algos/ABC.go:127-142 | with finite non-negative fitness values some forager always reaches the threshold, so the fallback `return 0` is never the answer by default |
| Abc.FractionNotAbove | backend-go/algos/ABC.go:133 | the threshold never exceeds a finite non-negative sum |
| Abc.DefaultSplit | backend-go/algos/ABC.go:29-30 | with the default split foragers never outnumber observers, every member has a role, and there are two foragers to pair exactly when the population has at least four members |
| Abc.AllSoundExtends | backend-go/algos/ABC.go:72-86 | a sound exploitation appended to sound ones (in forager order for the forager phase) keeps the record sound |
| Abc.LatestIsLastTaken | backend-go/algos/ABC.go:98-101 | a forager's row after the observer phase is the candidate of its last accepted exploitation, or unchanged when none was accepted |
| Abc.CopyInto | backend-go/algos/ABC.go:156 | Go's `copy`: the destination keeps its length and receives the source's prefix, keeping its own tail when the source is shorter; a nil destination is left alone |
| Abc.Colony.constructor | backend-go/algos/ABC.go:32-38 | the colony keeps the engine, limit and forager count, observes with the rest, and has one zero trial counter per member |
| Abc.Colony.UpdateGlobalBest | backend-go/algos/ABC.go:152-158 | a strictly lower value is taken and the row is copied into the best buffer, so a population row that shares that buffer takes the same contents; otherwise nothing changes; the best never rises |
| Abc.Colony.Mutate | backend-go/algos/ABC.go:118-125 | a fresh candidate from two draws: the coordinate `Intn(N)` and the factor, applied to the source |
| Abc.Colony.Partner | backend-go/algos/ABC.go:73-76 | the partner is another forager, the last draw of the loop, after draws that all hit the forager itself |
| Abc.Colony.Propose | backend-go/algos/ABC.go:73-77 | a fresh candidate mutated from the forager and its partner, with the draws it took; within ordered bounds it stays within them |
| Abc.Colony.Settle | backend-go/algos/ABC.go:79-85 | the candidate replaces the row exactly when strictly better and resets its counter; otherwise the counter grows by one; no other row or counter changes; the best never rises |
| Abc.Colony.Exploit | backend-go/algos/ABC.go:73-85 | one exploitation of forager `j`: partner, coordinate and factor from the stream, acceptance exactly on strict improvement, counter reset or raised, other rows untouched except through the shared best buffer |
| Abc.Colony.Forage | backend-go/algos/ABC.go:72-86 | one more turn of the forager loop extends the record of exploitations in order |
| Abc.Colony.ForagerPhase | backend-go/algos/ABC.go:71-87 | forager `i` is exploited once, in order; each row ends as its accepted candidate (counter 0) or unchanged (counter + 1); observers' rows and counters are untouched; the best never rises; bounds are kept |
| Abc.Colony.ObserveNext | backend-go/algos/ABC.go:90-105 | one more observer turn extends the record of exploitations |
| Abc.Colony.Observe | backend-go/algos/ABC.go:91-104 | the observer exploits the forager chosen by the roulette over the current fitness values, with the forager phase's acceptance rule |
| Abc.Colony.ObserverPhase | backend-go/algos/ABC.go:89-106 | one exploitation per observer; every forager's row is its last accepted candidate (counter 0 plus later rejections) or unchanged (counter plus its rejections); observers' rows are untouched; the best never rises |
| Abc.Colony.ForagerValues | backend-go/algos/ABC.go:129-131 | one fitness value per forager |
| Abc.Colony.SumFitness | backend-go/algos/ABC.go:128-131 | the sum is the IEEE running total of the foragers' values |
| Abc.Colony.SelectForager | backend-go/algos/ABC.go:127-142 | one draw, and the roulette's choice for it: a forager, or 0 |
| Abc.Colony.FirstToReach | backend-go/algos/ABC.go:134-141 | the scan returns the first forager reaching the threshold, or 0 |
| Abc.Colony.ScoutPhase | backend-go/algos/ABC.go:108-116 | exactly the foragers whose counter exceeds the limit get a fresh random row and a zero counter; no one else changes; the best never rises |
| Abc.Colony.Scout | backend-go/algos/ABC.go:110-113 | the member gets a fresh row sampled uniformly within bounds from the stream and a zero counter |
| Abc.Colony.Install | backend-go/algos/ABC.go:80-82 | a row is placed, its counter reset, and the best updated from it |
| Abc.Colony.Iterate | backend-go/algos/ABC.go:53-55 | one sound exploitation record per forager, then one per observer, in order; observers' own rows and counters untouched; after the scouts no forager's counter is above the limit; the best never rises and members stay within ordered bounds |
| Abc.Colony.Round | backend-go/algos/ABC.go:52-66 | an iteration and its snapshot extend the log by one entry that carries the best value, following the emission protocol |
| Abc.Colony.Launch | backend-go/algos/ABC.go:52-55 | the first iteration hangs exactly for a single forager and panics exactly for `Intn(0)`: no foragers but observers, or foragers without a dimension |
| Abc.Colony.Run | backend-go/algos/ABC.go:41-69 | after an accepted first snapshot, the run hangs exactly for one forager and panics exactly in `Intn(0)`, having sent only that snapshot; otherwise the log follows the emission protocol and its last entry carries the returned best; the best never rises and bounds are kept |
| Abc.Colony.Proceed | backend-go/algos/ABC.go:52-68 | after the first snapshot: a hang exactly for one forager and a panic exactly in `Intn(0)` when that snapshot was accepted and an iteration is due, with only that snapshot logged; otherwise the emission protocol, its last entry carrying the best |
| Abc.Colony.Iterations | backend-go/algos/ABC.go:52-66 | the loop stops after the last iteration or at the first refused snapshot, never raising the best |
| Abc.NewABC | backend-go/algos/ABC.go:23-39 | the engine's construction, with its errors; then `P / 2` foragers and a limit of `P * N / 2` unless given, the rest as observers, and zero counters |

## Left out

- Formula compilation and evaluation (`ConvertMathExpressionToFunc`, Algo.go:132-173, through the `expr` library, and mathjs in the worker) are foreign code: the objective is a function parameter of type `seq<real> -> Value`, `NewAlgo` takes the compile result as an `Option`, and `Values.Evaluate` states the closure's rules for a float result (a wrong arity or a runtime error gives NaN, a NaN output becomes +Inf).
- Values.Evaluate: a formula whose result is not a float64 (an integer constant such as `1` or `1 + 1`, or a comparison such as `x > y`) makes the unchecked `output.(float64)` assertion at Algo.go:168 and Algo.go:171 panic, so the first scan in `NewAlgo` panics; the model's `ExprOutcome` carries only float results, so this panic is not modelled.
- The generators themselves (the clock-seeded mt19937 source of Algo.go:86-92, `math/rand`, `seedrandom`, and `Math.random` when the worker gets no seed) are not modelled: the draws are a stream of uniforms in [0, 1) given as a parameter, and `Random.Rng` only tracks the position.
- Random.IntDraw: Go's `Intn` rejection-samples on 31- or 63-bit integers and `Float64` redraws a result that rounds to 1; the model takes exactly one uniform per `Intn` and per `Float64`, so the stream positions at which the Go strategies read their draws (AFSA's search and jump, ABC's partner and coordinate, SFLA's shuffle) are a modelling choice, not mt19937's actual sequence.
- float64 rounding, overflow and subnormals: finite results are exact reals; infinities and NaN are kept only where comparisons and sums can meet them (`Values.Value`).
- `math.Sqrt`, `math.Exp`, `math.Pow` and `Math.sqrt`/`Math.pow` are uninterpreted functions held in a `Metric.Math` value (squares included); nothing about convergence or closeness to a minimum is claimed.
- The websocket `send` callback is a `Sink` that accepts or refuses each snapshot by index; the connection, its goroutine and channel, and the worker's `postMessage` are not modelled, and the worker's run is modelled without its messages (its history and final answer are).
- The `fmt.Println` diagnostics of the Go code and the worker's `console.log` are not modelled.
- Go panics (index out of range, nil dereference, `Intn(0)`) are modelled as a `panicked` (or `Panicked` error) outcome whose other results carry no meaning; the Go call never returns them.
- Abc.Colony.Run: a forager count above the population size, which indexes past the population at ABC.go:77, is excluded by its precondition rather than modelled as a panic; so is a stream on which the partner loop of two or more foragers never ends (`Random.Fair`), whose probability is 0.
- Abc.Colony.Iterate: states the records of the forager and observer phases, the frame on the observers and the scouts' outcome on the counters, not the population and best after the three phases composed into one function of the state before.
- Abc.Colony.ObserverPhase: the counter of a forager is stated through the rejections recorded after its last accepted exploitation, not through a closed count of the observer draws.
- Engine.Algo.Shaped: every strategy's `Run` requires it, and `NewAlgo` establishes it only for a sampled population; an explicit population whose rows after the first have another length (Algo.go:61, 69, 116-119), or request bounds that do not cover the dimension count, are accepted by Go and make it panic or misbehave later, but are outside the model's preconditions.
- Afsa.School.Valid: adds that every bound row has two entries (`Paired`), which Go assumes without checking.
- AfsaWorker.NewWorker: requires at least one dimension, a visual range of at least two entries, bounds that cover the dimensions with paired rows, and an explicit population of equal-length rows; JavaScript checks none of these and computes with `undefined` and NaN instead.
- AfsaWorker.Worker.Valid: the same shape facts as `NewWorker` requires, held by every method.
- Sfla.Frogs.LocalSearch: states the frame (only the memeplex's rows change), the unchanged best and the bounds invariant, but not the contents of the leaped rows; one leap's contents are stated by `Sfla.Frogs.MoveWorst` and `Sfla.Leap`.
- Sfla.Frogs.Sweep: states that the best never rises and the bounds survive, not the contents of the rows after all memeplexes.
- Sfla.Frogs.Advance: as `Sweep`, followed by a shuffle stated by `Sfla.Frogs.Shuffle`.
- Gwo.Pack.Iterate: keeps only the shape, the panic condition and the bounds of `Gwo.Pack.Advance`, which states the full new state.
- No strategy's constructor ensures its class's `Valid()`: `Valid` follows from `Populated` only when the population was sampled, for the reason under `Engine.Algo.Shaped`.
- The Go handlers, the websocket server, the Node server, the test harnesses and the rest of the front end (configurations, storage, routing, `getColorForHeight`, `createLabelDiv`) are outside the modelled core.
