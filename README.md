# splan: a genetic-algorithm school timetabler, modelled in Dafny

splan assigns each class of a school a teacher, a room and a time slot,
using a genetic algorithm. A candidate timetable (a *chromosome*) holds one
*gene* per class. Its *fitness* is 0 minus penalties:

- 20 for every ordered pair of distinct classes in overlapping slots that
  share a teacher ID;
- 20 for every such pair that shares a room ID;
- 1 for each class whose teacher is not qualified for its subject;
- 1 for each class whose room is too small;
- 1 for each class whose teacher is not available that weekday.

The driver builds a random initial population. Each generation then:

- breeds a new population by tournament selection, single-point crossover
  and per-gene mutation;
- scans the new population for its best score;
- commits every improvement on the all-time best to a shared
  best-timetable record.

The run stops after a fixed number of generations, or after the first
generation that contains a timetable scoring 0.

The model has four modules:

- `Domain` (`domain.dfy`) holds the catalogs and the constraint checks.
  The catalogs are teachers, rooms and weekday time slots (minutes since
  midnight).
- `FitnessEvaluator` (`fitness.dfy`) has two parts:
  - the fitness function, stated recursively, and the imperative double
    loop proved equal to it;
  - lemmas about that function: it is 0 exactly for a feasible timetable,
    every conflict is charged twice, and it has lower bounds.
- `Operators` (`operators.dfy`) holds random initialisation, crossover,
  mutation, tournament selection and the creation of a new generation.
  Each is a loop proved against a specification function, with lemmas
  about those functions.
- `Driver` (`driver.dfy`) holds:
  - the `BestTimetable` record, a class whose fields the driver updates;
  - the initial population;
  - the scan of one generation;
  - the generation loop `Evolve`, with its invariants: the recorded best
    never decreases, bounds every score of its generation, and is the
    exact score of the timetable the record holds.

All randomness is passed in as explicit draws:

- `Pick` (teacher, room, slot) for each class of a random timetable;
- `MutationDraw` (mutate?, which field, new index) for each gene;
- the tournament's sampled population indices;
- the crossover cuts;
- `Round`, which bundles the draws of one breeding step;
- `schedule`, the rounds of each generation.

Each draw is required to lie in the range `rand.Intn` would give. A gene
stores catalog indices, so "the same `*TimeSlot` pointer" becomes "the same
slot index". Teachers and rooms are compared by ID, as in the code.

Two choices of the code that the model keeps as written:

- Each `crossover` call draws its own cut, so the two children of a pair
  may be cut at different points. A `Round` therefore carries two cuts.
- The conflict weight is the hardcoded constant 20 (`ConflictPenalty`),
  not a parameter.

## Model

| member | source | states |
|---|---|---|
| Domain.TimeSlotsOverlap | main.go:40-43 | for proper slots, the result is true exactly when both are on the same weekday and some minute lies inside both |
| Domain.TimeSlotsOverlapSymmetric | main.go:42 | the overlap test gives the same answer with its arguments swapped |
| Domain.Contains | main.go:47-54 | the early-exit linear search finds x exactly when x occurs in the list |
| Domain.CheckTeacherAvailability | main.go:45-55 | true exactly when the slot's weekday is among the teacher's available days; no hour-level check |
| Domain.CheckRoomAvailability | main.go:57-66 | true exactly when no gene uses a room with the same ID in this very slot |
| Domain.CheckTeacherQualification | main.go:73-81 | true exactly when the subject is among the teacher's subjects |
| FitnessEvaluator.Clashes | main.go:126-135 | one ordered pair of genes costs at most 2 conflicts, one per shared resource (teacher, room) |
| FitnessEvaluator.ClashesSymmetric | main.go:126-135 | a pair clashes as often in one order as in the other |
| FitnessEvaluator.Defects | main.go:138-148 | a gene has at most 3 defects, and none exactly when its teacher is qualified, its room is large enough (checkRoomCapacity, main.go:69-71) and its teacher is available that day |
| FitnessEvaluator.Fitness | main.go:120-152 | the score is never positive |
| FitnessEvaluator.CalculateFitness | main.go:119-152 | the double loop over ordered pairs, followed by the per-gene checks, returns exactly Fitness |
| FitnessEvaluator.RowClashesZero | main.go:125-135 | gene i's inner loop costs nothing exactly when it clashes with no other gene seen |
| FitnessEvaluator.OrderedClashesZero | main.go:124-136 | the pair loop costs nothing exactly when no two distinct genes clash |
| FitnessEvaluator.TotalDefectsZero | main.go:138-148 | the per-gene checks cost nothing exactly when every gene is defect-free |
| FitnessEvaluator.FitnessZeroIffFeasible | main.go:120-152 | a timetable scores 0 exactly when it is feasible: no teacher or room conflict between distinct classes, and every class qualified, fitting and available |
| FitnessEvaluator.ColumnIsRow | main.go:124-136 | the conflicts charged to gene j as second partner equal those charged to it as first partner |
| FitnessEvaluator.WidenRows | main.go:124-136 | extending the inner loop by one column adds exactly that column's conflicts |
| FitnessEvaluator.OrderedIsTwiceUnordered | main.go:124-136 | the ordered-pair count is twice the count over unordered pairs |
| FitnessEvaluator.FitnessCountsEachConflictTwice | main.go:124-136 | fitness is -(40 per unordered conflict + defects), so its conflict part is a multiple of 40 |
| FitnessEvaluator.RowClashesBound | main.go:125-135 | one gene's inner loop over m partners costs at most 2m conflicts |
| FitnessEvaluator.UnorderedClashesBound | main.go:124-136 | n genes have at most n(n-1) unordered conflicts |
| FitnessEvaluator.TotalDefectsBound | main.go:138-148 | n genes have at most 3n defects |
| FitnessEvaluator.FitnessLowerBound | main.go:120-152 | a timetable of n classes scores at least -(40 n(n-1) + 3n) |
| FitnessEvaluator.RowHasClash | main.go:125-135 | gene i's inner loop over the first m partners is charged at least its clashes with any one of them |
| FitnessEvaluator.UnorderedHasRow | main.go:124-136 | the unordered conflict count includes every gene's row |
| FitnessEvaluator.ConflictCostsTwice | main.go:124-136 | one teacher or room conflict between two distinct classes in overlapping slots costs the timetable at least 40 |
| Operators.InitializeRandomTimetable | main.go:95-117 | one gene per class, in class order, with the class's subject and capacity and the drawn teacher, room and slot |
| Operators.Splice | main.go:194-208 | the child is as long as parent1 |
| Operators.SpliceGenes | main.go:199-205 | child gene i is parent1's before the cut and parent2's from the cut on |
| Operators.Crossover | main.go:194-208 | the crossover loop builds exactly Splice of the two parents at the cut |
| Operators.SpliceKeepsShape | main.go:194-208 | crossing two timetables of the same classes gives a timetable of those classes on the catalog |
| Operators.MutateGene | main.go:212-225 | a gene keeps its class and stays on the catalog; when selected, exactly the chosen field (0 teacher, 1 room, 2 slot) becomes the drawn catalog entry and the other two are kept; when not selected it is unchanged |
| Operators.Mutated | main.go:210-227 | mutation keeps the chromosome's length |
| Operators.Mutate | main.go:210-227 | the mutation loop computes exactly Mutated |
| Operators.MutatedKeepsShape | main.go:210-227 | mutation keeps a timetable a timetable of the same classes on the catalog |
| Operators.NoMutationAtRateZero | main.go:213 | when no draw falls below the mutation rate, the chromosome comes back unchanged |
| Operators.PopulationScores | main.go:161 | there is one score per member |
| Operators.PopulationScoresAt | main.go:161 | member k's score is its fitness |
| Operators.Winner | main.go:162-165 | the winner is a position of the tournament |
| Operators.WinnerIsFirstBest | main.go:155-168 | the strict `>` keeps the earliest of the highest scores, and that is the only such position |
| Operators.TournamentSelection | main.go:154-168 | the selection loop, with its -1/-1000 start, returns the tournament winner |
| Operators.TournamentIsFirstFittest | main.go:154-168 | the selected timetable is the earliest sample whose fitness is maximal among the samples |
| Operators.RoundCount | main.go:174 | the loop `i += 2` runs ceil(size/2) times, and none for a size of at most 0 |
| Operators.Child | main.go:176-184 | a child has as many genes as there are classes |
| Operators.ChildKeepsShape | main.go:176-184 | both mutated children of a step are timetables of the classes on the catalog |
| Operators.Offspring | main.go:174-189 | the breeding steps produce two children each |
| Operators.OffspringAt | main.go:174-189 | children 2t and 2t+1 are step t's mutated crossovers (parent1, parent2) and (parent2, parent1) |
| Operators.Breed | main.go:175-184 | one step's two tournaments, two crossovers and two mutations give exactly children 2t and 2t+1 |
| Operators.CreateNewGeneration | main.go:170-192 | the new generation has exactly populationSize members (0 when that is not positive, dropping the surplus second child) and is the prefix of the bred children |
| Operators.OffspringKeepsShape | main.go:174-189 | every bred child is a timetable of the classes on the catalog |
| Driver.BestTimetable.constructor | main.go:400 | the zero record holds no timetable and the score 0 |
| Driver.BestTimetable.Commit | main.go:422-425 | the timetable and its score are replaced together |
| Driver.InitialPopulation | main.go:372-379 | for a non-negative size (a negative capacity panics in the allocation), populationSize random timetables, member k built from draws k, all timetables of the classes on the catalog |
| Driver.PerfectIsWinner | main.go:426-428 | a member scoring 0, with only negative scores before it, is the generation's first best, so breaking there misses nothing |
| Driver.PopulationScoresNonPositive | main.go:411-413 | no member of a population scores above 0 |
| Driver.ScanGeneration | main.go:408-431 | the generation's best bounds every score and, once it beats the floor, is its highest score (otherwise it stays the floor); the all-time best becomes the larger of the two; on improvement the record holds the first member with the highest score, otherwise it is unchanged |
| Driver.NextGenerationWellFormed | main.go:405 | the new generation consists of timetables of the classes on the catalog |
| Driver.RunGeneration | main.go:403-431 | the new generation is well-formed; the generation's best bounds every score and, once it beats the floor, is the score of its first best member; the all-time best becomes the larger of the two; on improvement the record holds that first best member with exactly the all-time best score, otherwise it is unchanged |
| Driver.Evolve | main.go:398-435 | at most numGenerations generations, ending early only at a best of 0; the all-time best never decreases, bounds every score of its generation and stays negative before the last; the record holds a member of some scanned generation scoring exactly that best, or stays empty |

## Left out

- The fixture data (teachers, rooms, time slots, classes; main.go:231-367) is not modelled. The model takes any catalog and class list as parameters.
- The random seed (main.go:370) and every draw from `math/rand` are inputs.
- The floating-point test `rand.Float64() < mutationRate` is modelled by the draw's `mutate` flag. The mutation rate itself is not modelled.
- Printing (main.go:381-389, 421 and 437), the HTML table with its per-day sort (main.go:439-475) and the file output (main.go:478-489) are I/O, so they are not modelled.
- The `sync.Mutex` in `BestTimetable` is not modelled, because the program is single-threaded. `Commit` models the locked write as one step.
- The model works on values, not pointers. Go's `mutate` writes through `*Class` pointers that crossover shares between parents, children, later generations and the stored best timetable. The model does not capture that aliasing.
- Driver.RunGeneration: states only that the new generation is well-formed, and not how it was bred. That relation is stated by Operators.CreateNewGeneration, which RunGeneration calls.
- Driver.Evolve: likewise states no breeding relation between consecutive generations.
- Driver.Evolve: "the record's score is the stored timetable's fitness" holds only in this value model. In Go, later mutations can alter the stored genes through shared pointers.
- The unused `classes` parameter of `calculateFitness` and `TournamentSelection` is dropped.
- FitnessEvaluator.Fitness: integers are unbounded, so Go's 64-bit `int` overflow is not modelled. It is unreachable for realistic sizes.
- `time.Time` slot bounds are modelled as minutes since midnight. Only `Before` on same-day times is used.
- Domain.CheckRoomCapacity has no contract of its own. Its meaning is stated by FitnessEvaluator.Defects.
- Operators.Crossover: requires a non-empty parent1 and a parent2 at least as long, because `rand.Intn(0)` panics and a shorter parent2 is indexed out of range.
- Driver.InitialPopulation / Driver.Evolve: require a non-negative populationSize, because `make([]Chromosome, 0, populationSize)` (main.go:375) panics on a negative capacity; that panic is not modelled.
- Operators.TournamentSelection: requires a tournament of at least one sample and a non-empty population. Otherwise the code indexes `population.Timetables[-1]` or `rand.Intn(0)` panics.
