/** The generational driver: the initial population, the record of the best
    timetable found so far, the scan of each new generation and the loop
    that runs the generations until one reaches a perfect score. */
module Driver {
  import opened Domain
  import opened FitnessEvaluator
  import opened Operators

  /** The starting value of both the all-time and the per-generation best. */
  const Floor := -100000000

  /** How many chromosomes a loop `for i := 0; i < size; i++` produces. */
  function PopulationCount(populationSize: int): nat {
    if populationSize <= 0 then 0 else populationSize
  }

  /** Every member has one gene per class, in class order, and draws on the
      catalog. */
  predicate WellFormed(cat: Catalog, classes: seq<ClassSpec>, population: seq<Chromosome>) {
    PopulationInCatalog(cat, population) && SameLength(population, |classes|) &&
    forall k | 0 <= k < |population| :: Follows(population[k], classes)
  }

  /** BestTimetable: the best timetable committed so far and its score. A
      fresh record holds the empty timetable and the score 0. */
  class BestTimetable {
    var timetable: Chromosome
    var fitnessScore: int

    constructor()
      ensures timetable == [] && fitnessScore == 0
    {
      timetable := [];
      fitnessScore := 0;
    }

    /** The locked write of a new best: both fields are replaced together. */
    method Commit(t: Chromosome, score: int)
      modifies this
      ensures timetable == t && fitnessScore == score
    {
      timetable := t;
      fitnessScore := score;
    }
  }

  /** The initial population: populationSize random timetables, member k
      built from the draws picks[k]. A negative size is refused, as the
      slice allocation with that capacity panics. */
  method InitialPopulation(classes: seq<ClassSpec>, cat: Catalog, populationSize: int, picks: seq<seq<Pick>>)
    returns (population: seq<Chromosome>)
    requires populationSize >= 0
    requires |picks| == PopulationCount(populationSize)
    requires forall k | 0 <= k < |picks| ::
               |picks[k]| == |classes| && forall i | 0 <= i < |classes| :: PickInCatalog(cat, picks[k][i])
    ensures |population| == PopulationCount(populationSize)
    ensures WellFormed(cat, classes, population)
    ensures forall k, i | 0 <= k < |population| && 0 <= i < |classes| ::
              population[k][i].teacher == picks[k][i].teacher && population[k][i].room == picks[k][i].room &&
              population[k][i].slot == picks[k][i].slot
  {
    population := [];
    var i := 0;
    while i < populationSize
      invariant 0 <= i <= |picks| && |population| == i
      invariant WellFormed(cat, classes, population)
      invariant forall k, g | 0 <= k < i && 0 <= g < |classes| ::
                  population[k][g].teacher == picks[k][g].teacher && population[k][g].room == picks[k][g].room &&
                  population[k][g].slot == picks[k][g].slot
    {
      var timetable := InitializeRandomTimetable(classes, cat, picks[i]);
      population := population + [timetable];
      i := i + 1;
    }
  }

  /** A perfect score is the best any member can have: the member holding it
      first is the one a first-best scan keeps. */
  lemma {:induction false} PerfectIsWinner(scores: seq<int>, w: nat)
    requires w < |scores| && scores[w] == 0
    requires forall k | 0 <= k < |scores| :: scores[k] <= 0
    requires forall k | 0 <= k < w :: scores[k] < 0
    ensures Winner(scores) == w
  {
    WinnerIsFirstBest(scores);
  }

  /** Every score of a population is at most 0. */
  lemma PopulationScoresNonPositive(cat: Catalog, population: seq<Chromosome>)
    requires PopulationInCatalog(cat, population)
    ensures forall k | 0 <= k < |population| :: PopulationScores(cat, population)[k] <= 0
  {
    forall k | 0 <= k < |population|
      ensures PopulationScores(cat, population)[k] <= 0
    {
      PopulationScoresAt(cat, population, k);
    }
  }

  /** The scan of one new generation. The generation's best starts at the
      floor and rises on every strictly better member; when such a member
      also beats the all-time best, the record takes it. A member scoring 0
      that beats the all-time best ends the scan, as nothing can beat it.
      The result: the generation's best is its highest score (or the floor
      when no member beats the floor), the all-time best is the larger of
      the two, and on improvement the record holds the first member with
      the highest score. */
  method ScanGeneration(cat: Catalog, population: seq<Chromosome>, bestSoFar: int, record: BestTimetable)
    returns (bestInGeneration: int, bestAll: int)
    requires PopulationInCatalog(cat, population)
    requires bestSoFar >= Floor
    modifies record
    ensures Floor <= bestInGeneration <= 0
    ensures forall k | 0 <= k < |population| :: PopulationScores(cat, population)[k] <= bestInGeneration
    ensures bestInGeneration > Floor ==>
              |population| >= 1 &&
              bestInGeneration == PopulationScores(cat, population)[Winner(PopulationScores(cat, population))]
    ensures bestAll == if bestInGeneration > bestSoFar then bestInGeneration else bestSoFar
    ensures bestAll > bestSoFar ==>
              |population| >= 1 && record.timetable == population[Winner(PopulationScores(cat, population))] &&
              record.fitnessScore == bestAll
    ensures bestAll == bestSoFar ==>
              record.timetable == old(record.timetable) && record.fitnessScore == old(record.fitnessScore)
  {
    ghost var scores := PopulationScores(cat, population);
    PopulationScoresNonPositive(cat, population);
    bestInGeneration := Floor;
    bestAll := bestSoFar;
    ghost var w: nat := 0;
    var i := 0;
    while i < |population|
      invariant i <= |population|
      invariant Floor <= bestInGeneration <= 0
      invariant forall k | 0 <= k < i :: scores[k] <= bestInGeneration
      invariant bestInGeneration > Floor ==>
                  w < i && scores[w] == bestInGeneration && forall k | 0 <= k < w :: scores[k] < bestInGeneration
      invariant bestAll == if bestInGeneration > bestSoFar then bestInGeneration else bestSoFar
      invariant bestAll > bestSoFar ==> record.timetable == population[w] && record.fitnessScore == bestAll
      invariant bestAll == bestSoFar ==>
                  record.timetable == old(record.timetable) && record.fitnessScore == old(record.fitnessScore)
    {
      var timetable := population[i];
      var currentFitness := CalculateFitness(cat, timetable);
      PopulationScoresAt(cat, population, i);
      if currentFitness > bestInGeneration {
        bestInGeneration := currentFitness;
        w := i;
        if currentFitness > bestAll {
          bestAll := currentFitness;
          record.Commit(timetable, currentFitness);
          if currentFitness == 0 {
            PerfectIsWinner(scores, w);
            break;
          }
        }
      }
      i := i + 1;
    }
    if bestInGeneration > Floor && i == |population| {
      WinnerIsFirstBest(scores);
    }
  }

  /** Every population of the history is well-formed and scores at most the
      best recorded beside it. */
  ghost predicate Dominates(cat: Catalog, classes: seq<ClassSpec>, history: seq<seq<Chromosome>>, trace: seq<int>) {
    |history| == |trace| &&
    forall g | 0 <= g < |history| ::
      WellFormed(cat, classes, history[g]) &&
      forall k | 0 <= k < |history[g]| :: PopulationScores(cat, history[g])[k] <= trace[g]
  }

  lemma DominatesAppend(cat: Catalog, classes: seq<ClassSpec>, history: seq<seq<Chromosome>>, trace: seq<int>,
                        population: seq<Chromosome>, best: int)
    requires Dominates(cat, classes, history, trace) && WellFormed(cat, classes, population)
    requires forall k | 0 <= k < |population| :: PopulationScores(cat, population)[k] <= best
    ensures Dominates(cat, classes, history + [population], trace + [best])
  {
  }

  predicate NonDecreasing(s: seq<int>) {
    forall g | 0 <= g < |s| - 1 :: s[g] <= s[g + 1]
  }

  lemma NonDecreasingAppend(s: seq<int>, x: int)
    requires NonDecreasing(s) && (|s| > 0 ==> s[|s| - 1] <= x)
    ensures NonDecreasing(s + [x])
  {
  }

  /** The record holds a well-formed timetable whose score is the given
      best. */
  predicate RecordHolds(cat: Catalog, classes: seq<ClassSpec>, record: BestTimetable, best: int)
    reads record
  {
    Follows(record.timetable, classes) && InCatalog(cat, record.timetable) &&
    record.fitnessScore == best && Fitness(cat, record.timetable) == best
  }

  /** One pass of the generation loop: breed the next generation from the
      current one, then scan it. */
  method RunGeneration(cat: Catalog, classes: seq<ClassSpec>, population: seq<Chromosome>, tournamentSize: int,
                       populationSize: int, rounds: seq<Round>, bestSoFar: int, record: BestTimetable)
    returns (next: seq<Chromosome>, bestInGeneration: int, bestAll: int)
    requires WellFormed(cat, classes, population)
    requires |rounds| == RoundCount(populationSize) && ValidRounds(cat, |population|, |classes|, tournamentSize, rounds)
    requires bestSoFar >= Floor
    modifies record
    ensures |next| == PopulationCount(populationSize) && WellFormed(cat, classes, next)
    ensures Floor <= bestInGeneration <= 0
    ensures forall k | 0 <= k < |next| :: PopulationScores(cat, next)[k] <= bestInGeneration
    ensures bestAll == if bestInGeneration > bestSoFar then bestInGeneration else bestSoFar
    ensures bestInGeneration > Floor ==>
              |next| >= 1 && bestInGeneration == PopulationScores(cat, next)[Winner(PopulationScores(cat, next))]
    ensures bestAll > bestSoFar ==>
              RecordHolds(cat, classes, record, bestAll) &&
              |next| >= 1 && record.timetable == next[Winner(PopulationScores(cat, next))]
    ensures bestAll == bestSoFar ==>
              record.timetable == old(record.timetable) && record.fitnessScore == old(record.fitnessScore)
  {
    next := CreateNewGeneration(cat, population, tournamentSize, populationSize, classes, rounds);
    NextGenerationWellFormed(cat, classes, population, tournamentSize, populationSize, rounds, next);
    bestInGeneration, bestAll := ScanGeneration(cat, next, bestSoFar, record);
    if bestAll > bestSoFar {
      PopulationScoresAt(cat, next, Winner(PopulationScores(cat, next)));
    }
  }

  /** The driver: build the initial population, then run up to
      numGenerations generations, each replacing the population by a new
      generation and scanning it, and stop after the first generation whose
      best is 0. Generation g uses the draws schedule[g]. */
  method Evolve(cat: Catalog, classes: seq<ClassSpec>, populationSize: int, tournamentSize: int,
                numGenerations: int, picks: seq<seq<Pick>>, schedule: seq<seq<Round>>)
    returns (population: seq<Chromosome>, generations: nat, bestAll: int, record: BestTimetable,
             ghost history: seq<seq<Chromosome>>, ghost trace: seq<int>)
    requires populationSize >= 0
    requires |picks| == PopulationCount(populationSize)
    requires forall k | 0 <= k < |picks| ::
               |picks[k]| == |classes| && forall i | 0 <= i < |classes| :: PickInCatalog(cat, picks[k][i])
    requires |schedule| >= numGenerations
    requires forall g | 0 <= g < |schedule| ::
               |schedule[g]| == RoundCount(populationSize) &&
               ValidRounds(cat, PopulationCount(populationSize), |classes|, tournamentSize, schedule[g])
    ensures fresh(record)
    ensures generations == 0 || generations <= numGenerations
    ensures generations < numGenerations ==> bestAll == 0
    ensures |population| == PopulationCount(populationSize) && WellFormed(cat, classes, population)
    // history[g] is the population generation g produced and trace[g] the
    // all-time best after it: the best never decreases, bounds every score
    // of its generation, and stays below 0 until the last generation
    ensures |history| == |trace| == generations
    ensures generations > 0 ==> history[generations - 1] == population && trace[generations - 1] == bestAll
    ensures Dominates(cat, classes, history, trace)
    ensures NonDecreasing(trace)
    ensures forall g | 0 <= g < |trace| - 1 :: trace[g] < 0
    ensures Floor <= bestAll <= 0
    ensures generations == 0 ==> bestAll == Floor
    // the record holds a timetable with exactly the all-time best score, or
    // is the untouched empty record when no generation beat the floor
    ensures bestAll > Floor ==> RecordHolds(cat, classes, record, bestAll)
    ensures bestAll > Floor ==> InHistory(history, record.timetable)
    ensures bestAll == Floor ==> record.timetable == [] && record.fitnessScore == 0
  {
    population := InitialPopulation(classes, cat, populationSize, picks);
    history := [];
    trace := [];
    bestAll := Floor;
    record := new BestTimetable();
    var generation := 0;
    while generation < numGenerations
      invariant 0 <= generation <= |schedule|
      invariant generation == 0 || generation <= numGenerations
      invariant |history| == |trace| == generation
      invariant |population| == PopulationCount(populationSize) && WellFormed(cat, classes, population)
      invariant generation > 0 ==> history[generation - 1] == population && trace[generation - 1] == bestAll
      invariant Dominates(cat, classes, history, trace)
      invariant NonDecreasing(trace)
      invariant forall g | 0 <= g < |trace| :: trace[g] < 0
      invariant Floor <= bestAll < 0
      invariant generation == 0 ==> bestAll == Floor
      invariant bestAll > Floor ==> RecordHolds(cat, classes, record, bestAll)
      invariant bestAll > Floor ==> InHistory(history, record.timetable)
      invariant bestAll == Floor ==> record.timetable == [] && record.fitnessScore == 0
    {
      var bestInGeneration;
      population, bestInGeneration, bestAll :=
        RunGeneration(cat, classes, population, tournamentSize, populationSize, schedule[generation], bestAll, record);
      if bestAll > Floor {
        InHistoryAppend(history, population, record.timetable);
      }
      DominatesAppend(cat, classes, history, trace, population, bestAll);
      NonDecreasingAppend(trace, bestAll);
      history := history + [population];
      trace := trace + [bestAll];
      generation := generation + 1;
      assert history[generation - 1] == population;
      if bestInGeneration == 0 {
        break;
      }
    }
    generations := generation;
  }

  /** Timetable t is a member of some population of the history. */
  ghost predicate InHistory(history: seq<seq<Chromosome>>, t: Chromosome) {
    exists g, k | 0 <= g < |history| && 0 <= k < |history[g]| :: t == history[g][k]
  }

  lemma InHistoryAppend(history: seq<seq<Chromosome>>, population: seq<Chromosome>, t: Chromosome)
    requires InHistory(history, t) || t in population
    ensures InHistory(history + [population], t)
  {
    var extended := history + [population];
    if t in population {
      var k :| 0 <= k < |population| && t == population[k];
      assert t == extended[|history|][k];
    } else {
      var g, k :| 0 <= g < |history| && 0 <= k < |history[g]| && t == history[g][k];
      assert t == extended[g][k];
    }
  }

  /** A generation bred from a well-formed population is well-formed. */
  lemma NextGenerationWellFormed(cat: Catalog, classes: seq<ClassSpec>, population: seq<Chromosome>,
                                 tournamentSize: int, populationSize: int, rounds: seq<Round>, next: seq<Chromosome>)
    requires WellFormed(cat, classes, population)
    requires ValidRounds(cat, |population|, |classes|, tournamentSize, rounds)
    requires |next| <= 2 * |rounds|
    requires next == Offspring(cat, population, PopulationScores(cat, population), |classes|, tournamentSize, rounds)[..|next|]
    ensures WellFormed(cat, classes, next)
  {
    var kids := Offspring(cat, population, PopulationScores(cat, population), |classes|, tournamentSize, rounds);
    OffspringKeepsShape(cat, classes, population, PopulationScores(cat, population), tournamentSize, rounds);
    PrefixWellFormed(cat, classes, kids, |next|);
  }

  lemma PrefixWellFormed(cat: Catalog, classes: seq<ClassSpec>, population: seq<Chromosome>, n: nat)
    requires n <= |population|
    requires PopulationInCatalog(cat, population) && forall k | 0 <= k < |population| :: Follows(population[k], classes)
    ensures WellFormed(cat, classes, population[..n])
  {
  }
}
