/** The evolution operators: random initialisation, single-point crossover,
    per-gene mutation, tournament selection and the production of a new
    generation. Every random draw of the original is an explicit input here:
    an index drawn with rand.Intn(n) is a number below n, and a
    rand.Float64() < mutationRate test is a boolean. */
module Operators {
  import opened Domain
  import opened FitnessEvaluator

  // ---------------------------------------------------------------------------
  // Initialisation

  /** The three draws made for one class: a teacher, a room and a slot index. */
  datatype Pick = Pick(teacher: nat, room: nat, slot: nat)

  predicate PickInCatalog(cat: Catalog, p: Pick) {
    p.teacher < |cat.teachers| && p.room < |cat.rooms| && p.slot < |cat.slots|
  }

  /** initializeRandomTimetable: one gene per class, in class order, with the
      drawn teacher, room and slot. A draw below the catalog's size exists
      only for a non-empty catalog, so a class list with at least one class
      needs three non-empty catalogs. */
  method InitializeRandomTimetable(classes: seq<ClassSpec>, cat: Catalog, draws: seq<Pick>)
    returns (timetable: Chromosome)
    requires |draws| == |classes|
    requires forall i | 0 <= i < |draws| :: PickInCatalog(cat, draws[i])
    ensures Follows(timetable, classes) && InCatalog(cat, timetable)
    ensures forall i | 0 <= i < |timetable| ::
              timetable[i].teacher == draws[i].teacher && timetable[i].room == draws[i].room &&
              timetable[i].slot == draws[i].slot
  {
    timetable := [];
    for i := 0 to |classes|
      invariant |timetable| == i
      invariant forall k | 0 <= k < i ::
                  timetable[k] == Gene(classes[k].subject, draws[k].teacher, draws[k].room, draws[k].slot,
                                       classes[k].capacity)
    {
      var template := classes[i];
      var gene := Gene(template.subject, draws[i].teacher, draws[i].room, draws[i].slot, template.capacity);
      timetable := timetable + [gene];
    }
  }

  // ---------------------------------------------------------------------------
  // Crossover

  /** The child of a single-point crossover: parent1's genes before the cut,
      parent2's from the cut on, as long as parent1. */
  function Splice(parent1: Chromosome, parent2: Chromosome, cut: nat): (child: Chromosome)
    requires cut <= |parent1| <= |parent2|
    ensures |child| == |parent1|
  {
    parent1[..cut] + parent2[cut..|parent1|]
  }

  /** Gene i of the child comes from parent1 below the cut and from parent2
      from the cut on. */
  lemma SpliceGenes(parent1: Chromosome, parent2: Chromosome, cut: nat)
    requires cut <= |parent1| <= |parent2|
    ensures forall i | 0 <= i < |parent1| ::
              Splice(parent1, parent2, cut)[i] == if i < cut then parent1[i] else parent2[i]
  {
  }

  /** crossover: the cut is drawn below len(parent1), so parent1 must be
      non-empty, and parent2 is read up to len(parent1). */
  method Crossover(parent1: Chromosome, parent2: Chromosome, cut: nat) returns (child: Chromosome)
    requires cut < |parent1| <= |parent2|
    ensures child == Splice(parent1, parent2, cut)
  {
    var childGenes := [];
    for i := 0 to |parent1|
      invariant |childGenes| == i
      invariant forall k | 0 <= k < i :: childGenes[k] == if k < cut then parent1[k] else parent2[k]
    {
      if i < cut {
        childGenes := childGenes + [parent1[i]];
      } else {
        childGenes := childGenes + [parent2[i]];
      }
    }
    child := childGenes;
    SpliceGenes(parent1, parent2, cut);
  }

  /** A child of two parents laid out for the same classes and drawing on the
      same catalog is laid out the same way and draws on that catalog. */
  lemma SpliceKeepsShape(cat: Catalog, classes: seq<ClassSpec>, parent1: Chromosome, parent2: Chromosome, cut: nat)
    requires Follows(parent1, classes) && Follows(parent2, classes)
    requires InCatalog(cat, parent1) && InCatalog(cat, parent2)
    requires cut <= |parent1|
    ensures Follows(Splice(parent1, parent2, cut), classes) && InCatalog(cat, Splice(parent1, parent2, cut))
  {
    SpliceGenes(parent1, parent2, cut);
  }

  // ---------------------------------------------------------------------------
  // Mutation

  /** The draws made for one gene: whether it mutates (rand.Float64() <
      mutationRate), which field (rand.Intn(3): 0 teacher, 1 room, 2 slot) and
      the new catalog index. Choice and pick mean nothing when mutate is false. */
  datatype MutationDraw = MutationDraw(mutate: bool, choice: nat, pick: nat)

  function CatalogSize(cat: Catalog, choice: nat): nat {
    if choice == 0 then |cat.teachers| else if choice == 1 then |cat.rooms| else |cat.slots|
  }

  predicate ValidMutation(cat: Catalog, d: MutationDraw) {
    d.mutate ==> d.choice < 3 && d.pick < CatalogSize(cat, d.choice)
  }

  predicate ValidMutations(cat: Catalog, draws: seq<MutationDraw>) {
    forall i | 0 <= i < |draws| :: ValidMutation(cat, draws[i])
  }

  /** One gene after mutation: its class is untouched, at most one of teacher,
      room and slot is replaced, by the drawn catalog entry, and the
      replacement is a catalog entry. */
  function MutateGene(cat: Catalog, g: Gene, d: MutationDraw): (m: Gene)
    requires ValidMutation(cat, d)
    ensures m.subject == g.subject && m.capacity == g.capacity
    ensures (m.teacher == g.teacher && m.room == g.room) || (m.teacher == g.teacher && m.slot == g.slot) ||
            (m.room == g.room && m.slot == g.slot)
    ensures GeneInCatalog(cat, g) ==> GeneInCatalog(cat, m)
    ensures !d.mutate ==> m == g
    ensures d.mutate && d.choice == 0 ==> m.teacher == d.pick && m.room == g.room && m.slot == g.slot
    ensures d.mutate && d.choice == 1 ==> m.room == d.pick && m.teacher == g.teacher && m.slot == g.slot
    ensures d.mutate && d.choice == 2 ==> m.slot == d.pick && m.teacher == g.teacher && m.room == g.room
  {
    if !d.mutate then g
    else if d.choice == 0 then g.(teacher := d.pick)
    else if d.choice == 1 then g.(room := d.pick)
    else g.(slot := d.pick)
  }

  function Mutated(cat: Catalog, c: Chromosome, draws: seq<MutationDraw>): (m: Chromosome)
    requires |draws| == |c| && ValidMutations(cat, draws)
    ensures |m| == |c|
  {
    seq(|c|, i requires 0 <= i < |c| => MutateGene(cat, c[i], draws[i]))
  }

  /** Gene i of the mutated chromosome is gene i mutated with draw i. */
  lemma MutatedGenes(cat: Catalog, c: Chromosome, draws: seq<MutationDraw>)
    requires |draws| == |c| && ValidMutations(cat, draws)
    ensures forall i | 0 <= i < |c| :: Mutated(cat, c, draws)[i] == MutateGene(cat, c[i], draws[i])
  {
  }

  /** mutate: walks the genes and overwrites the chosen field of each selected
      gene. */
  method Mutate(cat: Catalog, chromosome: Chromosome, draws: seq<MutationDraw>) returns (m: Chromosome)
    requires |draws| == |chromosome| && ValidMutations(cat, draws)
    ensures m == Mutated(cat, chromosome, draws)
  {
    m := chromosome;
    for i := 0 to |m|
      invariant |m| == |chromosome|
      invariant forall k | 0 <= k < i :: m[k] == MutateGene(cat, chromosome[k], draws[k])
      invariant forall k | i <= k < |m| :: m[k] == chromosome[k]
    {
      if draws[i].mutate {
        var mutationChoice := draws[i].choice;
        if mutationChoice == 0 {
          m := m[i := m[i].(teacher := draws[i].pick)];
        } else if mutationChoice == 1 {
          m := m[i := m[i].(room := draws[i].pick)];
        } else if mutationChoice == 2 {
          m := m[i := m[i].(slot := draws[i].pick)];
        }
      }
    }
    MutatedGenes(cat, chromosome, draws);
  }

  lemma MutatedKeepsShape(cat: Catalog, classes: seq<ClassSpec>, c: Chromosome, draws: seq<MutationDraw>)
    requires Follows(c, classes) && InCatalog(cat, c)
    requires |draws| == |c| && ValidMutations(cat, draws)
    ensures Follows(Mutated(cat, c, draws), classes) && InCatalog(cat, Mutated(cat, c, draws))
  {
    MutatedGenes(cat, c, draws);
  }

  /** With mutation rate 0 no gene is selected (rand.Float64() is never below
      0), and the chromosome comes back unchanged. */
  lemma NoMutationAtRateZero(cat: Catalog, c: Chromosome, draws: seq<MutationDraw>)
    requires |draws| == |c| && ValidMutations(cat, draws)
    requires forall i | 0 <= i < |draws| :: !draws[i].mutate
    ensures Mutated(cat, c, draws) == c
  {
    MutatedGenes(cat, c, draws);
  }

  // ---------------------------------------------------------------------------
  // Tournament selection

  predicate PopulationInCatalog(cat: Catalog, population: seq<Chromosome>) {
    forall k | 0 <= k < |population| :: InCatalog(cat, population[k])
  }

  predicate SamplesIn(samples: seq<nat>, size: nat) {
    forall j | 0 <= j < |samples| :: samples[j] < size
  }

  /** The score of every individual of the population, in order. */
  function PopulationScores(cat: Catalog, population: seq<Chromosome>): (scores: seq<int>)
    requires PopulationInCatalog(cat, population)
    ensures |scores| == |population|
    decreases |population|
  {
    if population == [] then []
    else
      var last := |population| - 1;
      PopulationScores(cat, population[..last]) + [Fitness(cat, population[last])]
  }

  lemma {:induction false} PopulationScoresAt(cat: Catalog, population: seq<Chromosome>, k: nat)
    requires PopulationInCatalog(cat, population) && k < |population|
    ensures PopulationScores(cat, population)[k] == Fitness(cat, population[k])
    decreases |population|
  {
    if k < |population| - 1 {
      PopulationScoresAt(cat, population[..|population| - 1], k);
    }
  }

  /** The scores of the sampled individuals, in sampling order. */
  function SampleScores(scores: seq<int>, samples: seq<nat>): (sampled: seq<int>)
    requires SamplesIn(samples, |scores|)
    ensures |sampled| == |samples|
    ensures forall j | 0 <= j < |samples| :: sampled[j] == scores[samples[j]]
  {
    seq(|samples|, j requires 0 <= j < |samples| => scores[samples[j]])
  }

  /** Position k holds a maximal score and every earlier position scores
      strictly less. */
  predicate FirstBest(scores: seq<int>, k: nat) {
    k < |scores| &&
    (forall j | 0 <= j < |scores| :: scores[j] <= scores[k]) &&
    (forall j | 0 <= j < k :: scores[j] < scores[k])
  }

  /** The position the tournament keeps: a later sample replaces the
      incumbent only with a strictly higher score. */
  function Winner(scores: seq<int>): (k: nat)
    requires |scores| >= 1
    ensures k < |scores|
  {
    if |scores| == 1 then 0
    else
      var k := Winner(scores[..|scores| - 1]);
      if scores[|scores| - 1] > scores[k] then |scores| - 1 else k
  }

  /** The tournament keeps the earliest of the samples with the highest
      score; no other position has that property. */
  lemma {:induction false} WinnerIsFirstBest(scores: seq<int>)
    requires |scores| >= 1
    ensures FirstBest(scores, Winner(scores))
    ensures forall k | 0 <= k < |scores| && FirstBest(scores, k) :: k == Winner(scores)
  {
    if |scores| > 1 {
      WinnerIsFirstBest(scores[..|scores| - 1]);
    }
  }

  /** The individual a tournament over these samples selects, given the
      score of every individual. */
  function Tournament(population: seq<Chromosome>, scores: seq<int>, samples: seq<nat>): Chromosome
    requires |scores| == |population| && SamplesIn(samples, |population|) && |samples| >= 1
  {
    population[samples[Winner(SampleScores(scores, samples))]]
  }

  /** TournamentSelection: draws tournamentSize indices (here, the samples)
      and keeps the best. With tournamentSize below 1 or an empty population
      the original indexes with -1 or cannot draw, so both are excluded. */
  method TournamentSelection(cat: Catalog, population: seq<Chromosome>, tournamentSize: int, samples: seq<nat>)
    returns (selected: Chromosome)
    requires PopulationInCatalog(cat, population)
    requires tournamentSize >= 1 && |samples| == tournamentSize && SamplesIn(samples, |population|)
    ensures selected == Tournament(population, PopulationScores(cat, population), samples)
  {
    ghost var scores := SampleScores(PopulationScores(cat, population), samples);
    var best := -1;
    var bestFitness := -1000;
    ghost var pos := 0;
    for i := 0 to tournamentSize
      invariant i == 0 ==> best == -1
      invariant i > 0 ==> pos == Winner(scores[..i]) && best == samples[pos] && bestFitness == scores[pos]
    {
      var individualIndex := samples[i];
      var currentFitness := CalculateFitness(cat, population[individualIndex]);
      PopulationScoresAt(cat, population, individualIndex);
      assert scores[..i + 1][..i] == scores[..i];
      if best == -1 || currentFitness > bestFitness {
        best := individualIndex;
        bestFitness := currentFitness;
        pos := i;
      }
    }
    assert scores[..tournamentSize] == scores;
    selected := population[best];
  }

  /** In terms of fitness: the tournament selects the earliest sample whose
      fitness is the highest among the samples. */
  lemma TournamentIsFirstFittest(cat: Catalog, population: seq<Chromosome>, samples: seq<nat>)
    requires PopulationInCatalog(cat, population) && SamplesIn(samples, |population|) && |samples| >= 1
    ensures var w := Winner(SampleScores(PopulationScores(cat, population), samples));
            Tournament(population, PopulationScores(cat, population), samples) == population[samples[w]] &&
            (forall j | 0 <= j < |samples| :: Fitness(cat, population[samples[j]]) <= Fitness(cat, population[samples[w]])) &&
            (forall j | 0 <= j < w :: Fitness(cat, population[samples[j]]) < Fitness(cat, population[samples[w]]))
  {
    var scores := SampleScores(PopulationScores(cat, population), samples);
    WinnerIsFirstBest(scores);
    forall j | 0 <= j < |samples|
      ensures scores[j] == Fitness(cat, population[samples[j]])
    {
      PopulationScoresAt(cat, population, samples[j]);
    }
  }

  // ---------------------------------------------------------------------------
  // A new generation

  /** The draws for one step of the generation loop: the two tournaments, the
      two crossover cuts and the two mutation passes. */
  datatype Round = Round(samples1: seq<nat>, samples2: seq<nat>, cut1: nat, cut2: nat,
                         mutation1: seq<MutationDraw>, mutation2: seq<MutationDraw>)

  predicate ValidRound(cat: Catalog, populationCount: nat, geneCount: nat, tournamentSize: int, r: Round) {
    tournamentSize >= 1 &&
    |r.samples1| == tournamentSize && SamplesIn(r.samples1, populationCount) &&
    |r.samples2| == tournamentSize && SamplesIn(r.samples2, populationCount) &&
    r.cut1 < geneCount && r.cut2 < geneCount &&
    |r.mutation1| == geneCount && ValidMutations(cat, r.mutation1) &&
    |r.mutation2| == geneCount && ValidMutations(cat, r.mutation2)
  }

  predicate ValidRounds(cat: Catalog, populationCount: nat, geneCount: nat, tournamentSize: int, rounds: seq<Round>) {
    forall t | 0 <= t < |rounds| :: ValidRound(cat, populationCount, geneCount, tournamentSize, rounds[t])
  }

  /** Every chromosome has one gene per class. */
  predicate SameLength(population: seq<Chromosome>, geneCount: nat) {
    forall k | 0 <= k < |population| :: |population[k]| == geneCount
  }

  /** Steps of the generation loop: i runs 0, 2, 4, ... below populationSize. */
  function RoundCount(populationSize: int): (n: nat)
    ensures populationSize <= 0 ==> n == 0
    ensures populationSize > 0 ==> 2 * n - 1 <= populationSize <= 2 * n
  {
    if populationSize <= 0 then 0 else (populationSize + 1) / 2
  }

  /** The first (first == true) or second child one step produces: parent1
      crossed with parent2, or parent2 crossed with parent1, then mutated. */
  function Child(cat: Catalog, population: seq<Chromosome>, scores: seq<int>, geneCount: nat, tournamentSize: int,
                 r: Round, first: bool): (child: Chromosome)
    requires |scores| == |population| && SameLength(population, geneCount)
    requires ValidRound(cat, |population|, geneCount, tournamentSize, r)
    ensures |child| == geneCount
  {
    var parent1 := Tournament(population, scores, r.samples1);
    var parent2 := Tournament(population, scores, r.samples2);
    if first then Mutated(cat, Splice(parent1, parent2, r.cut1), r.mutation1)
    else Mutated(cat, Splice(parent2, parent1, r.cut2), r.mutation2)
  }

  lemma ChildKeepsShape(cat: Catalog, classes: seq<ClassSpec>, population: seq<Chromosome>, scores: seq<int>,
                        tournamentSize: int, r: Round, first: bool)
    requires PopulationInCatalog(cat, population) && |scores| == |population|
    requires SameLength(population, |classes|) && forall k | 0 <= k < |population| :: Follows(population[k], classes)
    requires ValidRound(cat, |population|, |classes|, tournamentSize, r)
    ensures Follows(Child(cat, population, scores, |classes|, tournamentSize, r, first), classes)
    ensures InCatalog(cat, Child(cat, population, scores, |classes|, tournamentSize, r, first))
  {
    var parent1 := Tournament(population, scores, r.samples1);
    var parent2 := Tournament(population, scores, r.samples2);
    if first {
      SpliceKeepsShape(cat, classes, parent1, parent2, r.cut1);
      MutatedKeepsShape(cat, classes, Splice(parent1, parent2, r.cut1), r.mutation1);
    } else {
      SpliceKeepsShape(cat, classes, parent2, parent1, r.cut2);
      MutatedKeepsShape(cat, classes, Splice(parent2, parent1, r.cut2), r.mutation2);
    }
  }

  /** Both children of every step, in order: step t's first child at 2t and
      its second at 2t + 1. */
  function Offspring(cat: Catalog, population: seq<Chromosome>, scores: seq<int>, geneCount: nat,
                     tournamentSize: int, rounds: seq<Round>): (kids: seq<Chromosome>)
    requires |scores| == |population| && SameLength(population, geneCount)
    requires ValidRounds(cat, |population|, geneCount, tournamentSize, rounds)
    ensures |kids| == 2 * |rounds|
    decreases |rounds|
  {
    if rounds == [] then []
    else
      var last := rounds[|rounds| - 1];
      Offspring(cat, population, scores, geneCount, tournamentSize, rounds[..|rounds| - 1]) +
      [Child(cat, population, scores, geneCount, tournamentSize, last, true),
       Child(cat, population, scores, geneCount, tournamentSize, last, false)]
  }

  /** Step t's first child sits at 2t and its second at 2t + 1. */
  lemma {:induction false} OffspringAt(cat: Catalog, population: seq<Chromosome>, scores: seq<int>, geneCount: nat,
                                       tournamentSize: int, rounds: seq<Round>, t: nat)
    requires |scores| == |population| && SameLength(population, geneCount)
    requires ValidRounds(cat, |population|, geneCount, tournamentSize, rounds)
    requires t < |rounds|
    ensures Offspring(cat, population, scores, geneCount, tournamentSize, rounds)[2 * t] ==
            Child(cat, population, scores, geneCount, tournamentSize, rounds[t], true)
    ensures Offspring(cat, population, scores, geneCount, tournamentSize, rounds)[2 * t + 1] ==
            Child(cat, population, scores, geneCount, tournamentSize, rounds[t], false)
    decreases |rounds|
  {
    var front := rounds[..|rounds| - 1];
    if t < |rounds| - 1 {
      OffspringAt(cat, population, scores, geneCount, tournamentSize, front, t);
      assert front[t] == rounds[t];
    }
  }

  /** Step t of the generation loop: two tournaments, the two crossovers
      (each with its own cut) and the mutation of both children. */
  method Breed(cat: Catalog, population: seq<Chromosome>, tournamentSize: int, classes: seq<ClassSpec>,
               rounds: seq<Round>, t: nat)
    returns (mutatedChild1: Chromosome, mutatedChild2: Chromosome)
    requires PopulationInCatalog(cat, population) && SameLength(population, |classes|)
    requires ValidRounds(cat, |population|, |classes|, tournamentSize, rounds) && t < |rounds|
    ensures mutatedChild1 == Offspring(cat, population, PopulationScores(cat, population), |classes|, tournamentSize, rounds)[2 * t]
    ensures mutatedChild2 == Offspring(cat, population, PopulationScores(cat, population), |classes|, tournamentSize, rounds)[2 * t + 1]
  {
    var r := rounds[t];
    var parent1 := TournamentSelection(cat, population, tournamentSize, r.samples1);
    var parent2 := TournamentSelection(cat, population, tournamentSize, r.samples2);

    var child1 := Crossover(parent1, parent2, r.cut1);
    var child2 := Crossover(parent2, parent1, r.cut2);

    mutatedChild1 := Mutate(cat, child1, r.mutation1);
    mutatedChild2 := Mutate(cat, child2, r.mutation2);
    OffspringAt(cat, population, PopulationScores(cat, population), |classes|, tournamentSize, rounds, t);
  }

  lemma ExtendPrefix<T>(kids: seq<T>, next: seq<T>, a: T)
    requires |next| < |kids| && next == kids[..|next|] && a == kids[|next|]
    ensures next + [a] == kids[..|next| + 1]
  {
  }

  /** CreateNewGeneration: the first populationSize of the children its steps
      produce (none for a non-positive size). With an odd size the second
      child of the last step is dropped. */
  method CreateNewGeneration(cat: Catalog, population: seq<Chromosome>, tournamentSize: int, populationSize: int,
                             classes: seq<ClassSpec>, rounds: seq<Round>)
    returns (next: seq<Chromosome>)
    requires PopulationInCatalog(cat, population) && SameLength(population, |classes|)
    requires |rounds| == RoundCount(populationSize)
    requires ValidRounds(cat, |population|, |classes|, tournamentSize, rounds)
    ensures |next| == if populationSize <= 0 then 0 else populationSize
    ensures next == Offspring(cat, population, PopulationScores(cat, population), |classes|, tournamentSize, rounds)[..|next|]
  {
    ghost var scores := PopulationScores(cat, population);
    ghost var kids := Offspring(cat, population, scores, |classes|, tournamentSize, rounds);
    next := [];
    var i := 0;
    var step := 0;
    while i < populationSize
      invariant 0 <= step && i == 2 * step
      invariant populationSize > 0 ==> i <= populationSize + 1
      invariant |next| == if populationSize <= 0 then 0 else if i <= populationSize then i else populationSize
      invariant next == kids[..|next|]
    {
      var mutatedChild1, mutatedChild2 := Breed(cat, population, tournamentSize, classes, rounds, step);
      ExtendPrefix(kids, next, mutatedChild1);
      next := next + [mutatedChild1];
      if |next| < populationSize {
        ExtendPrefix(kids, next, mutatedChild2);
        next := next + [mutatedChild2];
      }
      i := i + 2;
      step := step + 1;
    }
  }

  /** Every child of a generation has one gene per class, carrying that
      class's subject and capacity, and draws on the catalog. */
  lemma {:induction false} OffspringKeepsShape(cat: Catalog, classes: seq<ClassSpec>, population: seq<Chromosome>,
                                               scores: seq<int>, tournamentSize: int, rounds: seq<Round>)
    requires PopulationInCatalog(cat, population) && |scores| == |population|
    requires SameLength(population, |classes|) && forall k | 0 <= k < |population| :: Follows(population[k], classes)
    requires ValidRounds(cat, |population|, |classes|, tournamentSize, rounds)
    ensures PopulationInCatalog(cat, Offspring(cat, population, scores, |classes|, tournamentSize, rounds))
    ensures forall j | 0 <= j < 2 * |rounds| ::
              Follows(Offspring(cat, population, scores, |classes|, tournamentSize, rounds)[j], classes)
    decreases |rounds|
  {
    if rounds != [] {
      var last := rounds[|rounds| - 1];
      OffspringKeepsShape(cat, classes, population, scores, tournamentSize, rounds[..|rounds| - 1]);
      ChildKeepsShape(cat, classes, population, scores, tournamentSize, last, true);
      ChildKeepsShape(cat, classes, population, scores, tournamentSize, last, false);
    }
  }
}
