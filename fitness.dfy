/** The fitness evaluator: the score of a chromosome is minus the sum of its
    penalties. Every ordered pair of distinct genes whose slots overlap costs
    20 for a shared teacher ID and 20 for a shared room ID; every gene costs 1
    for each of an unqualified teacher, a room that is too small and a teacher
    who is not available that weekday. */
module FitnessEvaluator {
  import opened Domain

  /** Penalty for one ordered pair of genes that share a teacher or a room. */
  const ConflictPenalty := 20

  /** How many resources (teacher by ID, room by ID) gene a contends for with
      gene b: 0, 1 or 2, and 0 unless their slots overlap. */
  function Clashes(cat: Catalog, a: Gene, b: Gene): (k: nat)
    requires GeneInCatalog(cat, a) && GeneInCatalog(cat, b)
    ensures k <= 2
  {
    if TimeSlotsOverlap(SlotOf(cat, a), SlotOf(cat, b)) then
      (if TeacherOf(cat, a).id == TeacherOf(cat, b).id then 1 else 0) +
      (if RoomOf(cat, a).id == RoomOf(cat, b).id then 1 else 0)
    else 0
  }

  lemma ClashesSymmetric(cat: Catalog, a: Gene, b: Gene)
    requires GeneInCatalog(cat, a) && GeneInCatalog(cat, b)
    ensures Clashes(cat, a, b) == Clashes(cat, b, a)
  {
    TimeSlotsOverlapSymmetric(SlotOf(cat, a), SlotOf(cat, b));
  }

  /** The number of per-gene defects of g: 0 to 3. */
  function Defects(cat: Catalog, g: Gene): (k: nat)
    requires GeneInCatalog(cat, g)
    ensures k <= 3
    ensures k == 0 <==> (g.subject in TeacherOf(cat, g).subjects && g.capacity <= RoomOf(cat, g).capacity &&
                         SlotOf(cat, g).day in TeacherOf(cat, g).available)
  {
    (if !CheckTeacherQualification(TeacherOf(cat, g), g.subject) then 1 else 0) +
    (if !CheckRoomCapacity(g, RoomOf(cat, g)) then 1 else 0) +
    (if !CheckTeacherAvailability(TeacherOf(cat, g), SlotOf(cat, g)) then 1 else 0)
  }

  /** Clashes of gene i with the genes at positions 0 .. m-1 other than i. */
  function RowClashes(cat: Catalog, c: Chromosome, i: nat, m: nat): nat
    requires InCatalog(cat, c) && i < |c| && m <= |c|
  {
    if m == 0 then 0
    else RowClashes(cat, c, i, m - 1) + (if m - 1 == i then 0 else Clashes(cat, c[i], c[m - 1]))
  }

  /** Clashes of the genes at positions 0 .. m-1 other than j with gene j. */
  function ColumnClashes(cat: Catalog, c: Chromosome, j: nat, m: nat): nat
    requires InCatalog(cat, c) && j < |c| && m <= |c|
  {
    if m == 0 then 0
    else ColumnClashes(cat, c, j, m - 1) + (if m - 1 == j then 0 else Clashes(cat, c[m - 1], c[j]))
  }

  /** Rows 0 .. n-1 of the clash matrix, each taken over columns 0 .. m-1. */
  function OrderedClashes(cat: Catalog, c: Chromosome, n: nat, m: nat): nat
    requires InCatalog(cat, c) && n <= |c| && m <= |c|
  {
    if n == 0 then 0 else OrderedClashes(cat, c, n - 1, m) + RowClashes(cat, c, n - 1, m)
  }

  /** The clash matrix below the diagonal over genes 0 .. n-1: each unordered
      pair counted once. */
  function UnorderedClashes(cat: Catalog, c: Chromosome, n: nat): nat
    requires InCatalog(cat, c) && n <= |c|
  {
    if n == 0 then 0 else UnorderedClashes(cat, c, n - 1) + RowClashes(cat, c, n - 1, n - 1)
  }

  /** Defects of genes 0 .. n-1. */
  function TotalDefects(cat: Catalog, c: Chromosome, n: nat): nat
    requires InCatalog(cat, c) && n <= |c|
  {
    if n == 0 then 0 else TotalDefects(cat, c, n - 1) + Defects(cat, c[n - 1])
  }

  /** The score calculateFitness computes. */
  function Fitness(cat: Catalog, c: Chromosome): (score: int)
    requires InCatalog(cat, c)
    ensures score <= 0
  {
    -(ConflictPenalty * OrderedClashes(cat, c, |c|, |c|) + TotalDefects(cat, c, |c|))
  }

  /** A timetable with no defect: no two distinct classes in overlapping slots
      with the same teacher ID or the same room ID, and every class with a
      qualified teacher, a room large enough and a teacher available that day. */
  predicate Feasible(cat: Catalog, c: Chromosome)
    requires InCatalog(cat, c)
  {
    (forall i, j | 0 <= i < |c| && 0 <= j < |c| && i != j ::
       TimeSlotsOverlap(SlotOf(cat, c[i]), SlotOf(cat, c[j])) ==>
         TeacherOf(cat, c[i]).id != TeacherOf(cat, c[j]).id && RoomOf(cat, c[i]).id != RoomOf(cat, c[j]).id) &&
    (forall i | 0 <= i < |c| ::
       c[i].subject in TeacherOf(cat, c[i]).subjects &&
       c[i].capacity <= RoomOf(cat, c[i]).capacity &&
       SlotOf(cat, c[i]).day in TeacherOf(cat, c[i]).available)
  }

  /** calculateFitness: a nested scan over every ordered pair of genes, then
      the three per-gene checks. */
  method CalculateFitness(cat: Catalog, c: Chromosome) returns (fitness: int)
    requires InCatalog(cat, c)
    ensures fitness == Fitness(cat, c)
  {
    fitness := 0;
    for i := 0 to |c|
      invariant fitness == -(ConflictPenalty * OrderedClashes(cat, c, i, |c|) + TotalDefects(cat, c, i))
    {
      var gene1 := c[i];
      for j := 0 to |c|
        invariant fitness == -(ConflictPenalty * (OrderedClashes(cat, c, i, |c|) + RowClashes(cat, c, i, j))
                               + TotalDefects(cat, c, i))
      {
        var gene2 := c[j];
        assert RowClashes(cat, c, i, j + 1) == RowClashes(cat, c, i, j) + if i == j then 0 else Clashes(cat, gene1, gene2);
        if i != j {
          if TimeSlotsOverlap(SlotOf(cat, gene1), SlotOf(cat, gene2)) {
            if TeacherOf(cat, gene1).id == TeacherOf(cat, gene2).id {
              fitness := fitness - ConflictPenalty;
            }
            if RoomOf(cat, gene1).id == RoomOf(cat, gene2).id {
              fitness := fitness - ConflictPenalty;
            }
          }
        }
      }
      assert OrderedClashes(cat, c, i + 1, |c|) == OrderedClashes(cat, c, i, |c|) + RowClashes(cat, c, i, |c|);
      assert TotalDefects(cat, c, i + 1) == TotalDefects(cat, c, i) + Defects(cat, gene1);
      if !CheckTeacherQualification(TeacherOf(cat, gene1), gene1.subject) {
        fitness := fitness - 1;
      }
      if !CheckRoomCapacity(gene1, RoomOf(cat, gene1)) {
        fitness := fitness - 1;
      }
      if !CheckTeacherAvailability(TeacherOf(cat, gene1), SlotOf(cat, gene1)) {
        fitness := fitness - 1;
      }
    }
  }

  // ---------------------------------------------------------------------------
  // Zero exactly on feasible timetables

  lemma {:induction false} RowClashesZero(cat: Catalog, c: Chromosome, i: nat, m: nat)
    requires InCatalog(cat, c) && i < |c| && m <= |c|
    ensures RowClashes(cat, c, i, m) == 0 <==>
              forall k | 0 <= k < m && k != i :: Clashes(cat, c[i], c[k]) == 0
  {
    if m > 0 {
      RowClashesZero(cat, c, i, m - 1);
    }
  }

  lemma {:induction false} OrderedClashesZero(cat: Catalog, c: Chromosome, n: nat)
    requires InCatalog(cat, c) && n <= |c|
    ensures OrderedClashes(cat, c, n, |c|) == 0 <==>
              forall i, k | 0 <= i < n && 0 <= k < |c| && k != i :: Clashes(cat, c[i], c[k]) == 0
  {
    if n > 0 {
      OrderedClashesZero(cat, c, n - 1);
      RowClashesZero(cat, c, n - 1, |c|);
    }
  }

  lemma {:induction false} TotalDefectsZero(cat: Catalog, c: Chromosome, n: nat)
    requires InCatalog(cat, c) && n <= |c|
    ensures TotalDefects(cat, c, n) == 0 <==> forall i | 0 <= i < n :: Defects(cat, c[i]) == 0
  {
    if n > 0 {
      TotalDefectsZero(cat, c, n - 1);
    }
  }

  /** The score is 0 exactly when the timetable is feasible. */
  lemma FitnessZeroIffFeasible(cat: Catalog, c: Chromosome)
    requires InCatalog(cat, c)
    ensures Fitness(cat, c) == 0 <==> Feasible(cat, c)
  {
    OrderedClashesZero(cat, c, |c|);
    TotalDefectsZero(cat, c, |c|);
  }

  // ---------------------------------------------------------------------------
  // Every conflict is paid twice

  lemma {:induction false} ColumnIsRow(cat: Catalog, c: Chromosome, j: nat, m: nat)
    requires InCatalog(cat, c) && j < |c| && m <= |c|
    ensures ColumnClashes(cat, c, j, m) == RowClashes(cat, c, j, m)
  {
    if m > 0 {
      ColumnIsRow(cat, c, j, m - 1);
      ClashesSymmetric(cat, c[m - 1], c[j]);
    }
  }

  /** Adding column m to the first n rows adds that column's clashes. */
  lemma {:induction false} WidenRows(cat: Catalog, c: Chromosome, n: nat, m: nat)
    requires InCatalog(cat, c) && n <= |c| && m < |c|
    ensures OrderedClashes(cat, c, n, m + 1) == OrderedClashes(cat, c, n, m) + ColumnClashes(cat, c, m, n)
  {
    if n > 0 {
      WidenRows(cat, c, n - 1, m);
    }
  }

  lemma {:induction false} OrderedIsTwiceUnordered(cat: Catalog, c: Chromosome, n: nat)
    requires InCatalog(cat, c) && n <= |c|
    ensures OrderedClashes(cat, c, n, n) == 2 * UnorderedClashes(cat, c, n)
  {
    if n > 0 {
      var p := n - 1;
      OrderedIsTwiceUnordered(cat, c, p);
      WidenRows(cat, c, n, p);
      ColumnIsRow(cat, c, p, p);
      assert ColumnClashes(cat, c, p, n) == ColumnClashes(cat, c, p, p);
      assert OrderedClashes(cat, c, n, p) == OrderedClashes(cat, c, p, p) + RowClashes(cat, c, p, p);
    }
  }

  /** The conflict part of the score is 40 per conflicting unordered pair and
      shared resource: a multiple of 40. */
  lemma FitnessCountsEachConflictTwice(cat: Catalog, c: Chromosome)
    requires InCatalog(cat, c)
    ensures Fitness(cat, c) == -(2 * ConflictPenalty * UnorderedClashes(cat, c, |c|) + TotalDefects(cat, c, |c|))
    ensures (Fitness(cat, c) + TotalDefects(cat, c, |c|)) % (2 * ConflictPenalty) == 0
  {
    OrderedIsTwiceUnordered(cat, c, |c|);
  }

  // ---------------------------------------------------------------------------
  // Bounds

  lemma {:induction false} RowClashesBound(cat: Catalog, c: Chromosome, i: nat, m: nat)
    requires InCatalog(cat, c) && i < |c| && m <= |c|
    ensures RowClashes(cat, c, i, m) <= 2 * m
  {
    if m > 0 {
      RowClashesBound(cat, c, i, m - 1);
    }
  }

  lemma {:induction false} UnorderedClashesBound(cat: Catalog, c: Chromosome, n: nat)
    requires InCatalog(cat, c) && n <= |c|
    ensures UnorderedClashes(cat, c, n) <= n * (n - 1)
  {
    if n > 0 {
      UnorderedClashesBound(cat, c, n - 1);
      RowClashesBound(cat, c, n - 1, n - 1);
      assert (n - 1) * (n - 2) + 2 * (n - 1) == n * (n - 1);
    }
  }

  lemma {:induction false} TotalDefectsBound(cat: Catalog, c: Chromosome, n: nat)
    requires InCatalog(cat, c) && n <= |c|
    ensures TotalDefects(cat, c, n) <= 3 * n
  {
    if n > 0 {
      TotalDefectsBound(cat, c, n - 1);
    }
  }

  /** With n genes the score is at least -(40 n (n-1) + 3 n). */
  lemma FitnessLowerBound(cat: Catalog, c: Chromosome)
    requires InCatalog(cat, c)
    ensures Fitness(cat, c) >= -(2 * ConflictPenalty * (|c| * (|c| - 1)) + 3 * |c|)
  {
    FitnessCountsEachConflictTwice(cat, c);
    UnorderedClashesBound(cat, c, |c|);
    TotalDefectsBound(cat, c, |c|);
  }

  lemma {:induction false} RowHasClash(cat: Catalog, c: Chromosome, i: nat, m: nat, j: nat)
    requires InCatalog(cat, c) && i < |c| && m <= |c| && j < m && j != i
    ensures RowClashes(cat, c, i, m) >= Clashes(cat, c[i], c[j])
  {
    if j < m - 1 {
      RowHasClash(cat, c, i, m - 1, j);
    }
  }

  lemma {:induction false} UnorderedHasRow(cat: Catalog, c: Chromosome, n: nat, i: nat)
    requires InCatalog(cat, c) && n <= |c| && i < n
    ensures UnorderedClashes(cat, c, n) >= RowClashes(cat, c, i, i)
  {
    if i < n - 1 {
      UnorderedHasRow(cat, c, n - 1, i);
    }
  }

  /** Two distinct classes in overlapping slots with the same teacher ID (or
      the same room ID) cost at least 40: such a timetable can never score 0. */
  lemma ConflictCostsTwice(cat: Catalog, c: Chromosome, i: nat, j: nat)
    requires InCatalog(cat, c) && i < |c| && j < |c| && i != j
    requires TimeSlotsOverlap(SlotOf(cat, c[i]), SlotOf(cat, c[j]))
    requires TeacherOf(cat, c[i]).id == TeacherOf(cat, c[j]).id || RoomOf(cat, c[i]).id == RoomOf(cat, c[j]).id
    ensures Fitness(cat, c) <= -2 * ConflictPenalty
  {
    var hi, lo := if i < j then j else i, if i < j then i else j;
    ClashesSymmetric(cat, c[i], c[j]);
    RowHasClash(cat, c, hi, hi, lo);
    UnorderedHasRow(cat, c, |c|, hi);
    FitnessCountsEachConflictTwice(cat, c);
  }
}
