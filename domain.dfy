/** The timetabling domain: the read-only catalogs (teachers, rooms, time slots),
    the class templates to be scheduled, the gene that binds one class to a
    teacher, a room and a slot, and the constraint predicates the fitness
    function is built from. */
module Domain {

  /** time.Weekday: Sunday is 0, Saturday is 6. */
  type Weekday = d: int | 0 <= d < 7

  datatype Teacher = Teacher(id: string, name: string, subjects: seq<string>, available: seq<Weekday>)

  datatype Room = Room(id: string, capacity: int)

  /** Start and end are minutes since midnight; a slot covers [start, end). */
  datatype TimeSlot = TimeSlot(day: Weekday, start: int, end: int)

  /** An unassigned class: the template a gene is made from. */
  datatype ClassSpec = ClassSpec(subject: string, capacity: int)

  /** One assigned class. Teacher, room and slot are positions in the catalog,
      so that two genes share a slot exactly when they point at the same
      catalog entry. */
  datatype Gene = Gene(subject: string, teacher: nat, room: nat, slot: nat, capacity: int)

  /** One candidate timetable: one gene per class, in class order. */
  type Chromosome = seq<Gene>

  datatype Catalog = Catalog(teachers: seq<Teacher>, rooms: seq<Room>, slots: seq<TimeSlot>)

  predicate GeneInCatalog(cat: Catalog, g: Gene) {
    g.teacher < |cat.teachers| && g.room < |cat.rooms| && g.slot < |cat.slots|
  }

  /** Every teacher, room and slot a chromosome uses is a catalog entry. */
  predicate InCatalog(cat: Catalog, c: Chromosome) {
    forall i | 0 <= i < |c| :: GeneInCatalog(cat, c[i])
  }

  /** The chromosome has one gene per class, and gene i carries the subject
      and capacity of class i. */
  predicate Follows(c: Chromosome, classes: seq<ClassSpec>) {
    |c| == |classes| &&
    forall i | 0 <= i < |c| :: c[i].subject == classes[i].subject && c[i].capacity == classes[i].capacity
  }

  function TeacherOf(cat: Catalog, g: Gene): Teacher
    requires GeneInCatalog(cat, g)
  {
    cat.teachers[g.teacher]
  }

  function RoomOf(cat: Catalog, g: Gene): Room
    requires GeneInCatalog(cat, g)
  {
    cat.rooms[g.room]
  }

  function SlotOf(cat: Catalog, g: Gene): TimeSlot
    requires GeneInCatalog(cat, g)
  {
    cat.slots[g.slot]
  }

  /** Minute m lies inside slot s. */
  predicate During(s: TimeSlot, m: int) {
    s.start <= m < s.end
  }

  /** Two proper slots (start before end) overlap when they are on the same
      weekday and some minute lies inside both. */
  function TimeSlotsOverlap(a: TimeSlot, b: TimeSlot): (r: bool)
    ensures a.start < a.end && b.start < b.end ==>
              (r <==> a.day == b.day && exists m :: During(a, m) && During(b, m))
  {
    var r := a.day == b.day && a.start < b.end && b.start < a.end;
    var m := if a.start < b.start then b.start else a.start;
    assert a.start < a.end && b.start < b.end && r ==> During(a, m) && During(b, m);
    r
  }

  lemma TimeSlotsOverlapSymmetric(a: TimeSlot, b: TimeSlot)
    ensures TimeSlotsOverlap(a, b) == TimeSlotsOverlap(b, a)
  {
  }

  /** Linear search that stops at the first match. */
  function Contains<T(==)>(xs: seq<T>, x: T): (r: bool)
    ensures r <==> x in xs
    decreases |xs|
  {
    if xs == [] then false
    else if xs[0] == x then true
    else Contains(xs[1..], x)
  }

  /** Availability is per weekday only: no hour-level check. */
  function CheckTeacherAvailability(t: Teacher, s: TimeSlot): (r: bool)
    ensures r <==> s.day in t.available
  {
    Contains(t.available, s.day)
  }

  /** True when no gene uses a room with this room's ID in this very slot. */
  function CheckRoomAvailability(cat: Catalog, genes: seq<Gene>, room: Room, slot: nat): (r: bool)
    requires forall k | 0 <= k < |genes| :: genes[k].room < |cat.rooms|
    ensures r <==> forall k | 0 <= k < |genes| :: !(cat.rooms[genes[k].room].id == room.id && genes[k].slot == slot)
    decreases |genes|
  {
    if genes == [] then true
    else if cat.rooms[genes[0].room].id == room.id && genes[0].slot == slot then false
    else
      var r := CheckRoomAvailability(cat, genes[1..], room, slot);
      assert forall k | 1 <= k < |genes| :: genes[k] == genes[1..][k - 1];
      r
  }

  predicate CheckRoomCapacity(g: Gene, room: Room) {
    g.capacity <= room.capacity
  }

  function CheckTeacherQualification(t: Teacher, subject: string): (r: bool)
    ensures r <==> subject in t.subjects
  {
    Contains(t.subjects, subject)
  }
}
