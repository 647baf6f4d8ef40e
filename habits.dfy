/** The habit directory and toggle engine of `HabitsController`: an in-memory
    collection of habits in place of the MongoDB collection, with the four
    handlers `store`, `index`, `remove` and `toggle` as methods. */
module Habits {
  import opened Outcomes
  import opened DayKeys
  import opened CompletedDates
  import opened NameOrder

  /** A stored habit; `id` stands for the document's `_id`. */
  datatype Habit = Habit(id: nat, name: string, completedDates: seq<int>)

  predicate UniqueIds(hs: seq<Habit>) {
    forall i, j :: 0 <= i < j < |hs| ==> hs[i].id != hs[j].id
  }

  predicate UniqueNames(hs: seq<Habit>) {
    forall i, j :: 0 <= i < j < |hs| ==> hs[i].name != hs[j].name
  }

  /** Completion keys are day starts and none is repeated. */
  predicate WellFormedDates(dates: seq<int>) {
    NoDup(dates) && forall k :: k in dates ==> IsDayStart(k)
  }

  /** The invariant of the collection: unique ids below the next fresh id,
      unique names, well-formed completion lists. */
  predicate ValidCollection(hs: seq<Habit>, nextId: nat) {
    && UniqueIds(hs)
    && UniqueNames(hs)
    && forall i :: 0 <= i < |hs| ==> hs[i].id < nextId && WellFormedDates(hs[i].completedDates)
  }

  /** `findOne({ name })`: the index of the first habit with that name. */
  function FindByName(hs: seq<Habit>, name: string): (r: Option<nat>)
    ensures r.None? <==> forall i :: 0 <= i < |hs| ==> hs[i].name != name
    ensures r.Some? ==> r.value < |hs| && hs[r.value].name == name
    ensures r.Some? ==> forall j :: 0 <= j < r.value ==> hs[j].name != name
  {
    if hs == [] then None
    else if hs[0].name == name then Some(0)
    else match FindByName(hs[1..], name)
      case None => None
      case Some(i) => Some(i + 1)
  }

  /** `findOne({ _id })`: the index of the first habit with that id. */
  function FindById(hs: seq<Habit>, id: nat): (r: Option<nat>)
    ensures r.None? <==> forall i :: 0 <= i < |hs| ==> hs[i].id != id
    ensures r.Some? ==> r.value < |hs| && hs[r.value].id == id
    ensures r.Some? ==> forall j :: 0 <= j < r.value ==> hs[j].id != id
  {
    if hs == [] then None
    else if hs[0].id == id then Some(0)
    else match FindById(hs[1..], id)
      case None => None
      case Some(i) => Some(i + 1)
  }

  /** The collection with every habit of id `id` deleted. */
  function WithoutId(hs: seq<Habit>, id: nat): (r: seq<Habit>)
    ensures forall h :: h in r <==> h in hs && h.id != id
  {
    if hs == [] then []
    else if hs[0].id == id then WithoutId(hs[1..], id)
    else [hs[0]] + WithoutId(hs[1..], id)
  }

  /** With unique ids, deleting by id removes exactly the one habit that has it. */
  lemma {:induction false} WithoutIdAt(hs: seq<Habit>, i: nat)
    requires UniqueIds(hs) && i < |hs|
    ensures WithoutId(hs, hs[i].id) == hs[..i] + hs[i + 1..]
  {
    var id := hs[i].id;
    var tail := hs[1..];
    if i == 0 {
      assert forall h :: h in tail ==> h.id != id;
      WithoutIdAbsent(tail, id);
    } else {
      assert hs[0].id != id;
      assert WithoutId(hs, id) == [hs[0]] + WithoutId(tail, id);
      TailUniqueIds(hs);
      assert tail[i - 1] == hs[i];
      WithoutIdAt(tail, i - 1);
      assert hs[..i] == [hs[0]] + tail[..i - 1];
      assert hs[i + 1..] == tail[i..];
    }
  }

  lemma TailUniqueIds(hs: seq<Habit>)
    requires UniqueIds(hs) && hs != []
    ensures UniqueIds(hs[1..])
  {
  }

  lemma {:induction false} WithoutIdAbsent(hs: seq<Habit>, id: nat)
    requires forall h :: h in hs ==> h.id != id
    ensures WithoutId(hs, id) == hs
  {
    if hs != [] {
      assert hs == [hs[0]] + hs[1..];
      WithoutIdAbsent(hs[1..], id);
    }
  }

  /** Ascending by name, pair by pair. */
  predicate SortedByName(hs: seq<Habit>) {
    forall i, j :: 0 <= i < j < |hs| ==> NameLe(hs[i].name, hs[j].name)
  }

  /** Insert `h` before the first habit whose name is not below its own. */
  function InsertByName(h: Habit, s: seq<Habit>): (r: seq<Habit>)
    ensures multiset(r) == multiset(s) + multiset{h}
  {
    if s == [] then [h]
    else if NameLe(h.name, s[0].name) then [h] + s
    else
      assert s == [s[0]] + s[1..];
      [s[0]] + InsertByName(h, s[1..])
  }

  /** Insertion sort by name: the order `sort({ name: 1 })` delivers. */
  function SortByName(hs: seq<Habit>): (r: seq<Habit>)
    ensures multiset(r) == multiset(hs)
  {
    if hs == [] then []
    else
      assert hs == [hs[0]] + hs[1..];
      InsertByName(hs[0], SortByName(hs[1..]))
  }

  lemma {:induction false} InsertByNameSorted(h: Habit, s: seq<Habit>)
    requires SortedByName(s)
    ensures SortedByName(InsertByName(h, s))
  {
    if s == [] {
    } else if NameLe(h.name, s[0].name) {
      forall j | 0 <= j < |s| ensures NameLe(h.name, s[j].name) {
        if j > 0 {
          NameLeTransitive(h.name, s[0].name, s[j].name);
        }
      }
      assert forall j :: 1 <= j < |[h] + s| ==> ([h] + s)[j] == s[j - 1];
    } else {
      NameLeTotal(h.name, s[0].name);
      var tail := s[1..];
      TailSorted(s);
      InsertByNameSorted(h, tail);
      var rest := InsertByName(h, tail);
      forall j | 0 <= j < |rest| ensures NameLe(s[0].name, rest[j].name) {
        assert rest[j] in multiset(rest);
        if rest[j] != h {
          assert rest[j] in multiset(tail);
          var k :| 0 <= k < |tail| && tail[k] == rest[j];
          assert s[k + 1] == rest[j];
        }
      }
      assert forall j :: 1 <= j < |[s[0]] + rest| ==> ([s[0]] + rest)[j] == rest[j - 1];
    }
  }

  /** The listing is sorted by name. */
  lemma {:induction false} SortByNameSorted(hs: seq<Habit>)
    ensures SortedByName(SortByName(hs))
  {
    if hs != [] {
      SortByNameSorted(hs[1..]);
      InsertByNameSorted(hs[0], SortByName(hs[1..]));
    }
  }

  /** With unique names there is only one sorted arrangement of a collection. */
  lemma {:induction false} SortedArrangementUnique(a: seq<Habit>, b: seq<Habit>)
    requires SortedByName(a) && SortedByName(b)
    requires multiset(a) == multiset(b)
    requires UniqueNames(a)
    ensures a == b
    decreases |a|
  {
    assert |a| == |multiset(a)| == |multiset(b)| == |b|;
    if a != [] {
      SortedHeadsEqual(a, b);
      var ta, tb := a[1..], b[1..];
      assert a == [a[0]] + ta && b == [b[0]] + tb;
      assert multiset(ta) == multiset(a) - multiset{a[0]};
      assert multiset(tb) == multiset(b) - multiset{a[0]};
      TailSorted(a);
      TailSorted(b);
      TailUniqueNames(a);
      SortedArrangementUnique(ta, tb);
    }
  }

  /** Two sorted arrangements of one collection with unique names start alike. */
  lemma SortedHeadsEqual(a: seq<Habit>, b: seq<Habit>)
    requires SortedByName(a) && SortedByName(b)
    requires multiset(a) == multiset(b)
    requires UniqueNames(a)
    requires a != [] && b != []
    ensures a[0] == b[0]
  {
    assert a[0] in multiset(b) && b[0] in multiset(a);
    var i :| 0 <= i < |b| && b[i] == a[0];
    var j :| 0 <= j < |a| && a[j] == b[0];
    assert NameLe(b[0].name, a[0].name) by {
      if i > 0 { assert NameLe(b[0].name, b[i].name); } else { NameLeReflexive(b[0].name); }
    }
    assert NameLe(a[0].name, b[0].name) by {
      if j > 0 { assert NameLe(a[0].name, a[j].name); } else { NameLeReflexive(a[0].name); }
    }
    NameLeAntisymmetric(a[0].name, b[0].name);
    assert j == 0;
  }

  lemma TailSorted(s: seq<Habit>)
    requires SortedByName(s) && s != []
    ensures SortedByName(s[1..])
  {
  }

  lemma TailUniqueNames(s: seq<Habit>)
    requires UniqueNames(s) && s != []
    ensures UniqueNames(s[1..])
  {
  }

  /** The listing does not depend on the order in which habits were inserted. */
  lemma ListingIndependentOfInsertionOrder(hs1: seq<Habit>, hs2: seq<Habit>)
    requires multiset(hs1) == multiset(hs2)
    requires UniqueNames(hs1)
    ensures SortByName(hs1) == SortByName(hs2)
  {
    SortByNameSorted(hs1);
    SortByNameSorted(hs2);
    UniqueNamesPermutation(hs1, SortByName(hs1));
    SortedArrangementUnique(SortByName(hs1), SortByName(hs2));
  }

  /** Rearranging a collection keeps its names unique. */
  lemma UniqueNamesPermutation(a: seq<Habit>, b: seq<Habit>)
    requires multiset(a) == multiset(b)
    requires UniqueNames(a)
    ensures UniqueNames(b)
  {
    forall x, y | 0 <= x < y < |b| ensures b[x].name != b[y].name {
      if b[x].name == b[y].name {
        assert b[x] in multiset(a) && b[y] in multiset(a);
        var p :| 0 <= p < |a| && a[p] == b[x];
        var q :| 0 <= q < |a| && a[q] == b[y];
        assert p == q;
        assert b == b[..y] + [b[y]] + b[y + 1..];
        assert b[x] in b[..y];
        assert multiset(b)[b[y]] >= 2;
        UniqueNamesCount(a, b[y]);
        assert false;
      }
    }
  }

  lemma {:induction false} UniqueNamesCount(a: seq<Habit>, h: Habit)
    requires UniqueNames(a)
    ensures multiset(a)[h] <= 1
  {
    if a != [] {
      assert a == [a[0]] + a[1..];
      TailUniqueNames(a);
      UniqueNamesCount(a[1..], h);
      if a[0] == h {
        assert forall k :: 0 <= k < |a[1..]| ==> a[1..][k] != h;
      }
    }
  }

  /** The habits handlers over an in-memory collection. */
  class HabitsController {
    var habits: seq<Habit>
    var nextId: nat

    ghost predicate Valid()
      reads this
    {
      ValidCollection(habits, nextId)
    }

    constructor ()
      ensures Valid() && habits == [] && nextId == 0
    {
      habits := [];
      nextId := 0;
    }

    /** `store`: refuse a name already taken, otherwise insert a habit with no
        completed dates under a fresh id. */
    method Store(name: string) returns (r: Result<Habit>)
      requires Valid()
      modifies this
      ensures Valid()
      ensures r.Err? <==> exists h :: h in old(habits) && h.name == name
      ensures r.Err? ==> r.error == DuplicateName && habits == old(habits) && nextId == old(nextId)
      ensures r.Ok? ==> && r.value == Habit(old(nextId), name, [])
                        && habits == old(habits) + [r.value]
                        && nextId == old(nextId) + 1
    {
      var found := FindByName(habits, name);
      if found.Some? {
        assert habits[found.value] in habits;
        return Err(DuplicateName);
      }
      var h := Habit(nextId, name, []);
      habits := habits + [h];
      nextId := nextId + 1;
      r := Ok(h);
    }

    /** `index`: every stored habit, ascending by name. */
    method Index() returns (r: seq<Habit>)
      ensures SortedByName(r)
      ensures multiset(r) == multiset(habits)
    {
      r := SortByName(habits);
      SortByNameSorted(habits);
    }

    /** `remove`: not found for an unknown id, otherwise delete that habit. */
    method Remove(id: nat) returns (r: Result<()>)
      requires Valid()
      modifies this
      ensures Valid() && nextId == old(nextId)
      ensures r.Err? <==> forall h :: h in old(habits) ==> h.id != id
      ensures r.Err? ==> r.error == NotFound && habits == old(habits)
      ensures r.Ok? ==> habits == WithoutId(old(habits), id) && |habits| == |old(habits)| - 1
      ensures FindById(habits, id).None?
    {
      var found := FindById(habits, id);
      if found.None? {
        return Err(NotFound);
      }
      var i := found.value;
      WithoutIdAt(habits, i);
      assert habits[i] in habits;
      habits := habits[..i] + habits[i + 1..];
      r := Ok(());
    }

    /** `toggle`: not found for an unknown id; otherwise the start of the day of
        `now` is pulled from the habit's completed dates if present and pushed
        otherwise, and the updated habit is returned. */
    method Toggle(id: nat, now: int) returns (r: Result<Habit>)
      requires Valid()
      modifies this
      ensures Valid() && nextId == old(nextId)
      ensures r.Err? <==> forall h :: h in old(habits) ==> h.id != id
      ensures match FindById(old(habits), id)
        case None => r == Err(NotFound) && habits == old(habits)
        case Some(i) =>
          && i < |old(habits)|
          && habits == old(habits)[i := old(habits)[i].(completedDates := Toggled(old(habits)[i].completedDates, DayKey(now)))]
          && r == Ok(habits[i])
    {
      var found := FindById(habits, id);
      if found.None? {
        return Err(NotFound);
      }
      var i := found.value;
      assert habits[i] in habits;
      var key := DayKey(now);
      var h := habits[i];
      var completed := FindDate(h.completedDates, key);
      if completed.Some? {
        h := h.(completedDates := Pull(h.completedDates, key));
      } else {
        h := h.(completedDates := h.completedDates + [key]);
      }
      ToggledNoDup(habits[i].completedDates, key);
      habits := habits[i := h];
      r := Ok(h);
    }
  }

  /** Uniqueness: whatever a first `store` of a name returned, a second one
      with the same name is refused and leaves the collection as it was. */
  method StoreTwice(c: HabitsController, name: string) returns (first: Result<Habit>, second: Result<Habit>)
    requires c.Valid()
    modifies c
    ensures c.Valid()
    ensures second == Err(DuplicateName)
    ensures first.Ok? ==> c.habits == old(c.habits) + [first.value]
    ensures first.Err? ==> c.habits == old(c.habits)
  {
    first := c.Store(name);
    if first.Ok? {
      assert c.habits[|c.habits| - 1] == first.value;
    }
    second := c.Store(name);
  }

  /** Two toggles of one habit at instants of the same day give every habit back
      its id, its name and its set of completed days. */
  method ToggleSameDayTwice(c: HabitsController, id: nat, t1: int, t2: int)
    returns (first: Result<Habit>, second: Result<Habit>)
    requires c.Valid()
    requires DayKey(t1) <= t2 < DayKey(t1) + DayMs
    modifies c
    ensures c.Valid()
    ensures |c.habits| == |old(c.habits)|
    ensures forall j :: 0 <= j < |c.habits| ==>
      && c.habits[j].id == old(c.habits[j].id)
      && c.habits[j].name == old(c.habits[j].name)
      && multiset(c.habits[j].completedDates) == multiset(old(c.habits[j].completedDates))
  {
    ghost var before := c.habits;
    first := c.Toggle(id, t1);
    second := c.Toggle(id, t2);
    match FindById(before, id)
    case None =>
    case Some(i) =>
      SameDayTogglesCancel(before[i].completedDates, t1, t2);
  }

  /** A scenario: create "Meditate", list it, toggle it at 08:00
      and again at 23:00 of 5 March 2024 (UTC). */
  method MeditateScenario()
  {
    var c := new HabitsController();
    var created := c.Store("Meditate");
    assert created == Ok(Habit(0, "Meditate", []));
    var listed := c.Index();
    assert |multiset(listed)| == 1;
    assert listed == [Habit(0, "Meditate", [])] by {
      assert listed[0] in multiset(c.habits);
    }
    var morning := 1_709_596_800_000 + 8 * 3_600_000;
    var evening := 1_709_596_800_000 + 23 * 3_600_000;
    DayKeyUnique(1_709_596_800_000, morning);
    DayKeyUnique(1_709_596_800_000, evening);
    assert c.habits == [Habit(0, "Meditate", [])];
    assert FindById(c.habits, 0) == Some(0);
    var once := c.Toggle(0, morning);
    assert DayKey(morning) == 1_709_596_800_000;
    assert Toggled([], DayKey(morning)) == [1_709_596_800_000];
    assert c.habits == [Habit(0, "Meditate", [1_709_596_800_000])];
    assert once == Ok(Habit(0, "Meditate", [1_709_596_800_000]));
    assert FindById(c.habits, 0) == Some(0);
    var twice := c.Toggle(0, evening);
    assert twice == Ok(Habit(0, "Meditate", []));
  }
}
