/** Operations on a habit's `completedDates`: the lookup the toggle handler
    performs with `Array.prototype.find`, MongoDB's `$pull` (which removes every
    entry equal to the key) and `$push` (which appends), combined into the
    toggle of one day key. */
module CompletedDates {
  import opened Outcomes
  import opened DayKeys

  /** No day key occurs twice. */
  predicate NoDup(dates: seq<int>) {
    forall i, j :: 0 <= i < j < |dates| ==> dates[i] != dates[j]
  }

  /** The first entry equal to `key`, scanning from the front, as `find` does. */
  function FindDate(dates: seq<int>, key: int): (r: Option<int>)
    ensures r.Some? <==> key in dates
    ensures r.Some? ==> r.value == key
  {
    if dates == [] then None
    else if dates[0] == key then Some(dates[0])
    else FindDate(dates[1..], key)
  }

  /** `$pull`: every entry equal to `key` is removed and every other entry is kept. */
  function Pull(dates: seq<int>, key: int): (r: seq<int>)
    ensures multiset(r) == multiset(dates)[key := 0]
    ensures forall x :: x in r <==> x in dates && x != key
  {
    if dates == [] then []
    else
      assert dates == [dates[0]] + dates[1..];
      if dates[0] == key then Pull(dates[1..], key)
      else [dates[0]] + Pull(dates[1..], key)
  }

  /** The day-key toggle: pull the key if it is present, push it otherwise. */
  function Toggled(dates: seq<int>, key: int): (r: seq<int>)
    ensures key in r <==> key !in dates
    ensures forall x :: x != key ==> (x in r <==> x in dates)
    ensures key in dates ==> multiset(r) == multiset(dates)[key := 0]
    ensures key !in dates ==> r == dates + [key]
  {
    if FindDate(dates, key).Some? then Pull(dates, key) else dates + [key]
  }

  /** A list without repeated keys has every key at most once in its multiset. */
  lemma NoDupMultiset(dates: seq<int>)
    ensures NoDup(dates) <==> forall x :: multiset(dates)[x] <= 1
  {
    if NoDup(dates) {
      forall x ensures multiset(dates)[x] <= 1 {
        NoDupCount(dates, x);
      }
    } else {
      var i, j :| 0 <= i < j < |dates| && dates[i] == dates[j];
      assert dates == dates[..j] + [dates[j]] + dates[j+1..];
      assert dates[i] in multiset(dates[..j]);
      assert multiset(dates)[dates[i]] >= 2;
    }
  }

  lemma {:induction false} NoDupCount(dates: seq<int>, x: int)
    requires NoDup(dates)
    ensures multiset(dates)[x] <= 1
  {
    if dates != [] {
      assert dates == [dates[0]] + dates[1..];
      assert NoDup(dates[1..]) by {
        forall i, j | 0 <= i < j < |dates[1..]| ensures dates[1..][i] != dates[1..][j] {
          assert dates[1..][i] == dates[i + 1] && dates[1..][j] == dates[j + 1];
        }
      }
      NoDupCount(dates[1..], x);
      if dates[0] == x {
        assert x !in dates[1..];
      }
    }
  }

  /** `$pull` never creates duplicates. */
  lemma PullNoDup(dates: seq<int>, key: int)
    requires NoDup(dates)
    ensures NoDup(Pull(dates, key))
  {
    NoDupMultiset(dates);
    NoDupMultiset(Pull(dates, key));
  }

  /** The toggle keeps "no duplicate day keys": it pushes only an absent key and
      pulls every copy of a present one. */
  lemma ToggledNoDup(dates: seq<int>, key: int)
    requires NoDup(dates)
    ensures NoDup(Toggled(dates, key))
  {
    if key in dates {
      PullNoDup(dates, key);
    }
  }

  /** Pulling an appended copy of a key that was absent restores the list. */
  lemma {:induction false} PullAppended(dates: seq<int>, key: int)
    requires key !in dates
    ensures Pull(dates + [key], key) == dates
  {
    if dates == [] {
    } else {
      assert (dates + [key])[1..] == dates[1..] + [key];
      PullAppended(dates[1..], key);
    }
  }

  /** Two toggles of the same key restore which keys are present, whatever the
      list held before; an absent key leaves the list exactly as it was. */
  lemma ToggleTwiceMembership(dates: seq<int>, key: int)
    ensures forall x :: x in Toggled(Toggled(dates, key), key) <==> x in dates
    ensures key !in dates ==> Toggled(Toggled(dates, key), key) == dates
  {
    if key !in dates {
      PullAppended(dates, key);
    }
  }

  /** Without duplicates, two toggles of the same key restore the multiset of
      keys exactly (a present key comes back at the end of the list). */
  lemma ToggleTwiceNoDup(dates: seq<int>, key: int)
    requires NoDup(dates)
    ensures multiset(Toggled(Toggled(dates, key), key)) == multiset(dates)
  {
    if key in dates {
      NoDupMultiset(dates);
      assert multiset(dates)[key] == 1;
      var once := Toggled(dates, key);
      assert key !in once;
      assert Toggled(once, key) == once + [key];
    } else {
      PullAppended(dates, key);
    }
  }

  /** Two toggles of a present key give the list without the key, then the key
      appended: a present key moves to the end. */
  lemma ToggleTwicePresent(dates: seq<int>, key: int)
    requires key in dates
    ensures Toggled(Toggled(dates, key), key) == Pull(dates, key) + [key]
  {
  }

  /** So the order is not always restored: `[a, b]` toggled twice at `a` becomes `[b, a]`. */
  lemma ToggleTwiceReorders(a: int, b: int)
    requires a != b
    ensures Toggled(Toggled([a, b], a), a) == [b, a]
  {
  }

  /** Day equivalence: toggling at any two instants of one calendar day is two
      toggles of the same key, so together they restore which days are marked. */
  lemma SameDayTogglesCancel(dates: seq<int>, t1: int, t2: int)
    requires DayKey(t1) <= t2 < DayKey(t1) + DayMs
    ensures forall x :: x in Toggled(Toggled(dates, DayKey(t1)), DayKey(t2)) <==> x in dates
    ensures NoDup(dates) ==> multiset(Toggled(Toggled(dates, DayKey(t1)), DayKey(t2))) == multiset(dates)
  {
    SameDayIff(t1, t2);
    ToggleTwiceMembership(dates, DayKey(t1));
    if NoDup(dates) {
      ToggleTwiceNoDup(dates, DayKey(t1));
    }
  }
}
