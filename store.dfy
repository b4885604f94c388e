/**
 * The persistent side of habits/models.py: the table of habits keyed by id
 * with nullable related_habit references, the one-to-one profile table,
 * `Habit.save` (clean, then write), and the on_delete behaviour of the two
 * foreign keys (SET_NULL for related_habit, CASCADE from the owning user).
 */
module Store {
  import opened Wrappers
  import opened Models

  // ---------------------------------------------------------------------------
  // Querysets over sequences

  /** A queryset filter: the elements of s that satisfy p, in their order in s. */
  function Filter<T(!new)>(s: seq<T>, p: T -> bool): (r: seq<T>)
    ensures |r| <= |s|
    ensures forall x :: x in r <==> x in s && p(x)
  {
    if s == [] then
      []
    else
      var init, last := s[..|s| - 1], s[|s| - 1];
      assert s == init + [last];
      Filter(init, p) + (if p(last) then [last] else [])
  }

  /** The stored habits whose id is below n, in ascending id order (`order_by("id")`). */
  function Ordered(m: map<HabitId, Habit>, n: nat): seq<Habit> {
    if n == 0 then [] else Ordered(m, n - 1) + (if n - 1 in m then [m[n - 1]] else [])
  }

  predicate Before(a: Habit, b: Habit) {
    a.id.Some? && b.id.Some? && a.id.value < b.id.value
  }

  predicate Ascending(hs: seq<Habit>) {
    forall i, j :: 0 <= i < j < |hs| ==> Before(hs[i], hs[j])
  }

  /** Every stored habit carries its own key as id. */
  predicate KeysAreIds(m: map<HabitId, Habit>) {
    forall i :: i in m ==> m[i].id == Some(i)
  }

  /** Keys are ids, and all of them are below the next id the table hands out. */
  predicate Keyed(m: map<HabitId, Habit>, next: nat) {
    KeysAreIds(m) && forall i :: i in m ==> i < next
  }

  /** No related_habit reference dangles. */
  predicate Closed(m: map<HabitId, Habit>) {
    forall i :: i in m && m[i].relatedHabit.Some? ==> m[i].relatedHabit.value in m
  }

  lemma {:induction false} OrderedSpec(m: map<HabitId, Habit>, n: nat)
    requires KeysAreIds(m)
    ensures Ascending(Ordered(m, n))
    ensures forall h :: h in Ordered(m, n) <==> h in m.Values && h.id.Some? && h.id.value < n
  {
    if n > 0 {
      OrderedSpec(m, n - 1);
      var prev, r := Ordered(m, n - 1), Ordered(m, n);
      if n - 1 in m {
        assert r == prev + [m[n - 1]];
        forall i, j | 0 <= i < j < |r| ensures Before(r[i], r[j]) {
          if j == |r| - 1 {
            assert r[i] in prev;
          }
        }
      } else {
        assert r == prev;
      }
      forall h | h in m.Values && h.id.Some? && h.id.value < n ensures h in r {
        var k :| k in m && m[k] == h;
        if k == n - 1 {
          assert r[|r| - 1] == h;
        }
      }
    }
  }

  /** With every key below `next`, the ordered listing holds exactly the stored habits, ascending. */
  lemma ListingSpec(m: map<HabitId, Habit>, next: nat)
    requires Keyed(m, next)
    ensures Ascending(Ordered(m, next))
    ensures forall h :: h in Ordered(m, next) <==> h in m.Values
  {
    OrderedSpec(m, next);
    forall h | h in m.Values ensures h.id.Some? && h.id.value < next {
      var k :| k in m && m[k] == h;
    }
  }

  /** Filtering keeps the relative order, so an ascending listing stays ascending. */
  lemma {:induction false} FilterAscending(hs: seq<Habit>, p: Habit -> bool)
    requires Ascending(hs)
    ensures Ascending(Filter(hs, p))
  {
    if hs != [] {
      var init, last := hs[..|hs| - 1], hs[|hs| - 1];
      FilterAscending(init, p);
      var f := Filter(init, p);
      if p(last) {
        var r := Filter(hs, p);
        assert r == f + [last];
        forall i, j | 0 <= i < j < |r| ensures Before(r[i], r[j]) {
          if j == |r| - 1 {
            assert r[i] in init;
            var k :| 0 <= k < |init| && init[k] == r[i];
            assert hs[k] == r[i];
          }
        }
      }
    }
  }

  // ---------------------------------------------------------------------------
  // Deletion: SET_NULL on related_habit

  /** The row as the database leaves it when the habits in `gone` are deleted. */
  function Detach(h: Habit, gone: set<HabitId>): Habit {
    if h.relatedHabit.Some? && h.relatedHabit.value in gone then h.(relatedHabit := None) else h
  }

  /** The habit table after the rows in `gone` are deleted. */
  function RemoveHabits(m: map<HabitId, Habit>, gone: set<HabitId>): (r: map<HabitId, Habit>)
    ensures r.Keys == m.Keys - gone
    ensures forall i :: i in r ==> r[i].(relatedHabit := m[i].relatedHabit) == m[i]
    ensures forall i :: i in r && r[i].relatedHabit.Some? ==> r[i].relatedHabit.value !in gone
    ensures forall i :: i in r && m[i].relatedHabit.Some? && m[i].relatedHabit.value !in gone ==>
              r[i].relatedHabit == m[i].relatedHabit
  {
    map i | i in m && i !in gone :: Detach(m[i], gone)
  }

  /**
   * Deleting rows keeps the table well formed, removes exactly those rows,
   * nulls the references to them and leaves every other field as it was.
   */
  lemma RemoveHabitsSpec(m: map<HabitId, Habit>, next: nat, gone: set<HabitId>)
    requires Keyed(m, next) && Closed(m)
    ensures var r := RemoveHabits(m, gone);
      && r.Keys == m.Keys - gone
      && Keyed(r, next) && Closed(r)
      && (forall i :: i in r ==> r[i].(relatedHabit := m[i].relatedHabit) == m[i])
      && (forall i :: i in r ==>
            (r[i].relatedHabit.None? <==> m[i].relatedHabit.None? || m[i].relatedHabit.value in gone))
      && (forall i :: i in r && m[i].relatedHabit.Some? && m[i].relatedHabit.value !in gone ==>
            r[i].relatedHabit == m[i].relatedHabit)
  {
    var r := RemoveHabits(m, gone);
    assert r.Keys == m.Keys - gone;
  }

  /** The ids of the habits a user owns: what the CASCADE from the user deletes. */
  function OwnedBy(m: map<HabitId, Habit>, u: UserId): set<HabitId> {
    set i | i in m && m[i].user == u
  }

  /**
   * The CASCADE from a deleted user: none of the user's habits is left, every
   * habit of another user stays, and it changes at most by losing a reference
   * to one of the deleted habits.
   */
  lemma CascadeSpec(m: map<HabitId, Habit>, next: nat, u: UserId)
    requires Keyed(m, next) && Closed(m)
    ensures var r := RemoveHabits(m, OwnedBy(m, u));
      && Keyed(r, next) && Closed(r)
      && (forall i :: i in r ==> r[i].user != u)
      && (forall i :: i in m && m[i].user != u ==> i in r)
      && (forall i :: i in r ==>
            || r[i] == m[i]
            || (r[i] == m[i].(relatedHabit := None) && m[m[i].relatedHabit.value].user == u))
      && (forall i :: i in r && m[i].relatedHabit.Some? && m[m[i].relatedHabit.value].user == u ==>
            r[i].relatedHabit.None?)
  {
    var gone := OwnedBy(m, u);
    RemoveHabitsSpec(m, next, gone);
  }

  // ---------------------------------------------------------------------------
  // The store

  /**
   * Why `Habit.save` fails: clean's lookup of the related habit found no row,
   * clean raised a rule, or the database refused a dangling reference.
   */
  datatype SaveError = DoesNotExist | Invalid(rule: CleanError) | IntegrityError

  /** The primary key a save writes: the habit's own id, or the next one for a new row. */
  function SaveTarget(h: Habit, next: HabitId): HabitId {
    if h.id.Some? then h.id.value else next
  }

  /** The related_habit of h names a row that exists once h is written at `target`. */
  predicate Resolves(m: map<HabitId, Habit>, h: Habit, target: HabitId) {
    h.relatedHabit.None? || h.relatedHabit.value in m || h.relatedHabit.value == target
  }

  /** `UserProfile.objects.filter(user=u).first()`. */
  function ProfileOf(profiles: map<UserId, UserProfile>, u: UserId): Option<UserProfile> {
    if u in profiles then Some(profiles[u]) else None
  }

  class HabitStore {
    var habits: map<HabitId, Habit>
    var profiles: map<UserId, UserProfile>
    var nextId: HabitId

    /** Rows are keyed by their ids, references resolve, and a user has at most one profile. */
    ghost predicate Valid()
      reads this
    {
      && Keyed(habits, nextId)
      && Closed(habits)
      && forall u :: u in profiles ==> profiles[u].user == u
    }

    constructor ()
      ensures Valid()
      ensures habits == map[] && profiles == map[] && nextId == 1
    {
      habits, profiles, nextId := map[], map[], 1;
    }

    /** All habits in ascending id order. */
    function Listing(): seq<Habit>
      reads this
    {
      Ordered(habits, nextId)
    }

    /**
     * `Habit.save`: clean runs first, looking the related habit up when it
     * reads it; its error leaves the table as it was. Otherwise the row is
     * written under its id (a new habit gets the next id).
     */
    method Save(h: Habit) returns (r: Result<HabitId, SaveError>)
      requires Valid()
      modifies this
      ensures Valid()
      ensures profiles == old(profiles)
      ensures RelatedLookupFails(h, old(habits).Keys) ==> r == Failure(DoesNotExist)
      ensures !RelatedLookupFails(h, old(habits).Keys) && Clean(h).Fail? ==> r == Failure(Invalid(Clean(h).error))
      ensures Clean(h).Pass? && !Resolves(old(habits), h, SaveTarget(h, old(nextId))) ==> r == Failure(IntegrityError)
      ensures r.Success? <==> Clean(h).Pass? && Resolves(old(habits), h, SaveTarget(h, old(nextId)))
      ensures r.Failure? ==> habits == old(habits) && nextId == old(nextId)
      ensures r.Success? ==> r.value == SaveTarget(h, old(nextId))
      ensures r.Success? ==> habits == old(habits)[r.value := h.(id := Some(r.value))]
      ensures r.Success? ==> nextId == (if r.value < old(nextId) then old(nextId) else r.value + 1)
    {
      if h.relatedHabit.Some? && (h.reward != "" || h.isPleasant) && h.relatedHabit.value !in habits {
        return Failure(DoesNotExist);
      }
      var outcome := Clean(h);
      if outcome.Fail? {
        return Failure(Invalid(outcome.error));
      }
      var target := if h.id.Some? then h.id.value else nextId;
      if h.relatedHabit.Some? && h.relatedHabit.value !in habits && h.relatedHabit.value != target {
        return Failure(IntegrityError);
      }
      habits := habits[target := h.(id := Some(target))];
      if nextId <= target {
        nextId := target + 1;
      }
      r := Success(target);
    }

    /** Deleting a habit: its row goes and every related_habit naming it becomes NULL. */
    method Delete(id: HabitId)
      requires Valid()
      modifies this
      ensures Valid()
      ensures habits == RemoveHabits(old(habits), {id})
      ensures profiles == old(profiles) && nextId == old(nextId)
    {
      RemoveHabitsSpec(habits, nextId, {id});
      habits := RemoveHabits(habits, {id});
    }

    /** Deleting a user cascades to the user's habits (nulling references to them) and profile. */
    method DeleteUser(u: UserId)
      requires Valid()
      modifies this
      ensures Valid()
      ensures habits == RemoveHabits(old(habits), OwnedBy(old(habits), u))
      ensures profiles == old(profiles) - {u}
      ensures nextId == old(nextId)
    {
      var gone := OwnedBy(habits, u);
      RemoveHabitsSpec(habits, nextId, gone);
      habits := RemoveHabits(habits, gone);
      profiles := profiles - {u};
    }

    /** `UserProfile.objects.get_or_create(user=u)`: the existing profile, or a new empty one. */
    method GetOrCreateProfile(u: UserId) returns (p: UserProfile)
      requires Valid()
      modifies this
      ensures Valid()
      ensures habits == old(habits) && nextId == old(nextId)
      ensures p.user == u && u in profiles && profiles[u] == p
      ensures u in old(profiles) ==> profiles == old(profiles)
      ensures u !in old(profiles) ==> p.telegramChatId.None? && profiles == old(profiles)[u := p]
    {
      if u in profiles {
        p := profiles[u];
      } else {
        p := UserProfile(u, None);
        profiles := profiles[u := p];
      }
    }

    /** `profile.save()`: writes the profile row of its user. */
    method SaveProfile(p: UserProfile)
      requires Valid()
      modifies this
      ensures Valid()
      ensures habits == old(habits) && nextId == old(nextId)
      ensures profiles == old(profiles)[p.user := p]
    {
      profiles := profiles[p.user := p];
    }
  }
}
