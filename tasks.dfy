/**
 * habits/tasks.py: the reminder pass `send_habit_reminders`. The current
 * time is a parameter; `send_telegram_notification.delay` is an append to
 * an outbox, since the Telegram delivery behind it is external.
 */
module Tasks {
  import opened Wrappers
  import opened Models
  import opened Store

  /** One `send_telegram_notification.delay(chat_id, message)` request. */
  datatype Notification = Notification(chatId: string, text: string)

  /** The fixed opening of every reminder. */
  const ReminderPrefix: string := "Напоминание: Время для привычки '"

  /** The message the pass sends for a habit. */
  function ReminderText(action: string): string {
    ReminderPrefix + action + "'"
  }

  /** The time filter of the pass: same hour and minute; seconds and microseconds play no part. */
  predicate Matches(t: Time, now: Time) {
    t.hour == now.hour && t.minute == now.minute
  }

  /** `Habit.objects.filter(time__hour=now.hour, time__minute=now.minute)` over a listing. */
  function DueHabits(hs: seq<Habit>, now: Time): (r: seq<Habit>)
    ensures forall h :: h in r <==> h in hs && Matches(h.time, now)
  {
    Filter(hs, (h: Habit) => Matches(h.time, now))
  }

  /** Where u's reminders go: the chat id of u's profile, when there is a profile and the id is non-empty. */
  function ChatIdOf(profiles: map<UserId, UserProfile>, u: UserId): Option<string> {
    match ProfileOf(profiles, u)
    case Some(p) => if p.telegramChatId.Some? && p.telegramChatId.value != "" then p.telegramChatId else None
    case None => None
  }

  /** The request one due habit gives rise to: one when its owner can be reached, else none. */
  function RequestFor(h: Habit, profiles: map<UserId, UserProfile>): seq<Notification> {
    match ChatIdOf(profiles, h.user)
    case Some(c) => [Notification(c, ReminderText(h.action))]
    case None => []
  }

  /** The requests the loop enqueues for the due habits, in their order. */
  function Dispatch(due: seq<Habit>, profiles: map<UserId, UserProfile>): (r: seq<Notification>)
    ensures |r| <= |due|
  {
    if due == [] then [] else Dispatch(due[..|due| - 1], profiles) + RequestFor(due[|due| - 1], profiles)
  }

  /** Everything one pass at time `now` enqueues. */
  function Reminders(hs: seq<Habit>, profiles: map<UserId, UserProfile>, now: Time): (r: seq<Notification>)
    ensures |r| == |Filter(DueHabits(hs, now), (h: Habit) => ChatIdOf(profiles, h.user).Some?)|
    ensures forall n :: n in r ==>
      exists h :: h in hs && Matches(h.time, now) && ChatIdOf(profiles, h.user) == Some(n.chatId)
                  && n.text == ReminderText(h.action)
    ensures forall h :: h in hs && Matches(h.time, now) && ChatIdOf(profiles, h.user).Some? ==>
      Notification(ChatIdOf(profiles, h.user).value, ReminderText(h.action)) in r
  {
    DispatchSound(DueHabits(hs, now), profiles);
    DispatchCount(DueHabits(hs, now), profiles);
    DispatchComplete(DueHabits(hs, now), profiles);
    Dispatch(DueHabits(hs, now), profiles)
  }

  /** The queue behind `send_telegram_notification.delay`. */
  class Outbox {
    var sent: seq<Notification>

    constructor ()
      ensures sent == []
    {
      sent := [];
    }

    method Enqueue(chatId: string, text: string)
      modifies this
      ensures sent == old(sent) + [Notification(chatId, text)]
    {
      sent := sent + [Notification(chatId, text)];
    }
  }

  /**
   * `send_habit_reminders`: for each habit due at `now`, look up the owner's
   * profile and enqueue one reminder when it has a non-empty chat id. Habits
   * and profiles are only read.
   */
  method SendHabitReminders(store: HabitStore, outbox: Outbox, now: Time)
    requires store.Valid()
    modifies outbox
    ensures outbox.sent == old(outbox.sent) + Reminders(store.Listing(), store.profiles, now)
  {
    NotifyEach(DueHabits(store.Listing(), now), store.profiles, outbox);
  }

  /** The loop of the pass over the due habits, in their order. */
  method NotifyEach(habits: seq<Habit>, profiles: map<UserId, UserProfile>, outbox: Outbox)
    modifies outbox
    ensures outbox.sent == old(outbox.sent) + Dispatch(habits, profiles)
  {
    var i := 0;
    while i < |habits|
      invariant 0 <= i <= |habits|
      invariant outbox.sent == old(outbox.sent) + Dispatch(habits[..i], profiles)
    {
      var habit := habits[i];
      var chatId := ChatIdOf(profiles, habit.user);
      ghost var done := outbox.sent;
      if chatId.Some? {
        outbox.Enqueue(chatId.value, ReminderText(habit.action));
      }
      assert outbox.sent == done + RequestFor(habit, profiles);
      DispatchStep(old(outbox.sent), habits, i, profiles);
      i := i + 1;
    }
    assert habits[..i] == habits;
  }

  // ---------------------------------------------------------------------------
  // Properties of the pass

  /** One more habit of the selection adds its own request at the end. */
  lemma DispatchStep(sent: seq<Notification>, due: seq<Habit>, i: nat, profiles: map<UserId, UserProfile>)
    requires i < |due|
    ensures sent + Dispatch(due[..i + 1], profiles) == sent + Dispatch(due[..i], profiles) + RequestFor(due[i], profiles)
  {
    assert due[..i + 1][..i] == due[..i];
  }

  /** The habits a pass selects are exactly the stored habits at the current hour and minute, by id. */
  lemma DueHabitsOfStore(m: map<HabitId, Habit>, next: nat, now: Time)
    requires Keyed(m, next)
    ensures forall h :: h in DueHabits(Ordered(m, next), now) <==> h in m.Values && Matches(h.time, now)
    ensures Ascending(DueHabits(Ordered(m, next), now))
  {
    ListingSpec(m, next);
    FilterAscending(Ordered(m, next), (h: Habit) => Matches(h.time, now));
  }

  /** The seconds and microseconds of the current time never change which habits are due. */
  lemma {:induction false} DueIgnoresSeconds(hs: seq<Habit>, now: Time, s: Second, us: Microsecond)
    ensures DueHabits(hs, now) == DueHabits(hs, now.(second := s, microsecond := us))
  {
    if hs != [] {
      DueIgnoresSeconds(hs[..|hs| - 1], now, s, us);
    }
  }

  /** Dispatch works habit by habit: the requests for a + b are those for a, then those for b. */
  lemma {:induction false} DispatchAppend(a: seq<Habit>, b: seq<Habit>, profiles: map<UserId, UserProfile>)
    ensures Dispatch(a + b, profiles) == Dispatch(a, profiles) + Dispatch(b, profiles)
  {
    if b == [] {
      assert a + b == a;
    } else {
      var init := b[..|b| - 1];
      assert (a + b)[..|a + b| - 1] == a + init;
      assert (a + b)[|a + b| - 1] == b[|b| - 1];
      DispatchAppend(a, init, profiles);
    }
  }

  /** One due habit yields exactly one request when its owner can be reached, otherwise none. */
  lemma DispatchOne(h: Habit, profiles: map<UserId, UserProfile>)
    ensures ChatIdOf(profiles, h.user).Some? ==>
              Dispatch([h], profiles) == [Notification(ChatIdOf(profiles, h.user).value, ReminderText(h.action))]
    ensures ChatIdOf(profiles, h.user).None? ==> Dispatch([h], profiles) == []
  {
    assert [h][..0] == [];
  }

  /** The number of requests is the number of due habits whose owner has a usable chat id. */
  lemma {:induction false} DispatchCount(due: seq<Habit>, profiles: map<UserId, UserProfile>)
    ensures |Dispatch(due, profiles)| == |Filter(due, (h: Habit) => ChatIdOf(profiles, h.user).Some?)|
  {
    if due != [] {
      DispatchCount(due[..|due| - 1], profiles);
    }
  }

  /** Every request goes to the chat id of a due habit's owner and carries that habit's action. */
  lemma {:induction false} DispatchSound(due: seq<Habit>, profiles: map<UserId, UserProfile>)
    ensures forall n :: n in Dispatch(due, profiles) ==>
      exists h :: h in due && ChatIdOf(profiles, h.user) == Some(n.chatId) && n.text == ReminderText(h.action)
  {
    if due != [] {
      var init, last := due[..|due| - 1], due[|due| - 1];
      DispatchSound(init, profiles);
      forall n | n in Dispatch(due, profiles)
        ensures exists h :: h in due && ChatIdOf(profiles, h.user) == Some(n.chatId) && n.text == ReminderText(h.action)
      {
        if n in Dispatch(init, profiles) {
          var h :| h in init && ChatIdOf(profiles, h.user) == Some(n.chatId) && n.text == ReminderText(h.action);
          assert h in due;
        } else {
          assert due[|due| - 1] == last;
        }
      }
    }
  }

  /** Every due habit whose owner has a usable chat id gets its request. */
  lemma {:induction false} DispatchComplete(due: seq<Habit>, profiles: map<UserId, UserProfile>)
    ensures forall h :: h in due && ChatIdOf(profiles, h.user).Some? ==>
      Notification(ChatIdOf(profiles, h.user).value, ReminderText(h.action)) in Dispatch(due, profiles)
  {
    if due != [] {
      var init := due[..|due| - 1];
      DispatchComplete(init, profiles);
      assert due == init + [due[|due| - 1]];
    }
  }

  /** A pass at a time no habit matches enqueues nothing. */
  lemma NoMatchNoReminders(hs: seq<Habit>, profiles: map<UserId, UserProfile>, now: Time)
    requires forall h :: h in hs ==> !Matches(h.time, now)
    ensures Reminders(hs, profiles, now) == []
  {
    var due := DueHabits(hs, now);
    assert forall k | 0 <= k < |due| :: due[k] in due;
  }

  function ReminderHabit(t: Time): Habit {
    Habit(Some(1), 1, "Home", t, "Read a book", false, None, 1, "", 60, false)
  }

  function LinkedProfiles(): map<UserId, UserProfile> {
    map[1 := UserProfile(1, Some("123456789"))]
  }

  /**
   * The reminder test: a habit at 12:00:00 whose owner's chat id is "123456789"
   * gets exactly one request during the minute 12:00, whatever the second.
   */
  lemma ReminderSampleMatching(s: Second)
    ensures Reminders([ReminderHabit(Time(12, 0, 0, 0))], LinkedProfiles(), Time(12, 0, s, 0))
            == [Notification("123456789", "Напоминание: Время для привычки 'Read a book'")]
  {
    var h := ReminderHabit(Time(12, 0, 0, 0));
    assert DueHabits([h], Time(12, 0, s, 0)) == [h] by {
      assert [h][..0] == [];
    }
    assert ChatIdOf(LinkedProfiles(), 1) == Some("123456789");
    DispatchOne(h, LinkedProfiles());
    assert ReminderText("Read a book") == "Напоминание: Время для привычки 'Read a book'";
  }

  /** No request for a habit an hour off, nor for an owner whose profile has no chat id. */
  lemma ReminderSamplesSilent(s: Second)
    ensures Reminders([ReminderHabit(Time(11, 0, 0, 0))], LinkedProfiles(), Time(12, 0, s, 0)) == []
    ensures Reminders([ReminderHabit(Time(12, 0, 0, 0))], map[1 := UserProfile(1, None)], Time(12, 0, s, 0)) == []
  {
    var h := ReminderHabit(Time(12, 0, 0, 0));
    assert DueHabits([h], Time(12, 0, s, 0)) == [h] by {
      assert [h][..0] == [];
    }
    DispatchOne(h, map[1 := UserProfile(1, None)]);
    NoMatchNoReminders([ReminderHabit(Time(11, 0, 0, 0))], LinkedProfiles(), Time(12, 0, s, 0));
  }
}
