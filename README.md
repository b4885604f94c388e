# Habit tracker core in Dafny

A model of the core of a Django habit-tracking service. Users keep *habits*:
an action done at a time of day in a place. A habit may be *pleasant*, may
carry a reward, and may point to another habit as its `related_habit`. The
service sends a Telegram reminder when a habit's time comes. The model covers:

- the consistency guard `Habit.clean`, which `Habit.save` runs before every
  write, and the field validators that `full_clean` adds (frequency 1–7,
  duration at most 120, the blank and length limits);
- `Habit.__str__` and the text form of a time of day;
- the habit table keyed by id, with nullable `related_habit` references:
  `save` (clean, then write), deleting a habit (the references to it become
  NULL) and deleting a user (the user's habits and profile go too);
- `HabitSerializer`: field-level checks on the submitted values (a key may
  be left out, sent as null or given a value; the text fields are trimmed of
  surrounding whitespace first, as `str.strip()` does), then
  the four ordered rules of `validate`; the `user` field is read-only;
- the reminder pass `send_habit_reminders`, which appends
  `(chat_id, message)` requests to an outbox;
- the views: the owner-or-read-only permission, the chat-id upsert, the
  owner list, the public list, and `perform_create`.

Files: `wrappers.dfy` (Option, Result, Outcome), `models.dfy` (records,
`clean`, `full_clean`, `__str__`), `store.dfy` (the tables and `save` /
delete), `serializers.dfy`, `tasks.dfy`, `views.dfy`.

Four facts about the code that a reader might expect otherwise:

- `Habit.clean` does not check that the related habit is pleasant; only the
  serializer does. A habit that names itself as related habit passes `clean`
  unless another rule stops it (`Models.CleanAcceptsSelfReference`). The test
  at habits/tests.py:241-243 expects a self-reference to fail; it does only
  because that habit also has a reward.
- Duration has no lower bound in the code. A PositiveIntegerField admits 0,
  so 0 through 120 are valid.
- Nothing checks that a related habit belongs to the same user. The serializer
  resolves any stored id.
- `validate` can never report its own frequency rule. The field validator
  `MaxValueValidator(7)` refuses frequency 8 first, with an error keyed to
  `frequency` (`Serializers.FrequencyRuleUnreachable`).

## Model

| member | source | states |
|---|---|---|
| `Models.Clean` | habits/models.py:25-36 | passes exactly when no rule is broken; on failure it raises the first broken rule in source order (reward with related, then pleasant with extras, then frequency above 7) |
| `Models.CleanRejectsRewardWithRelated` | habits/models.py:26-27 | a non-empty reward together with a related habit is refused with the first message |
| `Models.CleanRejectsPleasantWithExtras` | habits/models.py:28-31 | a pleasant habit with a reward or a related habit is refused |
| `Models.CleanFrequencyBounds` | habits/models.py:32-35 | frequency above 7 is refused by clean; frequency 0 passes clean, and only the field validator refuses it, with an error on `frequency` |
| `Models.CleanIgnoresRelatedPleasantness` | habits/models.py:25-36 | a non-pleasant habit with no reward passes clean with any related habit, pleasant or not |
| `Models.CleanAcceptsSelfReference` | habits/tests.py:241-243 | a habit whose related habit is itself is accepted exactly when no other rule is broken |
| `Models.CleanAcceptsSample` | habits/tests.py:229-239 | the test habit (reward "Cookie", no related habit, frequency 1) passes clean and full_clean; with a related habit it is refused |
| `Models.FullClean` | habits/models.py:9-36 | accepted exactly when place, action and reward are within their limits, a set related_habit names a stored row, frequency is in 1..7, duration is at most 120 and no clean rule is broken; clean runs even when a field fails; when clean reads a related habit that names no row, `Habit.DoesNotExist` escapes instead of a report |
| `Models.LookupOnlyWhereCleanRefuses` | habits/models.py:26-31 | clean reads the related habit only on habits its first two rules refuse, so a failed lookup replaces one of those errors and never a pass |
| `Models.FullCleanStricterThanClean` | habits/tests.py:261-270 | whatever full_clean accepts, clean accepts, with frequency in 1..7, duration at most 120 (so duration 150 is refused) and no dangling related habit |
| `Models.TimeRoundTrip` | habits/models.py:42-43 | the HH:MM:SS[.ffffff] text of a time reads back to the same time |
| `Models.ClockRoundTrip` | habits/models.py:42-43 | the HH:MM:SS part of that text reads back to the hour, minute and second |
| `Models.Str` | habits/models.py:42-43 | the rendering starts with the action and is 16 characters longer than action and place together (23 when the time has microseconds) |
| `Models.StrDecomposes` | habits/models.py:42-43 | `__str__` is the action, " at ", a text that reads back to the habit's time, then " in " and the place |
| `Models.StrSample` | habits/tests.py:219-227 | the test habit renders as "Read a book at 12:00:00 in Home" |
| `Store.OrderedSpec` | habits/views.py:62-63 | the id-ordered listing is strictly ascending by id and holds exactly the stored habits below the bound |
| `Store.RemoveHabits` | habits/models.py:13-15 | the remaining rows are exactly those not deleted; no remaining reference names a deleted row; a reference to a surviving row and every other field are kept |
| `Store.RemoveHabitsSpec` | habits/models.py:13-15 | deleting rows removes exactly them, keeps ids and references well formed, nulls every related_habit that named a deleted row, keeps every other related_habit as it was and changes no other field |
| `Store.CascadeSpec` | habits/models.py:8-15 | deleting a user leaves none of that user's habits, keeps every habit of other users, and changes such a habit at most by nulling a reference to one of the deleted habits |
| `Store.HabitStore.Save` | habits/models.py:25-40 | clean runs first: when it reads a related habit that names no row (a reward is set, or the habit is pleasant) the lookup raises `Habit.DoesNotExist`, and otherwise its rule error is raised; either leaves the table unchanged. Otherwise the row is written under its id, or under the next id when new, and the id counter moves past the written id; a reference to no row that clean did not read is refused with IntegrityError and changes nothing |
| `Store.HabitStore.Delete` | habits/models.py:13-15 | the table afterwards is the old one without the row, with every reference to it set to NULL; profiles unchanged |
| `Store.HabitStore.DeleteUser` | habits/models.py:8 | the user's habits are deleted (references to them nulled) and the user's profile goes |
| `Store.HabitStore.GetOrCreateProfile` | habits/views.py:46 | returns the existing profile, or adds one with no chat id; there is never more than one profile per user |
| `Store.HabitStore.SaveProfile` | habits/views.py:48 | writes the profile row of its user and nothing else |
| `Serializers.Validate` | habits/serializers.py:16-43 | returns the data unchanged exactly when no rule is broken; otherwise raises the first broken rule in source order |
| `Serializers.ValidateRejectsRewardWithRelated` | habits/serializers.py:25-28 | a non-empty reward with a related habit is refused with the first message |
| `Serializers.ValidatePleasantWins` | habits/serializers.py:29-34 | a pleasant habit with extras is refused, and never with the related-must-be-pleasant message |
| `Serializers.ValidateRelatedMustBePleasant` | habits/serializers.py:35-38 | with no other rule in the way, a related habit passes exactly when it is pleasant |
| `Serializers.ValidateFrequencyDefault` | habits/serializers.py:39-42 | a missing frequency is judged as 1; a frequency above 7 is refused |
| `Serializers.IsValid` | habits/serializers.py:11-14 | any field error stops it with exactly the set of failing fields; a null is refused on every field but related_habit, and a negative number is refused; with no field error, it succeeds exactly when validate passes on the trimmed, resolved data, returns that data, and otherwise reports validate's error |
| `Serializers.FieldErrorsSpec` | habits/serializers.py:11-14 | every field is checked: a field is among the reported errors exactly when its own check fails |
| `Serializers.StripSpec` | habits/serializers.py:11-13 | the text a CharField keeps is one run of the input with no whitespace at either end, everything dropped before and after it being whitespace; it is empty exactly when the input is all whitespace |
| `Serializers.StripIdempotent` | habits/serializers.py:11-13 | trimming already-trimmed text changes nothing |
| `Serializers.UserIsReadOnly` | habits/serializers.py:14 | the outcome of is_valid does not depend on a submitted user |
| `Serializers.FrequencyRuleUnreachable` | habits/tests.py:154-159 | frequency 8 is a field error on `frequency`; validate's own frequency rule is never the reported error |
| `Serializers.Instantiate` | habits/views.py:65-66 | the built habit is unsaved and owned by the requesting user; place, time, action, duration and the related habit's id are the validated ones; is_pleasant, is_public, reward and frequency are the validated ones or the model defaults (false, false, empty, 1) |
| `Serializers.ValidateImpliesClean` | habits/serializers.py:25-42 | data that passed validate builds a habit that clean accepts |
| `Serializers.ValidatedCreateIsClean` | habits/serializers.py:16-43 | a submission accepted for creation builds a habit that full_clean accepts and whose related habit is stored |
| `Serializers.SerializerSamples` | habits/tests.py:106-140 | the test data passes, alone and with a pleasant related habit |
| `Serializers.RelatedNotPleasantSample` | habits/tests.py:142-152 | an unpleasant related habit is a non-field error carrying "Связанная привычка должна быть приятной." |
| `Serializers.FieldErrorSamples` | habits/tests.py:110-159 | frequency 8 is an error on `frequency` alone; duration 150 is refused |
| `Serializers.NullAndNegativeSamples` | habits/serializers.py:11-14 | a null related_habit passes as no related habit; a null frequency is an error on `frequency` alone; a duration of -5 is an error on `duration` alone, even in a partial update |
| `Serializers.BlankRewardSample` | habits/serializers.py:25 | a reward of spaces is trimmed to no reward, so it may go with a pleasant related habit |
| `Serializers.PaddedPlaceSamples` | habits/serializers.py:11-13 | a place of spaces is a blank-field error; " Home " is kept as "Home" |
| `Tasks.DueHabits` | habits/tasks.py:19-21 | a habit is selected exactly when its hour and minute equal the current ones |
| `Tasks.DueHabitsOfStore` | habits/tasks.py:18-21 | over the store, the selected habits are exactly the stored ones at the current hour and minute, ascending by id |
| `Tasks.DueIgnoresSeconds` | habits/tasks.py:18-21 | the seconds and microseconds of the current time never change the selection |
| `Tasks.Dispatch` | habits/tasks.py:22-28 | there are never more requests than selected habits |
| `Tasks.DispatchOne` | habits/tasks.py:23-28 | one selected habit yields exactly one request (to the owner's chat id, with the reminder text) when the owner's profile has a non-empty chat id, and none otherwise |
| `Tasks.DispatchAppend` | habits/tasks.py:22-28 | requests are produced habit by habit, in the order of the selection |
| `Tasks.DispatchCount` | habits/tasks.py:22-28 | the number of requests equals the number of selected habits whose owner has a non-empty chat id |
| `Tasks.DispatchSound` | habits/tasks.py:23-27 | every request goes to the chat id of a selected habit's owner and its text is "Напоминание: Время для привычки '<action>'" for that habit |
| `Tasks.DispatchComplete` | habits/tasks.py:22-27 | every selected habit whose owner has a non-empty chat id gets its request |
| `Tasks.Reminders` | habits/tasks.py:18-28 | a pass sends exactly as many requests as there are habits at the current hour and minute whose owner has a non-empty chat id; each such habit gets its request, and each request goes to the chat id of such a habit's owner and carries that habit's action |
| `Tasks.NoMatchNoReminders` | habits/tasks.py:19-22 | when no habit's time matches, nothing is enqueued |
| `Tasks.Outbox.Enqueue` | habits/tasks.py:6-9 | a send request is appended to the outbox |
| `Tasks.SendHabitReminders` | habits/tasks.py:13-28 | the outbox grows by exactly the requests for the stored habits due at the current hour and minute, in id order; only the outbox may change |
| `Tasks.NotifyEach` | habits/tasks.py:22-28 | the loop over the due habits appends, in order, one request per habit whose owner's profile has a non-empty chat id |
| `Tasks.ReminderSampleMatching` | habits/tests.py:44-49 | a 12:00:00 habit with chat id "123456789" gets exactly the one expected request at any second of 12:00 |
| `Tasks.ReminderSamplesSilent` | habits/tests.py:51-56 | no request for a habit an hour off, nor for an owner whose profile has no chat id |
| `Views.HasObjectPermission` | habits/views.py:19-25 | the habit's owner may use any method; every other requester, anonymous or not, exactly the safe methods |
| `Views.SafeMethodsAlwaysPermitted` | habits/views.py:21-22 | GET, HEAD and OPTIONS are permitted on any habit for anyone |
| `Views.WritesOnlyByOwner` | habits/views.py:25 | any other method is permitted exactly to the habit's owner, never to an anonymous visitor |
| `Views.SetTelegramChatId` | habits/views.py:44-55 | a non-empty chat id sets the user's profile to exactly that id (creating it if absent) and answers 200; a missing or empty one answers 400 and leaves every profile as it was |
| `Views.OwnHabits` | habits/views.py:62-63 | the list holds exactly the listed habits whose owner is the requester |
| `Views.PublicHabits` | habits/views.py:147 | the list holds exactly the listed habits marked public |
| `Views.OwnHabitsSpec` | habits/views.py:62-63 | a user's list holds exactly that user's habits, in ascending id order |
| `Views.PublicHabitsSpec` | habits/views.py:147 | the public list holds exactly the habits marked public |
| `Views.PerformCreate` | habits/views.py:65-66 | the new row is owned by the requesting user and written under a fresh id, and the id counter advances by one; a refused save changes neither table nor counter; data that passed validate and names a stored related habit is always written |

## Left out

- The Telegram call inside `send_telegram_notification` is external. The model keeps only the enqueued `(chat_id, message)` request.
- Celery's asynchrony, scheduling and retries are left out. One pass is one method call.
- `timezone.now()` becomes the `now` parameter. Time zones are not modelled, and a time of day has no date.
- `Tasks.DueHabits`, `Views.PublicHabits`: the source's querysets have no ordering. The model lists habits in ascending id order.
- `Models.Clean`: takes a related habit as already loaded, so it cannot fail a lookup. The `Habit.DoesNotExist` that clean raises when it reads a related id naming no row is modelled in `Models.FullClean` and `Store.HabitStore.Save`, which know the stored rows.
- `Store.HabitStore.Save`: ids are handed out like SQLite's autoincrement. A save that names an unknown id inserts under that id and moves the counter past it.
- `Store.HabitStore.Save`: the database's foreign-key check is modelled as `IntegrityError` for a related id that names no row. `save` does not run `full_clean`; the field-level existence check of `related_habit` is part of `Models.FullClean`, against the ids of the stored rows.
- Text is a sequence of Unicode scalar values, so the framework's check against surrogate characters never fires and is not modelled. The whitespace that trimming removes is the set Python's `str.isspace` accepts.
- `UserProfile.__str__` is left out because usernames are not modelled. The `User` model and `UserSerializer.create` (password hashing) are left out too.
- Profiles are created only by the chat-id upsert. The user-creation signal that the tests assume is not part of this model.
- The CRUD actions of `HabitViewSet` only delegate to the framework, so they are left out, together with pagination, routing, migrations and the schema annotations. `perform_create` and the querysets are modelled.
- Submitted frequency and duration are integers, and a negative one is a field error. A stored habit holds natural numbers.
- `Store.HabitStore.Save`: `save` runs no field validator, so it writes any natural frequency and duration. The column's integer range is not modelled, so a duration the database would refuse as too large is written. Nor is the `>= 0` CHECK constraint of a PositiveIntegerField: a negative frequency passes clean and is then refused by the database with IntegrityError, but a stored habit here cannot hold one.
- Submitted values are already typed. The framework's coercion of strings such as "5" or "true" is not modelled.
- The chat id is modelled as a string. How the framework coerces a non-string JSON value is not modelled.
- Concurrency and transactions belong to the database and are left out.
