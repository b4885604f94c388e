/**
 * The habit and profile records of habits/models.py as values: the field
 * constraints, the consistency guard `Habit.clean`, Django's field-level
 * validation (`full_clean`), and the text rendering `Habit.__str__`.
 * Persistence (`save`, deletion) lives in module Store.
 */
module Models {
  import opened Wrappers

  type UserId = nat
  type HabitId = nat

  type Hour = h: nat | h < 24
  type Minute = m: nat | m < 60
  type Second = s: nat | s < 60
  type Microsecond = us: nat | us < 1000000

  /** A time of day as a TimeField holds it: no date and no time zone. */
  datatype Time = Time(hour: Hour, minute: Minute, second: Second, microsecond: Microsecond)

  /**
   * One habit row. `id` is None until the habit has been saved once;
   * `relatedHabit` is the nullable reference to another habit, by id.
   * Frequency and duration are PositiveIntegerFields, so they are never negative.
   */
  datatype Habit = Habit(
    id: Option<HabitId>,
    user: UserId,
    place: string,
    time: Time,
    action: string,
    isPleasant: bool,
    relatedHabit: Option<HabitId>,
    frequency: nat,
    reward: string,
    duration: nat,
    isPublic: bool)

  /** The one-to-one notification profile of a user; the chat id is nullable. */
  datatype UserProfile = UserProfile(user: UserId, telegramChatId: Option<string>)

  const MaxPlaceLength: nat := 100
  const MaxActionLength: nat := 255
  const MaxRewardLength: nat := 255
  const MinFrequency: nat := 1
  const MaxFrequency: nat := 7
  /** The frequency a habit gets when none is given (the field's default). */
  const DefaultFrequency: nat := 1
  const MaxDuration: nat := 120

  // ---------------------------------------------------------------------------
  // Habit.clean

  /** The three ValidationErrors that `Habit.clean` can raise. */
  datatype CleanError = RewardAndRelated | PleasantWithExtras | FrequencyAboveSeven

  /** Position of a rule in the order `clean` checks them. */
  function CleanRank(e: CleanError): nat {
    match e
    case RewardAndRelated => 0
    case PleasantWithExtras => 1
    case FrequencyAboveSeven => 2
  }

  /** The record invariant each rule of `clean` stands for, read on its own. */
  predicate BreaksCleanRule(h: Habit, e: CleanError) {
    match e
    case RewardAndRelated => h.reward != "" && h.relatedHabit.Some?
    case PleasantWithExtras => h.isPleasant && (h.reward != "" || h.relatedHabit.Some?)
    case FrequencyAboveSeven => h.frequency > MaxFrequency
  }

  /**
   * `Habit.clean`: the rules in source order, the first one broken is raised.
   * It does not look at the related habit's own `is_pleasant` flag, and it has
   * no lower bound on frequency.
   */
  function Clean(h: Habit): (r: Outcome<CleanError>)
    ensures r.Pass? <==> forall e :: !BreaksCleanRule(h, e)
    ensures r.Fail? ==> BreaksCleanRule(h, r.error)
    ensures r.Fail? ==> forall e :: CleanRank(e) < CleanRank(r.error) ==> !BreaksCleanRule(h, e)
  {
    if h.reward != "" && h.relatedHabit.Some? then
      assert BreaksCleanRule(h, RewardAndRelated);
      Fail(RewardAndRelated)
    else if h.isPleasant && (h.reward != "" || h.relatedHabit.Some?) then
      assert BreaksCleanRule(h, PleasantWithExtras);
      Fail(PleasantWithExtras)
    else if h.frequency > 7 then
      assert BreaksCleanRule(h, FrequencyAboveSeven);
      Fail(FrequencyAboveSeven)
    else
      Pass
  }

  /**
   * Whether clean reads `self.related_habit`. With a reward set, the first
   * rule reads it; with no reward, only a pleasant habit's second rule does.
   * Both reads come before any rule raises.
   */
  predicate ReadsRelated(h: Habit) {
    h.relatedHabit.Some? && (h.reward != "" || h.isPleasant)
  }

  /**
   * Reading a related habit by id queries the table, and `Habit.DoesNotExist`
   * is raised when no row among `stored` has that id.
   */
  predicate RelatedLookupFails(h: Habit, stored: set<HabitId>) {
    ReadsRelated(h) && h.relatedHabit.value !in stored
  }

  /**
   * The lookup only happens on habits clean refuses: where it fails, it takes
   * the place of a ValidationError and never of a pass.
   */
  lemma LookupOnlyWhereCleanRefuses(h: Habit)
    requires ReadsRelated(h)
    ensures Clean(h).Fail? && Clean(h).error in {RewardAndRelated, PleasantWithExtras}
  {
  }

  // ---------------------------------------------------------------------------
  // Field-level validation (Model.full_clean)

  /**
   * The fields a validation error can be attached to. The two boolean fields
   * only ever fail in the serializer, on an explicit null.
   */
  datatype HabitField = PlaceField | TimeField | ActionField | IsPleasantField | RelatedHabitField
                      | FrequencyField | RewardField | DurationField | IsPublicField

  predicate ValidPlace(s: string) { s != "" && |s| <= MaxPlaceLength }
  predicate ValidAction(s: string) { s != "" && |s| <= MaxActionLength }
  predicate ValidReward(s: string) { |s| <= MaxRewardLength }
  predicate ValidFrequency(f: nat) { MinFrequency <= f <= MaxFrequency }
  predicate ValidDuration(d: nat) { d <= MaxDuration }

  /** The ForeignKey's own check: a non-null related_habit names a row among `stored`. */
  predicate ValidRelated(related: Option<HabitId>, stored: set<HabitId>) {
    related.None? || related.value in stored
  }

  /**
   * The fields whose own validators reject h (blank, max_length,
   * Min/MaxValueValidator, and the existence query of the related_habit
   * ForeignKey against the ids `stored` in the table).
   */
  function FieldErrors(h: Habit, stored: set<HabitId>): set<HabitField> {
    (if ValidPlace(h.place) then {} else {PlaceField})
    + (if ValidAction(h.action) then {} else {ActionField})
    + (if ValidFrequency(h.frequency) then {} else {FrequencyField})
    + (if ValidReward(h.reward) then {} else {RewardField})
    + (if ValidDuration(h.duration) then {} else {DurationField})
    + (if ValidRelated(h.relatedHabit, stored) then {} else {RelatedHabitField})
  }

  /**
   * What full_clean gives: the field errors together with the outcome of
   * clean, which runs either way, or the `Habit.DoesNotExist` that escapes
   * from clean's lookup of the related habit.
   */
  datatype FullCleanReport = Report(fields: set<HabitField>, rule: Outcome<CleanError>) | RelatedDoesNotExist {
    predicate Accepted() { Report? && fields == {} && rule.Pass? }
  }

  /**
   * `full_clean`: field validators first, then `clean` even when a field failed;
   * the habit is accepted only when neither reported anything. A lookup of a
   * missing related habit inside clean is not a ValidationError, so it is not
   * collected but raised.
   */
  function FullClean(h: Habit, stored: set<HabitId>): (r: FullCleanReport)
    ensures r.Accepted() <==>
      && ValidPlace(h.place) && ValidAction(h.action) && ValidReward(h.reward)
      && ValidFrequency(h.frequency) && ValidDuration(h.duration)
      && ValidRelated(h.relatedHabit, stored)
      && forall e :: !BreaksCleanRule(h, e)
    ensures r.RelatedDoesNotExist? <==> RelatedLookupFails(h, stored)
    ensures r.RelatedDoesNotExist? ==> RelatedHabitField in FieldErrors(h, stored) && Clean(h).Fail?
    ensures r.Report? ==> r.fields == FieldErrors(h, stored) && r.rule == Clean(h)
  {
    if RelatedLookupFails(h, stored) then
      RelatedDoesNotExist
    else
      var fields := FieldErrors(h, stored);
      assert ValidFrequency(h.frequency) <==> FrequencyField !in fields;
      assert ValidDuration(h.duration) <==> DurationField !in fields;
      assert ValidPlace(h.place) <==> PlaceField !in fields;
      assert ValidAction(h.action) <==> ActionField !in fields;
      assert ValidReward(h.reward) <==> RewardField !in fields;
      assert ValidRelated(h.relatedHabit, stored) <==> RelatedHabitField !in fields;
      Report(fields, Clean(h))
  }

  // ---------------------------------------------------------------------------
  // Habit.__str__ and the text form of a time

  predicate IsDigit(c: char) { '0' <= c <= '9' }

  predicate AllDigits(s: string) { forall i :: 0 <= i < |s| ==> IsDigit(s[i]) }

  function Pow10(n: nat): (r: nat)
    ensures r >= 1
  {
    if n == 0 then 1 else 10 * Pow10(n - 1)
  }

  function DigitChar(d: nat): (c: char)
    requires d < 10
    ensures IsDigit(c)
  {
    (48 + d) as char
  }

  function DigitValue(c: char): (d: nat)
    requires IsDigit(c)
    ensures d < 10
  {
    c as int - 48
  }

  /** n in decimal with exactly `width` digits, zero-padded on the left (the `%0Nd` format). */
  function Digits(n: nat, width: nat): (s: string)
    ensures |s| == width && AllDigits(s)
  {
    if width == 0 then [] else Digits(n / 10, width - 1) + [DigitChar(n % 10)]
  }

  /** The number a string of decimal digits denotes. */
  function DecimalValue(s: string): nat
    requires AllDigits(s)
  {
    if s == [] then 0 else 10 * DecimalValue(s[..|s| - 1]) + DigitValue(s[|s| - 1])
  }

  lemma {:induction false} DecimalRoundTrip(n: nat, width: nat)
    requires n < Pow10(width)
    ensures DecimalValue(Digits(n, width)) == n
  {
    if width > 0 {
      var q, d, p := n / 10, n % 10, Pow10(width - 1);
      assert n == 10 * q + d && d < 10;
      assert q < p by {
        assert n < 10 * p;
      }
      var s := Digits(n, width);
      assert s == Digits(q, width - 1) + [DigitChar(d)];
      assert s[..|s| - 1] == Digits(q, width - 1);
      DecimalRoundTrip(q, width - 1);
      assert DigitValue(DigitChar(d)) == d;
    }
  }

  /** Python's `str(time)`: HH:MM:SS, followed by .ffffff only when there are microseconds. */
  function TimeStr(t: Time): (s: string)
    ensures |s| == if t.microsecond == 0 then 8 else 15
  {
    Digits(t.hour, 2) + ":" + Digits(t.minute, 2) + ":" + Digits(t.second, 2)
    + (if t.microsecond == 0 then "" else "." + Digits(t.microsecond, 6))
  }

  /** Reads "HH:MM:SS" and pairs it with the microseconds already read. */
  function ParseClock(c: string, us: nat): Option<Time>
    requires |c| == 8
  {
    if c[2] == ':' && c[5] == ':' && AllDigits(c[0..2]) && AllDigits(c[3..5]) && AllDigits(c[6..8]) then
      var h, m, sec := DecimalValue(c[0..2]), DecimalValue(c[3..5]), DecimalValue(c[6..8]);
      if h < 24 && m < 60 && sec < 60 && us < 1000000 then Some(Time(h, m, sec, us)) else None
    else
      None
  }

  /** The inverse reading of the two forms TimeStr writes (Python's `time.fromisoformat` on them). */
  function ParseTime(s: string): Option<Time> {
    if |s| == 8 then ParseClock(s, 0)
    else if |s| == 15 && s[8] == '.' && AllDigits(s[9..15]) then ParseClock(s[..8], DecimalValue(s[9..15]))
    else None
  }

  /** The clock part of TimeStr reads back to the hour, minute and second. */
  lemma ClockRoundTrip(t: Time)
    ensures ParseClock(Digits(t.hour, 2) + ":" + Digits(t.minute, 2) + ":" + Digits(t.second, 2), t.microsecond) == Some(t)
  {
    var hh, mm, ss := Digits(t.hour, 2), Digits(t.minute, 2), Digits(t.second, 2);
    var c := hh + ":" + mm + ":" + ss;
    assert c[0..2] == hh && c[2] == ':' && c[3..5] == mm && c[5] == ':' && c[6..8] == ss;
    DecimalRoundTrip(t.hour, 2);
    DecimalRoundTrip(t.minute, 2);
    DecimalRoundTrip(t.second, 2);
  }

  lemma TimeRoundTrip(t: Time)
    ensures ParseTime(TimeStr(t)) == Some(t)
  {
    var c := Digits(t.hour, 2) + ":" + Digits(t.minute, 2) + ":" + Digits(t.second, 2);
    ClockRoundTrip(t);
    var s := TimeStr(t);
    if t.microsecond == 0 {
      assert s == c;
    } else {
      var frac := Digits(t.microsecond, 6);
      assert s == c + "." + frac;
      assert s[..8] == c && s[8] == '.' && s[9..15] == frac;
      DecimalRoundTrip(t.microsecond, 6);
    }
  }

  /** `Habit.__str__`: "<action> at <time> in <place>". */
  function Str(h: Habit): (s: string)
    ensures |s| == |h.action| + |h.place| + if h.time.microsecond == 0 then 16 else 23
    ensures s[..|h.action|] == h.action
  {
    h.action + " at " + TimeStr(h.time) + " in " + h.place
  }

  /** The rendering keeps each part recoverable: action, then the time, then the place. */
  lemma StrDecomposes(h: Habit)
    ensures var s, a := Str(h), |h.action|;
      && |s| >= a + 8 + |h.place|
      && s[..a] == h.action
      && s[a..a + 4] == " at "
      && ParseTime(s[a + 4..|s| - |h.place| - 4]) == Some(h.time)
      && s[|s| - |h.place| - 4..] == " in " + h.place
  {
    var t, tail := TimeStr(h.time), " in " + h.place;
    var s, a := Str(h), |h.action|;
    assert s == h.action + " at " + t + tail;
    assert |s| == a + 4 + |t| + |tail|;
    assert s[..a] == h.action;
    assert s[a..a + 4] == " at ";
    assert s[a + 4..|s| - |h.place| - 4] == t;
    assert s[|s| - |h.place| - 4..] == tail;
    TimeRoundTrip(h.time);
  }

  // ---------------------------------------------------------------------------
  // Properties the tests of models.py check

  /** Both a reward and a related habit: clean refuses, with the first rule. */
  lemma CleanRejectsRewardWithRelated(h: Habit)
    requires h.reward != "" && h.relatedHabit.Some?
    ensures Clean(h) == Fail(RewardAndRelated)
  {
  }

  /** A pleasant habit with a reward or a related habit is refused. */
  lemma CleanRejectsPleasantWithExtras(h: Habit)
    requires h.isPleasant && (h.reward != "" || h.relatedHabit.Some?)
    ensures Clean(h).Fail?
    ensures Clean(h).error in {RewardAndRelated, PleasantWithExtras}
  {
  }

  /** Frequency above seven is refused by clean; frequency zero is not (only the field validator refuses it). */
  lemma CleanFrequencyBounds(h: Habit, stored: set<HabitId>)
    ensures h.frequency > MaxFrequency ==> Clean(h).Fail?
    ensures h.frequency == 0 && !h.isPleasant && h.relatedHabit.None? ==> Clean(h).Pass?
    ensures h.frequency == 0 ==> !FullClean(h, stored).Accepted()
    ensures h.frequency == 0 && FullClean(h, stored).Report? ==> FrequencyField in FullClean(h, stored).fields
  {
  }

  /** clean checks no related habit's pleasantness: any related habit with no reward passes. */
  lemma CleanIgnoresRelatedPleasantness(h: Habit)
    requires !h.isPleasant && h.reward == "" && h.frequency <= MaxFrequency
    ensures Clean(h).Pass?
  {
  }

  /** A habit that names itself as related habit is refused only because of another rule. */
  lemma CleanAcceptsSelfReference(h: Habit, id: HabitId)
    requires h.id == Some(id) && h.relatedHabit == Some(id)
    ensures Clean(h).Pass? <==> !h.isPleasant && h.reward == "" && h.frequency <= MaxFrequency
  {
  }

  /** full_clean accepts nothing clean refuses, nothing out of the field ranges and no dangling reference. */
  lemma FullCleanStricterThanClean(h: Habit, stored: set<HabitId>)
    requires FullClean(h, stored).Accepted()
    ensures Clean(h).Pass?
    ensures MinFrequency <= h.frequency <= MaxFrequency && h.duration <= MaxDuration
    ensures h.relatedHabit.Some? ==> h.relatedHabit.value in stored
  {
  }

  function SampleHabit(): Habit {
    Habit(None, 1, "Home", Time(12, 0, 0, 0), "Read a book", false, None, 1, "Cookie", 60, false)
  }

  /** The habit of the clean test: reward "Cookie", no related habit, frequency 1. */
  lemma CleanAcceptsSample()
    ensures Clean(SampleHabit()).Pass?
    ensures FullClean(SampleHabit(), {}).Accepted()
    ensures Clean(SampleHabit().(relatedHabit := Some(7))) == Fail(RewardAndRelated)
  {
  }

  lemma StrSample()
    ensures Str(SampleHabit()) == "Read a book at 12:00:00 in Home"
  {
    assert Digits(12, 2) == "12";
    assert Digits(0, 2) == "00";
  }
}
