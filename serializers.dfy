/**
 * habits/serializers.py: `HabitSerializer`. A submission first passes the
 * field-level checks the ModelSerializer derives from the model fields
 * (required, blank, max_length, the range validators, the related_habit
 * lookup); only then does `validate` run its four ordered rules and hand
 * the data back unchanged. `user` is read-only: a submitted value is dropped.
 * The CharFields (`place`, `action`, `reward`) trim surrounding whitespace
 * before any of their checks, and the trimmed text is what is kept.
 */
module Serializers {
  import opened Wrappers
  import opened Models
  import Store

  /** One key of a parsed request body: left out, sent as JSON null, or sent with a value. */
  datatype Input<+T> = Absent | Null | Given(value: T)

  /** The submitted value, if any: what `validated_data` holds for the key. */
  function Kept<T>(v: Input<T>): Option<T>
  {
    match v
    case Given(x) => Some(x)
    case _ => None
  }

  /**
   * A request body after parsing. The numbers are plain integers, so a
   * negative value can be submitted (and is a field error).
   */
  datatype Submission = Submission(
    user: Input<UserId>,
    place: Input<string>,
    time: Input<Time>,
    action: Input<string>,
    isPleasant: Input<bool>,
    relatedHabit: Input<HabitId>,
    frequency: Input<int>,
    reward: Input<string>,
    duration: Input<int>,
    isPublic: Input<bool>)

  /** `validated_data`: the writable fields, with related_habit resolved to its row. */
  datatype HabitData = HabitData(
    place: Option<string>,
    time: Option<Time>,
    action: Option<string>,
    isPleasant: Option<bool>,
    relatedHabit: Option<Habit>,
    frequency: Option<nat>,
    reward: Option<string>,
    duration: Option<nat>,
    isPublic: Option<bool>)

  // ---------------------------------------------------------------------------
  // CharField input: trim_whitespace and the null-character validator

  /** The characters Python's `str.isspace` accepts, which `str.strip()` removes. */
  predicate IsSpace(c: char) {
    || c == ' ' || '\t' <= c <= '\r' || '\U{1C}' <= c <= '\U{1F}'
    || c == '\U{85}' || c == '\U{A0}' || c == '\U{1680}' || '\U{2000}' <= c <= '\U{200A}'
    || c == '\U{2028}' || c == '\U{2029}' || c == '\U{202F}' || c == '\U{205F}' || c == '\U{3000}'
  }

  /** `str.lstrip()`: s without its leading whitespace. */
  function StripStart(s: string): string {
    if s != [] && IsSpace(s[0]) then StripStart(s[1..]) else s
  }

  /** `str.rstrip()`: s without its trailing whitespace. */
  function StripEnd(s: string): string {
    if s != [] && IsSpace(s[|s| - 1]) then StripEnd(s[..|s| - 1]) else s
  }

  /** `str.strip()`, which a CharField applies to its input (`trim_whitespace`). */
  function Strip(s: string): string {
    StripEnd(StripStart(s))
  }

  /** lstrip removes a prefix of whitespace and stops at the first other character. */
  lemma {:induction false} StripStartSpec(s: string)
    ensures var r := StripStart(s);
      && |r| <= |s| && r == s[|s| - |r|..]
      && (forall i :: 0 <= i < |s| - |r| ==> IsSpace(s[i]))
      && (r != [] ==> !IsSpace(r[0]))
  {
    if s != [] && IsSpace(s[0]) {
      var u := s[1..];
      StripStartSpec(u);
      var r := StripStart(u);
      assert StripStart(s) == r;
      assert r == s[|s| - |r|..] by {
        assert u[|u| - |r|..] == s[|s| - |r|..];
      }
      forall i | 0 <= i < |s| - |r| ensures IsSpace(s[i]) {
        if i > 0 {
          assert s[i] == u[i - 1];
        }
      }
    } else {
      assert StripStart(s) == s == s[0..];
    }
  }

  /** rstrip removes a suffix of whitespace and stops at the last other character. */
  lemma {:induction false} StripEndSpec(s: string)
    ensures var r := StripEnd(s);
      && |r| <= |s| && r == s[..|r|]
      && (forall i :: |r| <= i < |s| ==> IsSpace(s[i]))
      && (r != [] ==> !IsSpace(r[|r| - 1]))
  {
    if s != [] && IsSpace(s[|s| - 1]) {
      var u := s[..|s| - 1];
      StripEndSpec(u);
      var r := StripEnd(u);
      assert StripEnd(s) == r;
      assert r == s[..|r|] by {
        assert u[..|r|] == s[..|r|];
      }
      forall i | |r| <= i < |s| ensures IsSpace(s[i]) {
        if i < |s| - 1 {
          assert s[i] == u[i];
        }
      }
    } else {
      assert StripEnd(s) == s == s[..|s|];
    }
  }

  /** Trimming keeps one run of s and drops only whitespace before and after it. */
  lemma StripSlice(s: string)
    ensures |Strip(s)| <= |StripStart(s)| <= |s|
    ensures var r, lo := Strip(s), |s| - |StripStart(s)|;
      && r == s[lo..lo + |r|]
      && (forall i :: 0 <= i < lo ==> IsSpace(s[i]))
      && (forall i :: lo + |r| <= i < |s| ==> IsSpace(s[i]))
  {
    var t := StripStart(s);
    StripStartSpec(s);
    StripEndSpec(t);
    var r, lo := StripEnd(t), |s| - |t|;
    assert t == s[lo..];
    assert r == t[..|r|];
    forall i | lo + |r| <= i < |s| ensures IsSpace(s[i]) {
      assert s[i] == t[i - lo];
    }
  }

  /** The kept run has no whitespace at either end, and is empty exactly when s is all whitespace. */
  lemma StripEnds(s: string)
    ensures Strip(s) == "" <==> forall i :: 0 <= i < |s| ==> IsSpace(s[i])
    ensures Strip(s) != "" ==> !IsSpace(Strip(s)[0]) && !IsSpace(Strip(s)[|Strip(s)| - 1])
  {
    var t := StripStart(s);
    StripStartSpec(s);
    StripEndSpec(t);
    var r := StripEnd(t);
    if t != [] {
      assert r != [];
      assert r[0] == t[0];
      assert !IsSpace(s[|s| - |t|]);
    }
  }

  /**
   * What trimming leaves: the run of s that starts at `lo` with no whitespace
   * at either end, everything before and after it being whitespace; nothing
   * at all exactly when s is whitespace only.
   */
  lemma StripSpec(s: string)
    ensures |Strip(s)| <= |StripStart(s)| <= |s|
    ensures var r, lo := Strip(s), |s| - |StripStart(s)|;
      && r == s[lo..lo + |r|]
      && (forall i :: 0 <= i < lo ==> IsSpace(s[i]))
      && (forall i :: lo + |r| <= i < |s| ==> IsSpace(s[i]))
      && (r == "" <==> forall i :: 0 <= i < |s| ==> IsSpace(s[i]))
      && (r != "" ==> !IsSpace(r[0]) && !IsSpace(r[|r| - 1]))
  {
    StripSlice(s);
    StripEnds(s);
  }

  /** Text with no whitespace at either end is left as it is. */
  lemma StripKeeps(s: string)
    requires s == "" || (!IsSpace(s[0]) && !IsSpace(s[|s| - 1]))
    ensures Strip(s) == s
  {
    assert StripStart(s) == s;
  }

  /** Trimming twice is trimming once. */
  lemma StripIdempotent(s: string)
    ensures Strip(Strip(s)) == Strip(s)
  {
    StripSpec(s);
    StripKeeps(Strip(s));
  }

  /** `ProhibitNullCharactersValidator`, which every CharField carries. */
  predicate NoNullCharacter(s: string) {
    forall i :: 0 <= i < |s| ==> s[i] != '\0'
  }

  /** A submitted CharField value as the serializer reads it: trimmed; absent and null stay so. */
  function Trimmed(v: Input<string>): Input<string> {
    match v
    case Given(x) => Given(Strip(x))
    case Absent => Absent
    case Null => Null
  }

  /** The checks of the serializer's place, action and reward fields, on the trimmed text. */
  predicate PlaceInput(x: string) { ValidPlace(x) && NoNullCharacter(x) }
  predicate ActionInput(x: string) { ValidAction(x) && NoNullCharacter(x) }
  predicate RewardInput(x: string) { ValidReward(x) && NoNullCharacter(x) }

  /**
   * The checks of the serializer's integer fields: the validators of the
   * model field, and the lower bound 0 of a positive integer column.
   */
  predicate FrequencyInput(f: int) { 0 <= f && ValidFrequency(f) }
  predicate DurationInput(d: int) { 0 <= d && ValidDuration(d) }

  // ---------------------------------------------------------------------------
  // HabitSerializer.validate

  /** The four ValidationErrors of `validate`, in the order it checks them. */
  datatype ValidateError = RewardWithRelated | PleasantHasExtras | RelatedNotPleasant | TooRare

  function ValidateMessage(e: ValidateError): string {
    match e
    case RewardWithRelated => "Нельзя одновременно указывать вознаграждение и связанную привычку."
    case PleasantHasExtras => "Приятные привычки не могут иметь вознаграждения или связанных привычек."
    case RelatedNotPleasant => "Связанная привычка должна быть приятной."
    case TooRare => "Нельзя выполнять привычку реже, чем раз в 7 дней."
  }

  function ValidateRank(e: ValidateError): nat {
    match e
    case RewardWithRelated => 0
    case PleasantHasExtras => 1
    case RelatedNotPleasant => 2
    case TooRare => 3
  }

  /** `data.get("reward")` is truthy: present and non-empty. */
  predicate HasReward(d: HabitData) { d.reward.Some? && d.reward.value != "" }

  /** `data.get("related_habit")` is truthy: a row was given. */
  predicate HasRelated(d: HabitData) { d.relatedHabit.Some? }

  /** `data.get("is_pleasant")` is truthy. */
  predicate IsPleasant(d: HabitData) { d.isPleasant == Some(true) }

  /** The record invariant each rule of `validate` stands for, read on its own. */
  predicate BreaksValidateRule(d: HabitData, e: ValidateError) {
    match e
    case RewardWithRelated => HasReward(d) && HasRelated(d)
    case PleasantHasExtras => IsPleasant(d) && (HasReward(d) || HasRelated(d))
    case RelatedNotPleasant => HasRelated(d) && !d.relatedHabit.value.isPleasant
    case TooRare => d.frequency.GetOr(DefaultFrequency) > MaxFrequency
  }

  /**
   * `HabitSerializer.validate`: the first rule broken, in source order, is
   * raised; when none is, the data comes back unchanged.
   */
  function Validate(d: HabitData): (r: Result<HabitData, ValidateError>)
    ensures r.Success? ==> r.value == d
    ensures r.Success? <==> forall e :: !BreaksValidateRule(d, e)
    ensures r.Failure? ==> BreaksValidateRule(d, r.error)
    ensures r.Failure? ==> forall e :: ValidateRank(e) < ValidateRank(r.error) ==> !BreaksValidateRule(d, e)
  {
    if d.reward.Some? && d.reward.value != "" && d.relatedHabit.Some? then
      assert BreaksValidateRule(d, RewardWithRelated);
      Failure(RewardWithRelated)
    else if d.isPleasant == Some(true) && ((d.reward.Some? && d.reward.value != "") || d.relatedHabit.Some?) then
      assert BreaksValidateRule(d, PleasantHasExtras);
      Failure(PleasantHasExtras)
    else if d.relatedHabit.Some? && !d.relatedHabit.value.isPleasant then
      assert BreaksValidateRule(d, RelatedNotPleasant);
      Failure(RelatedNotPleasant)
    else if (match d.frequency case Some(f) => f case None => DefaultFrequency) > 7 then
      assert BreaksValidateRule(d, TooRare);
      Failure(TooRare)
    else
      Success(d)
  }

  // ---------------------------------------------------------------------------
  // is_valid: field-level checks, then validate

  /** Where `is_valid` stops: on field errors (keyed by field), or on a `validate` rule. */
  datatype SerializerError = FieldLevel(fields: set<HabitField>) | NonField(rule: ValidateError)

  /**
   * A field value is refused: missing when required, null on a field that
   * does not allow null, or given and failing its validators.
   */
  predicate Refused<T>(v: Input<T>, valid: T -> bool, required: bool) {
    match v
    case Absent => required
    case Null => true
    case Given(x) => !valid(x)
  }

  const AllFields: set<HabitField> :=
    {PlaceField, TimeField, ActionField, IsPleasantField, RelatedHabitField,
     FrequencyField, RewardField, DurationField, IsPublicField}

  /**
   * Field f of a submission is in error. Fields without a model default are
   * required unless the update is partial; only related_habit may be null;
   * the text fields are judged after trimming (so whitespace alone is blank);
   * a given related_habit must name a stored row.
   */
  predicate FieldFails(s: Submission, habits: map<HabitId, Habit>, partial: bool, f: HabitField) {
    match f
    case PlaceField => Refused(Trimmed(s.place), PlaceInput, !partial)
    case TimeField => Refused(s.time, (t: Time) => true, !partial)
    case ActionField => Refused(Trimmed(s.action), ActionInput, !partial)
    case IsPleasantField => Refused(s.isPleasant, (b: bool) => true, false)
    case RelatedHabitField => s.relatedHabit.Given? && s.relatedHabit.value !in habits
    case FrequencyField => Refused(s.frequency, FrequencyInput, false)
    case RewardField => Refused(Trimmed(s.reward), RewardInput, false)
    case DurationField => Refused(s.duration, DurationInput, !partial)
    case IsPublicField => Refused(s.isPublic, (b: bool) => true, false)
  }

  /** The field errors of a submission, as the set of fields they are keyed by. */
  function SubmissionFieldErrors(s: Submission, habits: map<HabitId, Habit>, partial: bool): set<HabitField> {
    set f | f in AllFields && FieldFails(s, habits, partial, f)
  }

  /** A field is among the errors exactly when it fails: every field is checked. */
  lemma {:induction false} FieldErrorsSpec(s: Submission, habits: map<HabitId, Habit>, partial: bool)
    ensures forall f :: f in SubmissionFieldErrors(s, habits, partial) <==> FieldFails(s, habits, partial, f)
  {
    forall f: HabitField ensures f in AllFields {
      match f
      case PlaceField =>
      case TimeField =>
      case ActionField =>
      case IsPleasantField =>
      case RelatedHabitField =>
      case FrequencyField =>
      case RewardField =>
      case DurationField =>
      case IsPublicField =>
    }
  }

  /** The submitted values convert: a given related_habit names a stored row, and no number is negative. */
  predicate Resolvable(s: Submission, habits: map<HabitId, Habit>) {
    && (s.relatedHabit.Given? ==> s.relatedHabit.value in habits)
    && (s.frequency.Given? ==> s.frequency.value >= 0)
    && (s.duration.Given? ==> s.duration.value >= 0)
  }

  /** A submitted integer as a count, when it converts. */
  function Count(v: Input<int>): Option<nat>
    requires v.Given? ==> v.value >= 0
  {
    match v
    case Given(x) => Some(x)
    case _ => None
  }

  /**
   * The writable fields of a submission as `validated_data` holds them: text
   * trimmed, related_habit looked up (null is no related habit); `user` is not
   * among them.
   */
  function Resolve(s: Submission, habits: map<HabitId, Habit>): HabitData
    requires Resolvable(s, habits)
  {
    HabitData(
      Kept(Trimmed(s.place)), Kept(s.time), Kept(Trimmed(s.action)), Kept(s.isPleasant),
      if s.relatedHabit.Given? then Some(habits[s.relatedHabit.value]) else None,
      Count(s.frequency), Kept(Trimmed(s.reward)), Count(s.duration), Kept(s.isPublic))
  }

  /** Passing the field checks includes the related_habit lookup and the lower bounds. */
  lemma FieldsPassResolvable(s: Submission, habits: map<HabitId, Habit>, partial: bool)
    requires SubmissionFieldErrors(s, habits, partial) == {}
    ensures Resolvable(s, habits)
  {
    FieldErrorsSpec(s, habits, partial);
    assert !FieldFails(s, habits, partial, RelatedHabitField);
    assert !FieldFails(s, habits, partial, FrequencyField);
    assert !FieldFails(s, habits, partial, DurationField);
  }

  /**
   * `serializer.is_valid()`: any field error stops it with exactly those
   * fields; otherwise `validate` decides, on the trimmed and resolved data.
   */
  function IsValid(s: Submission, habits: map<HabitId, Habit>, partial: bool): (r: Result<HabitData, SerializerError>)
    ensures var errors := SubmissionFieldErrors(s, habits, partial);
      && (errors != {} ==> r == Failure(FieldLevel(errors)))
      && (errors == {} ==> Resolvable(s, habits))
    ensures r.Success? ==> SubmissionFieldErrors(s, habits, partial) == {} && Validate(r.value).Success?
    ensures SubmissionFieldErrors(s, habits, partial) == {} && Resolvable(s, habits) ==>
      var v := Validate(Resolve(s, habits));
      && (r.Success? <==> v.Success?)
      && (r.Success? ==> r.value == Resolve(s, habits))
      && (r.Failure? ==> r.error == NonField(v.error))
  {
    var errors := SubmissionFieldErrors(s, habits, partial);
    if errors != {} then
      Failure(FieldLevel(errors))
    else
      FieldsPassResolvable(s, habits, partial);
      match Validate(Resolve(s, habits))
      case Success(d) => Success(d)
      case Failure(e) => Failure(NonField(e))
  }

  /** Fields not submitted take the model defaults: not pleasant, frequency 1, no reward, private. */
  predicate Complete(d: HabitData) {
    d.place.Some? && d.time.Some? && d.action.Some? && d.duration.Some?
  }

  /** The unsaved Habit that `serializer.save(user=u)` builds from validated data. */
  function Instantiate(d: HabitData, u: UserId): (h: Habit)
    requires Complete(d)
    ensures h.id.None? && h.user == u
    ensures h.place == d.place.value && h.time == d.time.value && h.action == d.action.value
    ensures h.duration == d.duration.value
    ensures h.isPleasant == d.isPleasant.GetOr(false) && h.isPublic == d.isPublic.GetOr(false)
    ensures h.reward == d.reward.GetOr("")
    ensures h.frequency == d.frequency.GetOr(DefaultFrequency)
    ensures d.relatedHabit.Some? ==> h.relatedHabit == d.relatedHabit.value.id
    ensures d.relatedHabit.None? ==> h.relatedHabit.None?
  {
    Habit(None, u, d.place.value, d.time.value, d.action.value, d.isPleasant.GetOr(false),
          if d.relatedHabit.Some? then d.relatedHabit.value.id else None,
          d.frequency.GetOr(DefaultFrequency), d.reward.GetOr(""), d.duration.value, d.isPublic.GetOr(false))
  }

  // ---------------------------------------------------------------------------
  // Properties

  lemma ValidateRejectsRewardWithRelated(d: HabitData)
    requires HasReward(d) && HasRelated(d)
    ensures Validate(d) == Failure(RewardWithRelated)
  {
  }

  /** A pleasant habit with extras is refused, and never with the related-must-be-pleasant message. */
  lemma ValidatePleasantWins(d: HabitData)
    requires IsPleasant(d) && (HasReward(d) || HasRelated(d))
    ensures Validate(d).Failure?
    ensures Validate(d).error in {RewardWithRelated, PleasantHasExtras}
  {
  }

  /** With no other rule in the way, a related habit passes exactly when it is pleasant. */
  lemma ValidateRelatedMustBePleasant(d: HabitData, related: Habit)
    requires d.relatedHabit == Some(related) && !HasReward(d) && !IsPleasant(d)
    requires d.frequency.GetOr(DefaultFrequency) <= MaxFrequency
    ensures Validate(d).Success? <==> related.isPleasant
    ensures !related.isPleasant ==> Validate(d) == Failure(RelatedNotPleasant)
  {
  }

  /** A missing frequency counts as 1; anything above 7 is refused. */
  lemma ValidateFrequencyDefault(d: HabitData)
    ensures Validate(d.(frequency := None)).Success? <==> Validate(d.(frequency := Some(DefaultFrequency))).Success?
    ensures d.frequency.Some? && d.frequency.value > MaxFrequency ==> Validate(d).Failure?
  {
  }

  /** The submitted `user` never reaches the validated data. */
  lemma UserIsReadOnly(s: Submission, habits: map<HabitId, Habit>, partial: bool, u: Input<UserId>)
    ensures IsValid(s.(user := u), habits, partial) == IsValid(s, habits, partial)
  {
    var t := s.(user := u);
    assert SubmissionFieldErrors(t, habits, partial) == SubmissionFieldErrors(s, habits, partial);
    if SubmissionFieldErrors(s, habits, partial) == {} {
      FieldsPassResolvable(s, habits, partial);
      assert Resolve(t, habits) == Resolve(s, habits);
    }
  }

  /** The frequency field validator fires first, so `validate`'s own frequency rule never surfaces. */
  lemma FrequencyRuleUnreachable(s: Submission, habits: map<HabitId, Habit>, partial: bool)
    ensures IsValid(s, habits, partial) != Failure(NonField(TooRare))
    ensures s.frequency.Given? && s.frequency.value > MaxFrequency ==>
              IsValid(s, habits, partial) == Failure(FieldLevel(SubmissionFieldErrors(s, habits, partial)))
              && FrequencyField in SubmissionFieldErrors(s, habits, partial)
  {
    var errors := SubmissionFieldErrors(s, habits, partial);
    FieldErrorsSpec(s, habits, partial);
    if s.frequency.Given? && s.frequency.value > MaxFrequency {
      assert FieldFails(s, habits, partial, FrequencyField);
    }
    if errors == {} {
      assert !FieldFails(s, habits, partial, FrequencyField);
    }
  }

  /** Data that passed `validate` builds a habit that `clean` accepts: save cannot refuse it. */
  lemma ValidateImpliesClean(d: HabitData, u: UserId)
    requires Complete(d) && Validate(d).Success?
    ensures Clean(Instantiate(d, u)).Pass?
  {
    var h := Instantiate(d, u);
    assert !BreaksValidateRule(d, RewardWithRelated) && !BreaksValidateRule(d, PleasantHasExtras);
    assert !BreaksValidateRule(d, TooRare);
    assert forall e :: !BreaksCleanRule(h, e);
  }

  /**
   * A submission accepted for creation builds a habit that `full_clean` and
   * hence `save`'s `clean` accept, and whose reference names a stored row.
   */
  lemma ValidatedCreateIsClean(s: Submission, habits: map<HabitId, Habit>, u: UserId)
    requires Store.KeysAreIds(habits)
    requires IsValid(s, habits, false).Success?
    ensures Complete(IsValid(s, habits, false).value)
    ensures var h := Instantiate(IsValid(s, habits, false).value, u);
      && FullClean(h, habits.Keys).Accepted()
      && (h.relatedHabit.Some? ==> h.relatedHabit.value in habits)
  {
    FieldErrorsSpec(s, habits, false);
    assert !FieldFails(s, habits, false, PlaceField) && !FieldFails(s, habits, false, TimeField);
    assert !FieldFails(s, habits, false, ActionField) && !FieldFails(s, habits, false, RelatedHabitField);
    assert !FieldFails(s, habits, false, FrequencyField) && !FieldFails(s, habits, false, RewardField);
    assert !FieldFails(s, habits, false, DurationField) && !FieldFails(s, habits, false, IsPleasantField);
    var d := IsValid(s, habits, false).value;
    assert d == Resolve(s, habits);
    ValidateImpliesClean(d, u);
  }

  function SampleSubmission(): Submission {
    Submission(Absent, Given("Home"), Given(Time(12, 0, 0, 0)), Given("Read a book"),
               Given(false), Absent, Absent, Absent, Given(60), Absent)
  }

  function SampleRow(id: HabitId, pleasant: bool): Habit {
    Habit(Some(id), 1, "Home", Time(12, 0, 0, 0), "Relax", pleasant, None, 1, "", 30, false)
  }

  /** The sample texts have no surrounding whitespace, so trimming keeps them. */
  lemma SampleTextsKept()
    ensures Trimmed(SampleSubmission().place) == Given("Home")
    ensures Trimmed(SampleSubmission().action) == Given("Read a book")
    ensures Trimmed(SampleSubmission().reward) == Absent
  {
    StripKeeps("Home");
    StripKeeps("Read a book");
  }

  /** The serializer tests: the sample data passes, alone and with a pleasant related habit. */
  lemma SerializerSamples()
    ensures IsValid(SampleSubmission(), map[], false).Success?
    ensures IsValid(SampleSubmission().(relatedHabit := Given(1)), map[1 := SampleRow(1, true)], false).Success?
  {
    var s := SampleSubmission();
    SampleTextsKept();
    assert SubmissionFieldErrors(s, map[], false) == {};
    assert SubmissionFieldErrors(s.(relatedHabit := Given(1)), map[1 := SampleRow(1, true)], false) == {};
  }

  /** The related-habit test: an unpleasant related habit is a non-field error with rule 3's message. */
  lemma RelatedNotPleasantSample()
    ensures var r := IsValid(SampleSubmission().(relatedHabit := Given(2)), map[2 := SampleRow(2, false)], false);
      && r == Failure(NonField(RelatedNotPleasant))
      && ValidateMessage(r.error.rule) == "Связанная привычка должна быть приятной."
  {
    var s, habits := SampleSubmission().(relatedHabit := Given(2)), map[2 := SampleRow(2, false)];
    SampleTextsKept();
    assert SubmissionFieldErrors(s, habits, false) == {};
    var d := HabitData(Some("Home"), Some(Time(12, 0, 0, 0)), Some("Read a book"), Some(false),
                       Some(SampleRow(2, false)), None, None, Some(60), None);
    assert Resolve(s, habits) == d;
    assert Validate(d) == Failure(RelatedNotPleasant);
  }

  /** The field tests: frequency 8 is an error on `frequency` alone; duration 150 is refused. */
  lemma FieldErrorSamples()
    ensures IsValid(SampleSubmission().(frequency := Given(8)), map[], false) == Failure(FieldLevel({FrequencyField}))
    ensures IsValid(SampleSubmission().(duration := Given(150)), map[], false).Failure?
  {
    var s := SampleSubmission();
    SampleTextsKept();
    assert SubmissionFieldErrors(s.(frequency := Given(8)), map[], false) == {FrequencyField};
    assert DurationField in SubmissionFieldErrors(s.(duration := Given(150)), map[], false);
  }

  /** A null related_habit means none; null on a field without null, or a negative number, is a field error. */
  lemma NullAndNegativeSamples()
    ensures IsValid(SampleSubmission().(relatedHabit := Null), map[], false).Success?
    ensures IsValid(SampleSubmission().(frequency := Null), map[], false) == Failure(FieldLevel({FrequencyField}))
    ensures IsValid(SampleSubmission().(duration := Given(-5)), map[], true) == Failure(FieldLevel({DurationField}))
  {
    var s := SampleSubmission();
    SampleTextsKept();
    assert SubmissionFieldErrors(s.(relatedHabit := Null), map[], false) == {};
    assert SubmissionFieldErrors(s.(frequency := Null), map[], false) == {FrequencyField};
    assert SubmissionFieldErrors(s.(duration := Given(-5)), map[], true) == {DurationField};
  }

  /** A reward of spaces is no reward, so it may go with a pleasant related habit. */
  lemma BlankRewardSample()
    ensures var r := IsValid(SampleSubmission().(reward := Given(" "), relatedHabit := Given(1)),
                             map[1 := SampleRow(1, true)], false);
      r.Success? && r.value.reward == Some("")
  {
    var s := SampleSubmission().(reward := Given(" "), relatedHabit := Given(1));
    SampleTextsKept();
    assert Strip(" ") == "";
    assert SubmissionFieldErrors(s, map[1 := SampleRow(1, true)], false) == {};
  }

  /** A place of spaces is blank; a padded place is kept without its padding. */
  lemma PaddedPlaceSamples()
    ensures IsValid(SampleSubmission().(place := Given("   ")), map[], false) == Failure(FieldLevel({PlaceField}))
    ensures var r := IsValid(SampleSubmission().(place := Given(" Home ")), map[], false);
      r.Success? && r.value.place == Some("Home")
  {
    var s := SampleSubmission();
    SampleTextsKept();
    assert Strip("   ") == "";
    assert SubmissionFieldErrors(s.(place := Given("   ")), map[], false) == {PlaceField};
    var padded := " Home ";
    assert StripStart(padded) == "Home ";
    assert Strip(padded) == "Home";
    assert SubmissionFieldErrors(s.(place := Given(padded)), map[], false) == {};
  }
}
