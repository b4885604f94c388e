/**
 * habits/views.py: the owner-or-read-only permission, the chat-id upsert
 * `set_telegram_chat_id`, the querysets of `HabitViewSet` and
 * `PublicHabitListView`, and `perform_create`, which stamps the owner.
 */
module Views {
  import opened Wrappers
  import opened Models
  import opened Store
  import opened Serializers

  /** Who makes a request: an anonymous visitor or an authenticated user. */
  datatype Requester = Anonymous | Authenticated(id: UserId)

  /** `permissions.SAFE_METHODS`. */
  const SafeMethods: set<string> := {"GET", "HEAD", "OPTIONS"}

  const HttpOk: nat := 200
  const HttpBadRequest: nat := 400

  // ---------------------------------------------------------------------------
  // IsOwnerOrReadOnly

  /**
   * `IsOwnerOrReadOnly.has_object_permission`: reads are open, writes are the
   * owner's. Seen per requester: the owner may do anything, everyone else
   * exactly the safe methods.
   */
  function HasObjectPermission(verb: string, requester: Requester, obj: Habit): (allowed: bool)
    ensures requester == Authenticated(obj.user) ==> allowed
    ensures requester != Authenticated(obj.user) ==> (allowed <==> verb in SafeMethods)
  {
    if verb in SafeMethods then true else requester == Authenticated(obj.user)
  }

  lemma SafeMethodsAlwaysPermitted(verb: string, requester: Requester, obj: Habit)
    requires verb in SafeMethods
    ensures HasObjectPermission(verb, requester, obj)
  {
  }

  /** Any other method is allowed exactly to the habit's owner, never to an anonymous visitor. */
  lemma WritesOnlyByOwner(verb: string, requester: Requester, obj: Habit)
    requires verb !in SafeMethods
    ensures HasObjectPermission(verb, requester, obj) <==> requester.Authenticated? && requester.id == obj.user
    ensures requester.Anonymous? ==> !HasObjectPermission(verb, requester, obj)
  {
  }

  // ---------------------------------------------------------------------------
  // set_telegram_chat_id

  /**
   * `set_telegram_chat_id`: a non-empty chat id is written to the user's
   * profile (created on first use) and answered 200; a missing or empty one is
   * answered 400 and touches nothing.
   */
  method SetTelegramChatId(store: HabitStore, requestUser: UserId, chatId: Option<string>) returns (status: nat)
    requires store.Valid()
    modifies store
    ensures store.Valid()
    ensures store.habits == old(store.habits) && store.nextId == old(store.nextId)
    ensures status == HttpOk <==> chatId.Some? && chatId.value != ""
    ensures status == HttpOk || status == HttpBadRequest
    ensures status == HttpOk ==>
              store.profiles == old(store.profiles)[requestUser := UserProfile(requestUser, chatId)]
    ensures status == HttpBadRequest ==> store.profiles == old(store.profiles)
  {
    if chatId.Some? && chatId.value != "" {
      var profile := store.GetOrCreateProfile(requestUser);
      profile := profile.(telegramChatId := chatId);
      store.SaveProfile(profile);
      status := HttpOk;
    } else {
      status := HttpBadRequest;
    }
  }

  // ---------------------------------------------------------------------------
  // Querysets

  /** `HabitViewSet.get_queryset`: the requester's habits ordered by id. */
  function OwnHabits(store: HabitStore, u: UserId): (r: seq<Habit>)
    reads store
    ensures |r| <= |store.Listing()|
    ensures forall h :: h in r <==> h in store.Listing() && h.user == u
  {
    Filter(store.Listing(), (h: Habit) => h.user == u)
  }

  /** `PublicHabitListView.queryset`: the public habits (listed here in id order). */
  function PublicHabits(store: HabitStore): (r: seq<Habit>)
    reads store
    ensures |r| <= |store.Listing()|
    ensures forall h :: h in r <==> h in store.Listing() && h.isPublic
  {
    Filter(store.Listing(), (h: Habit) => h.isPublic)
  }

  /** A user's list holds exactly that user's stored habits, in ascending id order. */
  lemma OwnHabitsSpec(store: HabitStore, u: UserId)
    requires store.Valid()
    ensures forall h :: h in OwnHabits(store, u) <==> h in store.habits.Values && h.user == u
    ensures Ascending(OwnHabits(store, u))
  {
    ListingSpec(store.habits, store.nextId);
    FilterAscending(store.Listing(), (h: Habit) => h.user == u);
  }

  /** The public list holds exactly the stored habits marked public. */
  lemma PublicHabitsSpec(store: HabitStore)
    requires store.Valid()
    ensures forall h :: h in PublicHabits(store) <==> h in store.habits.Values && h.isPublic
    ensures Ascending(PublicHabits(store))
  {
    ListingSpec(store.habits, store.nextId);
    FilterAscending(store.Listing(), (h: Habit) => h.isPublic);
  }

  // ---------------------------------------------------------------------------
  // perform_create

  /**
   * `perform_create`: `serializer.save(user=request.user)` builds the habit
   * from the validated data with the requester as owner, then `Habit.save`
   * writes it. Data that passed `validate` and names a stored related habit
   * is always written.
   */
  method PerformCreate(store: HabitStore, requestUser: UserId, data: HabitData) returns (r: Result<HabitId, SaveError>)
    requires store.Valid() && Complete(data)
    modifies store
    ensures store.Valid() && store.profiles == old(store.profiles)
    ensures r.Success? ==> r.value == old(store.nextId) && r.value !in old(store.habits)
    ensures r.Success? ==>
              store.habits == old(store.habits)[r.value := Instantiate(data, requestUser).(id := Some(r.value))]
    ensures r.Success? ==> store.habits[r.value].user == requestUser
    ensures r.Failure? ==> store.habits == old(store.habits)
    ensures r.Success? ==> store.nextId == old(store.nextId) + 1
    ensures r.Failure? ==> store.nextId == old(store.nextId)
    ensures Validate(data).Success?
            && (data.relatedHabit.Some? ==> data.relatedHabit.value.id.Some?
                                            && data.relatedHabit.value.id.value in old(store.habits))
            ==> r.Success?
  {
    var habit := Instantiate(data, requestUser);
    if Validate(data).Success? {
      ValidateImpliesClean(data, requestUser);
    }
    r := store.Save(habit);
  }
}
