/**
 * The application's entities: the closed choice lists, one datatype per table, the store as a
 * whole, the constraints the schema declares, the default orderings and the delete cascades.
 */
module Models {
  import opened Wrappers
  import opened Clock
  import opened Lookup
  import opened Ordering

  // ---------------------------------------------------------------------------------------------
  // Choice lists

  /** The value a `choices` field accepts for the submitted token `s`, if any. */
  function ParseChoice<E>(choices: seq<E>, token: E -> string, s: string): (r: Option<E>)
    ensures r.Some? ==> r.value in choices && token(r.value) == s
    ensures r.None? <==> forall k :: 0 <= k < |choices| ==> token(choices[k]) != s
  {
    match FirstFrom(choices, (e: E) => token(e) == s, 0)
    case Some(k) => Some(choices[k])
    case None => None
  }

  /** No two choices share a token. */
  predicate DistinctTokens<E>(choices: seq<E>, token: E -> string) {
    forall i, j :: 0 <= i < j < |choices| ==> token(choices[i]) != token(choices[j])
  }

  /** With distinct tokens, a choice's token parses back to that choice. */
  lemma ParseChoiceOfToken<E>(choices: seq<E>, token: E -> string, k: nat)
    requires DistinctTokens(choices, token) && k < |choices|
    ensures ParseChoice(choices, token, token(choices[k])) == Some(choices[k])
  {
    var r := ParseChoice(choices, token, token(choices[k]));
    var i :| 0 <= i < |choices| && choices[i] == r.value;
    assert token(choices[i]) == token(choices[k]);
  }

  /** The twelve double-hours, TimeSlot.TIME_CHOICES. */
  datatype SlotName = Zi | Chou | Yin | Mao | Chen | Si | Wu | Wei | Shen | You | Xu | Hai

  /** TIME_CHOICES in declaration order, from the 23:00 double-hour on. */
  const TimeChoices: seq<SlotName> := [Zi, Chou, Yin, Mao, Chen, Si, Wu, Wei, Shen, You, Xu, Hai]

  function SlotToken(n: SlotName): string {
    match n
    case Zi => "zi"
    case Chou => "chou"
    case Yin => "yin"
    case Mao => "mao"
    case Chen => "chen"
    case Si => "si"
    case Wu => "wu"
    case Wei => "wei"
    case Shen => "shen"
    case You => "you"
    case Xu => "xu"
    case Hai => "hai"
  }

  function ParseSlotName(s: string): Option<SlotName> {
    ParseChoice(TimeChoices, SlotToken, s)
  }

  /** TinnitusLog.FREQUENCY_CHOICES. */
  datatype Frequency = Continuous | Intermittent | Occasional

  const FrequencyChoices: seq<Frequency> := [Continuous, Intermittent, Occasional]

  function FrequencyToken(f: Frequency): string {
    match f
    case Continuous => "continuous"
    case Intermittent => "intermittent"
    case Occasional => "occasional"
  }

  function ParseFrequency(s: string): Option<Frequency> {
    ParseChoice(FrequencyChoices, FrequencyToken, s)
  }

  /** AcupointMassage.BODY_PARTS. */
  datatype BodyPart = Ear | Head | Neck | Shoulder | Hand | Foot

  const BodyParts: seq<BodyPart> := [Ear, Head, Neck, Shoulder, Hand, Foot]

  function BodyPartToken(b: BodyPart): string {
    match b
    case Ear => "ear"
    case Head => "head"
    case Neck => "neck"
    case Shoulder => "shoulder"
    case Hand => "hand"
    case Foot => "foot"
  }

  function ParseBodyPart(s: string): Option<BodyPart> {
    ParseChoice(BodyParts, BodyPartToken, s)
  }

  /** UserProfile.GENDER_CHOICES. */
  datatype Gender = Male | Female | Other

  const GenderChoices: seq<Gender> := [Male, Female, Other]

  function GenderToken(g: Gender): string {
    match g
    case Male => "M"
    case Female => "F"
    case Other => "O"
  }

  function ParseGender(s: string): Option<Gender> {
    ParseChoice(GenderChoices, GenderToken, s)
  }

  /** TinnitusLog.SEVERITY_CHOICES are the integers 1 to 5. */
  predicate IsSeverity(v: int) {
    1 <= v <= 5
  }

  /** The sleep_quality choices are the integers 1 to 10. */
  predicate IsSleepQuality(v: int) {
    1 <= v <= 10
  }

  lemma SlotTokensDistinct()
    ensures DistinctTokens(TimeChoices, SlotToken)
  {
  }

  /** Two slot names with the same token are the same slot name. */
  lemma SlotTokenInjective(m: SlotName, n: SlotName)
    requires SlotToken(m) == SlotToken(n)
    ensures m == n
  {
    assert |SlotToken(m)| == |SlotToken(n)| && SlotToken(m)[0] == SlotToken(n)[0];
    assert |SlotToken(m)| > 2 ==> SlotToken(m)[2] == SlotToken(n)[2];
  }

  /** Every slot name's token is read back as that slot name, so the twelve tokens are distinct. */
  lemma SlotTokenRoundTrip(n: SlotName)
    ensures ParseSlotName(SlotToken(n)) == Some(n)
    ensures forall m :: SlotToken(m) == SlotToken(n) ==> m == n
  {
    SlotTokensDistinct();
    ParseChoiceOfToken(TimeChoices, SlotToken, IndexOfSlot(n));
    forall m | SlotToken(m) == SlotToken(n)
      ensures m == n
    {
      SlotTokenInjective(m, n);
    }
  }

  /** TIME_CHOICES lists each slot name once: the k-th choice sits at index k. */
  lemma IndexOfChoice(k: nat)
    requires k < |TimeChoices|
    ensures IndexOfSlot(TimeChoices[k]) == k
  {
  }

  /** Position of a slot name in TIME_CHOICES. */
  function IndexOfSlot(n: SlotName): (k: nat)
    ensures k < |TimeChoices| && TimeChoices[k] == n
  {
    match n
    case Zi => 0
    case Chou => 1
    case Yin => 2
    case Mao => 3
    case Chen => 4
    case Si => 5
    case Wu => 6
    case Wei => 7
    case Shen => 8
    case You => 9
    case Xu => 10
    case Hai => 11
  }

  lemma FrequencyTokenRoundTrip(f: Frequency)
    ensures ParseFrequency(FrequencyToken(f)) == Some(f)
  {
    assert DistinctTokens(FrequencyChoices, FrequencyToken);
    var k := if f == Continuous then 0 else if f == Intermittent then 1 else 2;
    ParseChoiceOfToken(FrequencyChoices, FrequencyToken, k);
  }

  lemma BodyPartTokenRoundTrip(b: BodyPart)
    ensures ParseBodyPart(BodyPartToken(b)) == Some(b)
  {
    assert DistinctTokens(BodyParts, BodyPartToken);
    var k := match b
      case Ear => 0 case Head => 1 case Neck => 2 case Shoulder => 3 case Hand => 4 case Foot => 5;
    ParseChoiceOfToken(BodyParts, BodyPartToken, k);
  }

  lemma GenderTokenRoundTrip(g: Gender)
    ensures ParseGender(GenderToken(g)) == Some(g)
  {
    assert DistinctTokens(GenderChoices, GenderToken);
    var k := if g == Male then 0 else if g == Female then 1 else 2;
    ParseChoiceOfToken(GenderChoices, GenderToken, k);
  }

  // ---------------------------------------------------------------------------------------------
  // Rows

  type UserId = nat
  type SlotId = nat
  type AcupointId = nat

  /** An account of the authentication framework, reduced to what this application reads. */
  datatype User = User(id: UserId, username: string, email: string, isSuperuser: bool)

  /** One double-hour and its meridian, organ and advice; `start`/`end` are its clock times. */
  datatype TimeSlot = TimeSlot(
    id: SlotId,
    name: SlotName,
    chineseName: string,
    meridian: string,
    organ: string,
    start: Time,
    end: Time,
    description: string,
    healthTips: string,
    caseSuggestions: string,
    foodRecommendations: string)

  /** A diary entry about one tinnitus episode. */
  datatype TinnitusLog = TinnitusLog(
    user: UserId,
    date: Date,
    timeSlot: Option<SlotId>,
    severity: int,
    frequency: Frequency,
    durationMinutes: int,
    symptoms: string,
    triggers: string,
    massagePoints: string,
    massageEffect: string,
    mood: string,
    sleepQuality: Option<int>,
    notes: string,
    createdAt: Instant)

  /** A user's reminder preference for one double-hour. */
  datatype Reminder = Reminder(user: UserId, timeSlot: SlotId, isActive: bool, customMessage: string)

  /** A massage point; `name` is a display name and need not be unique. */
  datatype Acupoint = Acupoint(
    id: AcupointId,
    name: string,
    bodyPart: BodyPart,
    locationDescription: string,
    massageMethod: string,
    benefits: string,
    image: Option<string>,
    relatedTimeSlots: set<SlotId>)

  /** A user's health profile; a blank gender is `None`. */
  datatype UserProfile = UserProfile(
    user: UserId,
    gender: Option<Gender>,
    birthDate: Option<Date>,
    tinnitusStartDate: Option<Date>,
    constitutionType: string,
    medicalHistory: string,
    currentMedications: string,
    lifestyleNotes: string,
    createdAt: Instant)

  /** The database: one sequence of rows per table, in insertion order. */
  datatype Db = Db(
    users: seq<User>,
    slots: seq<TimeSlot>,
    acupoints: seq<Acupoint>,
    logs: seq<TinnitusLog>,
    reminders: seq<Reminder>,
    profiles: seq<UserProfile>)

  // ---------------------------------------------------------------------------------------------
  // Constraints

  function UserIds(db: Db): set<UserId> {
    set u | u in db.users :: u.id
  }

  function SlotIds(db: Db): set<SlotId> {
    set s | s in db.slots :: s.id
  }

  /** Primary keys differ and `username` is unique. */
  predicate UsersApart(a: User, b: User) {
    a.id != b.id && a.username != b.username
  }

  /** Primary keys differ and `name` is unique. */
  predicate SlotsApart(a: TimeSlot, b: TimeSlot) {
    a.id != b.id && a.name != b.name
  }

  /** Only the primary key is unique: two acupoints may share a name. */
  predicate AcupointsApart(a: Acupoint, b: Acupoint) {
    a.id != b.id
  }

  /** `unique_together = ['user', 'time_slot']`. */
  predicate RemindersApart(a: Reminder, b: Reminder) {
    a.user != b.user || a.timeSlot != b.timeSlot
  }

  /** The profile's user is a one-to-one field. */
  predicate ProfilesApart(a: UserProfile, b: UserProfile) {
    a.user != b.user
  }

  /** A stored log respects the severity and sleep-quality choices and the length of `mood`. */
  predicate ValidLog(l: TinnitusLog) {
    && IsSeverity(l.severity)
    && (l.sleepQuality.Some? ==> IsSleepQuality(l.sleepQuality.value))
    && |l.mood| <= 100
  }

  /** Every constraint of the schema: uniqueness, value ranges and foreign keys. */
  predicate Valid(db: Db) {
    && Pairwise(db.users, UsersApart)
    && Pairwise(db.slots, SlotsApart)
    && Pairwise(db.acupoints, AcupointsApart)
    && Pairwise(db.reminders, RemindersApart)
    && Pairwise(db.profiles, ProfilesApart)
    && (forall l :: l in db.logs ==> ValidLog(l) && l.user in UserIds(db))
    && (forall l :: l in db.logs && l.timeSlot.Some? ==> l.timeSlot.value in SlotIds(db))
    && (forall r :: r in db.reminders ==> r.user in UserIds(db) && r.timeSlot in SlotIds(db))
    && (forall p :: p in db.profiles ==> p.user in UserIds(db))
    && (forall a :: a in db.acupoints ==> a.relatedTimeSlots <= SlotIds(db))
  }

  // ---------------------------------------------------------------------------------------------
  // Default orderings

  /** TimeSlot's default ordering, `start_time` ascending. */
  predicate StartsNoLater(a: TimeSlot, b: TimeSlot) {
    a.start <= b.start
  }

  /** TinnitusLog's default ordering, `-date` then `-created_at`. */
  predicate LogPrecedes(a: TinnitusLog, b: TinnitusLog) {
    a.date > b.date || (a.date == b.date && a.createdAt >= b.createdAt)
  }

  /** `order_by('-date')` alone: newer dates first, ties in no particular order. */
  predicate DatedNoEarlier(a: TinnitusLog, b: TinnitusLog) {
    a.date >= b.date
  }

  lemma OrderingsAreTotalPreorders()
    ensures TotalPreorder(StartsNoLater)
    ensures TotalPreorder(LogPrecedes)
    ensures TotalPreorder(DatedNoEarlier)
  {
  }

  /** `TimeSlot.objects.all()`: every slot, earliest start first. */
  function AllSlots(db: Db): (r: seq<TimeSlot>)
    ensures Sorted(r, StartsNoLater)
    ensures multiset(r) == multiset(db.slots)
  {
    OrderingsAreTotalPreorders();
    Sort(db.slots, StartsNoLater)
  }

  /** Ordering the slots neither adds nor drops one. */
  lemma AllSlotsMembers(db: Db)
    ensures forall s :: s in AllSlots(db) <==> s in db.slots
  {
    assert forall s :: s in db.slots <==> s in multiset(db.slots);
  }

  /** `TinnitusLog.objects.all()`: every log, newest date first, then newest creation first. */
  function AllLogs(db: Db): (r: seq<TinnitusLog>)
    ensures Sorted(r, LogPrecedes)
    ensures multiset(r) == multiset(db.logs)
  {
    OrderingsAreTotalPreorders();
    Sort(db.logs, LogPrecedes)
  }

  // ---------------------------------------------------------------------------------------------
  // Delete cascades

  function ClearSlot(l: TinnitusLog, id: SlotId): TinnitusLog {
    if l.timeSlot == Some(id) then l.(timeSlot := None) else l
  }

  function Unrelate(a: Acupoint, id: SlotId): Acupoint {
    a.(relatedTimeSlots := a.relatedTimeSlots - {id})
  }

  /**
   * Deleting a time slot: logs pointing at it keep existing with their slot cleared (SET_NULL),
   * reminders for it are deleted (CASCADE), and acupoints drop it from their related slots.
   */
  function DeleteTimeSlot(db: Db, id: SlotId): (r: Db)
    ensures forall s :: s in r.slots <==> s in db.slots && s.id != id
    ensures |r.logs| == |db.logs|
    ensures forall k :: 0 <= k < |r.logs| ==> r.logs[k] == db.logs[k].(timeSlot := r.logs[k].timeSlot)
    ensures forall k :: 0 <= k < |r.logs| ==>
      r.logs[k].timeSlot == if db.logs[k].timeSlot == Some(id) then None else db.logs[k].timeSlot
    ensures forall m :: m in r.reminders <==> m in db.reminders && m.timeSlot != id
    ensures |r.acupoints| == |db.acupoints|
    ensures forall k :: 0 <= k < |r.acupoints| ==>
      r.acupoints[k] == db.acupoints[k].(relatedTimeSlots := db.acupoints[k].relatedTimeSlots - {id})
    ensures r.users == db.users && r.profiles == db.profiles
  {
    db.(
      slots := Filter(db.slots, (s: TimeSlot) => s.id != id),
      logs := seq(|db.logs|, k requires 0 <= k < |db.logs| => ClearSlot(db.logs[k], id)),
      reminders := Filter(db.reminders, (m: Reminder) => m.timeSlot != id),
      acupoints := seq(|db.acupoints|, k requires 0 <= k < |db.acupoints| => Unrelate(db.acupoints[k], id)))
  }

  /** Deleting a user deletes their logs, reminders and profile (CASCADE) and nothing else. */
  function DeleteUser(db: Db, u: UserId): (r: Db)
    ensures forall x :: x in r.users <==> x in db.users && x.id != u
    ensures forall l :: l in r.logs <==> l in db.logs && l.user != u
    ensures forall m :: m in r.reminders <==> m in db.reminders && m.user != u
    ensures forall p :: p in r.profiles <==> p in db.profiles && p.user != u
    ensures r.slots == db.slots && r.acupoints == db.acupoints
  {
    db.(
      users := Filter(db.users, (x: User) => x.id != u),
      logs := Filter(db.logs, (l: TinnitusLog) => l.user != u),
      reminders := Filter(db.reminders, (m: Reminder) => m.user != u),
      profiles := Filter(db.profiles, (p: UserProfile) => p.user != u))
  }

  /** A slot deletion leaves a consistent store: no dangling slot reference survives. */
  lemma DeleteTimeSlotKeepsValid(db: Db, id: SlotId)
    requires Valid(db)
    ensures Valid(DeleteTimeSlot(db, id))
  {
    var r := DeleteTimeSlot(db, id);
    FilterPairwise(db.slots, (s: TimeSlot) => s.id != id, SlotsApart);
    FilterPairwise(db.reminders, (m: Reminder) => m.timeSlot != id, RemindersApart);
    assert SlotIds(r) == SlotIds(db) - {id} by {
      forall x | x in SlotIds(db) - {id} ensures x in SlotIds(r) {
        var s :| s in db.slots && s.id == x;
        assert s in r.slots;
      }
    }
    assert UserIds(r) == UserIds(db);
    forall l | l in r.logs
      ensures ValidLog(l) && l.user in UserIds(r)
      ensures l.timeSlot.Some? ==> l.timeSlot.value in SlotIds(r)
    {
      var k :| 0 <= k < |r.logs| && r.logs[k] == l;
      assert db.logs[k] in db.logs;
    }
    forall m | m in r.reminders
      ensures m.user in UserIds(r) && m.timeSlot in SlotIds(r)
    {
      assert m in db.reminders;
    }
    forall a | a in r.acupoints
      ensures a.relatedTimeSlots <= SlotIds(r)
    {
      var k :| 0 <= k < |r.acupoints| && r.acupoints[k] == a;
      assert db.acupoints[k] in db.acupoints;
    }
    forall i, j | 0 <= i < j < |r.acupoints|
      ensures AcupointsApart(r.acupoints[i], r.acupoints[j])
    {
      assert AcupointsApart(db.acupoints[i], db.acupoints[j]);
    }
    assert Pairwise(r.users, UsersApart);
    assert Pairwise(r.slots, SlotsApart);
    assert Pairwise(r.acupoints, AcupointsApart);
    assert Pairwise(r.reminders, RemindersApart);
    assert Pairwise(r.profiles, ProfilesApart);
    assert forall p :: p in r.profiles ==> p.user in UserIds(r);
  }


  /** A user deletion leaves a consistent store: nothing refers to the deleted account. */
  lemma DeleteUserKeepsValid(db: Db, u: UserId)
    requires Valid(db)
    ensures Valid(DeleteUser(db, u))
  {
    var r := DeleteUser(db, u);
    FilterPairwise(db.users, (x: User) => x.id != u, UsersApart);
    FilterPairwise(db.reminders, (m: Reminder) => m.user != u, RemindersApart);
    FilterPairwise(db.profiles, (p: UserProfile) => p.user != u, ProfilesApart);
    assert UserIds(r) == UserIds(db) - {u} by {
      forall x | x in UserIds(db) - {u} ensures x in UserIds(r) {
        var w :| w in db.users && w.id == x;
        assert w in r.users;
      }
    }
    assert SlotIds(r) == SlotIds(db);
  }
}
