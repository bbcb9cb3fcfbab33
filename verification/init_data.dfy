/**
 * The `init_data` management command: create the admin account if absent, then reconcile the
 * twelve double-hours and the acupoint catalogue with their data tables.
 */
module InitData {
  import opened Wrappers
  import opened Clock
  import opened Lookup
  import opened Models
  import opened Seeding
  import opened Resolver

  // ---------------------------------------------------------------------------------------------
  // Admin account

  const AdminUsername: string := "admin"
  const AdminEmail: string := "admin@example.com"

  /** Creates the superuser `admin` unless an account with that username exists. */
  function InitAdminUser(db: Db): (r: Db)
    ensures (exists u :: u in db.users && u.username == AdminUsername) ==> r == db
    ensures (forall u :: u in db.users ==> u.username != AdminUsername) ==>
      |r.users| == |db.users| + 1 && r.users[..|db.users|] == db.users
      && r.users[|db.users|].username == AdminUsername && r.users[|db.users|].isSuperuser
      && (forall u :: u in db.users ==> u.id != r.users[|db.users|].id)
      && r == db.(users := r.users)
    ensures exists u :: u in r.users && u.username == AdminUsername
  {
    if exists u :: u in db.users && u.username == AdminUsername then db
    else
      var admin := User(FreshId(db.users, (u: User) => u.id), AdminUsername, AdminEmail, true);
      assert forall u :: u in db.users ==> u.id != admin.id;
      var users := db.users + [admin];
      assert users[..|db.users|] == db.users;
      db.(users := users)
  }

  // ---------------------------------------------------------------------------------------------
  // Time slots

  /** The keys of a `time_slots_data` entry other than 'name'. */
  datatype SlotField =
    | ChineseName | Meridian | Organ | StartTime | EndTime
    | Description | HealthTips | CaseSuggestions | FoodRecommendations

  /** Those keys in the order the entries list them, which is the order the update loop visits them. */
  const SlotSeedFields: seq<SlotField> :=
    [ChineseName, Meridian, Organ, StartTime, EndTime, Description, HealthTips, CaseSuggestions, FoodRecommendations]

  /** What `getattr` returns for one of those keys. */
  datatype SlotFieldValue = Text(text: string) | At(time: Time)

  function SlotFieldOf(a: TimeSlot, f: SlotField): SlotFieldValue {
    match f
    case ChineseName => Text(a.chineseName)
    case Meridian => Text(a.meridian)
    case Organ => Text(a.organ)
    case StartTime => At(a.start)
    case EndTime => At(a.end)
    case Description => Text(a.description)
    case HealthTips => Text(a.healthTips)
    case CaseSuggestions => Text(a.caseSuggestions)
    case FoodRecommendations => Text(a.foodRecommendations)
  }

  /** `getattr(a, field) == getattr(b, field)`. */
  predicate SlotFieldEq(a: TimeSlot, b: TimeSlot, f: SlotField) {
    SlotFieldOf(a, f) == SlotFieldOf(b, f)
  }

  /** `setattr(row, field, value)` with the entry's value. */
  function CopySlotField(row: TimeSlot, seed: TimeSlot, f: SlotField): (r: TimeSlot)
    ensures SlotFieldEq(r, seed, f)
    ensures forall g :: g != f ==> SlotFieldEq(r, row, g)
    ensures r.id == row.id && r.name == row.name
  {
    match f
    case ChineseName => row.(chineseName := seed.chineseName)
    case Meridian => row.(meridian := seed.meridian)
    case Organ => row.(organ := seed.organ)
    case StartTime => row.(start := seed.start)
    case EndTime => row.(end := seed.end)
    case Description => row.(description := seed.description)
    case HealthTips => row.(healthTips := seed.healthTips)
    case CaseSuggestions => row.(caseSuggestions := seed.caseSuggestions)
    case FoodRecommendations => row.(foodRecommendations := seed.foodRecommendations)
  }

  /**
   * The update loop over an entry's fields: each field that differs is set to the entry's value,
   * and the result says whether any did.
   */
  function ReconcileSlotFields(row: TimeSlot, seed: TimeSlot, fields: seq<SlotField>): (r: (TimeSlot, bool))
    decreases |fields|
    ensures forall f :: f in fields ==> SlotFieldEq(r.0, seed, f)
    ensures forall f :: f !in fields ==> SlotFieldEq(r.0, row, f)
    ensures r.0.id == row.id && r.0.name == row.name
  {
    if fields == [] then (row, false)
    else
      var f := fields[0];
      var differs := !SlotFieldEq(row, seed, f);
      var next := if differs then CopySlotField(row, seed, f) else row;
      var rest := ReconcileSlotFields(next, seed, fields[1..]);
      assert forall g :: g in fields <==> g == f || g in fields[1..];
      assert SlotFieldEq(rest.0, seed, f) by {
        if f !in fields[1..] {
          assert SlotFieldOf(rest.0, f) == SlotFieldOf(next, f);
        }
      }
      (rest.0, rest.1 || differs)
  }

  /** The loop reports a change exactly when some visited field differed, and otherwise leaves the row alone. */
  lemma {:induction false} ReconcileSlotFieldsChanged(row: TimeSlot, seed: TimeSlot, fields: seq<SlotField>)
    ensures ReconcileSlotFields(row, seed, fields).1 <==> exists f :: f in fields && !SlotFieldEq(row, seed, f)
    ensures !ReconcileSlotFields(row, seed, fields).1 ==> ReconcileSlotFields(row, seed, fields).0 == row
    decreases |fields|
  {
    if fields != [] {
      var f := fields[0];
      var differs := !SlotFieldEq(row, seed, f);
      var next := if differs then CopySlotField(row, seed, f) else row;
      ReconcileSlotFieldsChanged(next, seed, fields[1..]);
      assert forall g :: g in fields <==> g == f || g in fields[1..];
      if differs {
        assert f in fields && !SlotFieldEq(row, seed, f);
      } else {
        assert next == row;
      }
    }
  }

  /** A row agrees with an entry when every seeded field already holds the entry's value. */
  predicate SlotAgrees(row: TimeSlot, seed: TimeSlot) {
    forall f :: SlotFieldEq(row, seed, f)
  }

  function ReconcileSlot(row: TimeSlot, seed: TimeSlot): (TimeSlot, bool) {
    ReconcileSlotFields(row, seed, SlotSeedFields)
  }

  function SlotKey(s: TimeSlot): string {
    SlotToken(s.name)
  }

  function SlotPk(s: TimeSlot): nat {
    s.id
  }

  function SlotWithId(s: TimeSlot, id: nat): TimeSlot {
    s.(id := id)
  }

  const SlotTable: Table<TimeSlot> := Table(SlotKey, SlotPk, SlotWithId, SlotAgrees, ReconcileSlot)

  lemma AllSlotFieldsSeeded()
    ensures forall f :: f in SlotSeedFields
  {
    forall f: SlotField ensures f in SlotSeedFields {
      match f
      case ChineseName => assert SlotSeedFields[0] == f;
      case Meridian => assert SlotSeedFields[1] == f;
      case Organ => assert SlotSeedFields[2] == f;
      case StartTime => assert SlotSeedFields[3] == f;
      case EndTime => assert SlotSeedFields[4] == f;
      case Description => assert SlotSeedFields[5] == f;
      case HealthTips => assert SlotSeedFields[6] == f;
      case CaseSuggestions => assert SlotSeedFields[7] == f;
      case FoodRecommendations => assert SlotSeedFields[8] == f;
    }
  }

  /** The update loop saves exactly when the row disagrees, and leaves it agreeing. */
  lemma ReconcileSlotLaws(row: TimeSlot, seed: TimeSlot)
    ensures ReconcileSlot(row, seed).1 == !SlotAgrees(row, seed)
    ensures SlotAgrees(ReconcileSlot(row, seed).0, seed)
    ensures SlotAgrees(row, seed) ==> ReconcileSlot(row, seed).0 == row
  {
    AllSlotFieldsSeeded();
    ReconcileSlotFieldsChanged(row, seed, SlotSeedFields);
  }

  lemma SlotTableLawful()
    ensures (forall row, seed :: SlotTable.reconcile(row, seed).1 == !SlotTable.agrees(row, seed))
    ensures (forall row, seed :: SlotTable.agrees(SlotTable.reconcile(row, seed).0, seed))
    ensures (forall row, seed :: SlotTable.agrees(row, seed) ==> SlotTable.reconcile(row, seed).0 == row)
    ensures (forall row, seed :: SlotTable.name(SlotTable.reconcile(row, seed).0) == SlotTable.name(row))
    ensures (forall row, seed :: SlotTable.id(SlotTable.reconcile(row, seed).0) == SlotTable.id(row))
    ensures (forall seed, i :: SlotTable.agrees(SlotTable.withId(seed, i), seed))
    ensures (forall seed, i :: SlotTable.name(SlotTable.withId(seed, i)) == SlotTable.name(seed))
    ensures (forall seed, i :: SlotTable.id(SlotTable.withId(seed, i)) == i)
    ensures Lawful(SlotTable)
  {
    forall row, seed
      ensures SlotTable.reconcile(row, seed).1 == !SlotTable.agrees(row, seed)
      ensures SlotTable.agrees(SlotTable.reconcile(row, seed).0, seed)
      ensures SlotTable.agrees(row, seed) ==> SlotTable.reconcile(row, seed).0 == row
    {
      ReconcileSlotLaws(row, seed);
    }
    forall seed, i: nat
      ensures SlotTable.agrees(SlotTable.withId(seed, i), seed)
    {
      assert forall f :: SlotFieldEq(SlotWithId(seed, i), seed, f);
    }
  }

  /** A placeholder for one of an entry's free-text advice paragraphs, which the model treats as opaque. */
  function Advice(n: SlotName, field: string): string {
    SlotToken(n) + "/" + field
  }

  /** The 'chinese_name', 'meridian' and 'organ' of a double-hour's entry. */
  function SlotTitles(n: SlotName): (string, string, string) {
    match n
    case Zi => ("子时", "足少阳胆经", "胆")
    case Chou => ("丑时", "足厥阴肝经", "肝")
    case Yin => ("寅时", "手太阴肺经", "肺")
    case Mao => ("卯时", "手阳明大肠经", "大肠")
    case Chen => ("辰时", "足阳明胃经", "胃")
    case Si => ("巳时", "足太阴脾经", "脾")
    case Wu => ("午时", "手少阴心经", "心")
    case Wei => ("未时", "手太阳小肠经", "小肠")
    case Shen => ("申时", "足太阳膀胱经", "膀胱")
    case You => ("酉时", "足少阴肾经", "肾")
    case Xu => ("戌时", "手厥阴心包经", "心包")
    case Hai => ("亥时", "手少阳三焦经", "三焦")
  }

  /** The hours of an entry's 'start_time' and 'end_time' (both on the hour). */
  function SlotHours(n: SlotName): (h: (nat, nat))
    ensures h.0 < 24 && h.1 < 24
  {
    match n
    case Zi => (23, 1)
    case Chou => (1, 3)
    case Yin => (3, 5)
    case Mao => (5, 7)
    case Chen => (7, 9)
    case Si => (9, 11)
    case Wu => (11, 13)
    case Wei => (13, 15)
    case Shen => (15, 17)
    case You => (17, 19)
    case Xu => (19, 21)
    case Hai => (21, 23)
  }

  /** The entry for one double-hour; the row id is assigned on creation. */
  function SlotEntry(n: SlotName): (s: TimeSlot)
    ensures s.name == n
  {
    var (chineseName, meridian, organ) := SlotTitles(n);
    var (start, end) := SlotHours(n);
    TimeSlot(0, n, chineseName, meridian, organ, Hms(start, 0, 0), Hms(end, 0, 0),
      Advice(n, "description"), Advice(n, "health_tips"),
      Advice(n, "case_suggestions"), Advice(n, "food_recommendations"))
  }

  /** `time_slots_data`: one entry per double-hour, in TIME_CHOICES order. */
  const TimeSlotsData: seq<TimeSlot> := [
    SlotEntry(Zi), SlotEntry(Chou), SlotEntry(Yin), SlotEntry(Mao), SlotEntry(Chen), SlotEntry(Si),
    SlotEntry(Wu), SlotEntry(Wei), SlotEntry(Shen), SlotEntry(You), SlotEntry(Xu), SlotEntry(Hai)
  ]

  lemma TimeSlotsDataAt(k: nat)
    requires k < 12
    ensures |TimeSlotsData| == 12 && TimeSlotsData[k] == SlotEntry(TimeChoices[k])
  {
  }

  /** The k-th double-hour runs from hour 2k - 1 to hour 2k + 1, modulo 24. */
  lemma SlotHoursByIndex(n: SlotName)
    ensures SlotHours(n).0 == if n == Zi then 23 else 2 * IndexOfSlot(n) - 1
    ensures SlotHours(n).1 == 2 * IndexOfSlot(n) + 1
  {
  }

  lemma TimeChoicesDistinct()
    ensures forall i, j :: 0 <= i < 12 && 0 <= j < 12 && TimeChoices[i] == TimeChoices[j] ==> i == j
  {
    forall i, j | 0 <= i < 12 && 0 <= j < 12 && TimeChoices[i] == TimeChoices[j]
      ensures i == j
    {
      IndexOfChoice(i);
      IndexOfChoice(j);
    }
  }

  /** Entries named by the double-hours in TIME_CHOICES order carry distinct names. */
  lemma NamedInOrderDistinct(seeds: seq<TimeSlot>)
    requires |seeds| == 12 && forall k :: 0 <= k < 12 ==> seeds[k].name == TimeChoices[k]
    ensures DistinctNames(SlotTable, seeds)
  {
    TimeChoicesDistinct();
    forall i, j | 0 <= i < j < 12
      ensures SlotKey(seeds[i]) != SlotKey(seeds[j])
    {
      if SlotKey(seeds[i]) == SlotKey(seeds[j]) {
        SlotTokenInjective(seeds[i].name, seeds[j].name);
      }
    }
  }

  /** The table lists the twelve double-hours once each, in TIME_CHOICES order. */
  lemma TimeSlotsDataNames()
    ensures |TimeSlotsData| == 12
    ensures forall k :: 0 <= k < 12 ==> TimeSlotsData[k].name == TimeChoices[k]
    ensures DistinctNames(SlotTable, TimeSlotsData)
  {
    forall k | 0 <= k < 12
      ensures TimeSlotsData[k].name == TimeChoices[k]
    {
      TimeSlotsDataAt(k);
    }
    NamedInOrderDistinct(TimeSlotsData);
  }

  /** The k-th double-hour starts at hour 2k - 1, except zi, which starts at 23. */
  function StartHourOf(k: nat): nat {
    if k == 0 then 23 else 2 * k - 1
  }

  /** Twelve entries, the k-th running from hour StartHourOf(k) to hour 2k + 1. */
  ghost predicate HoursByIndex(seeds: seq<TimeSlot>) {
    && |seeds| == 12
    && forall k :: 0 <= k < 12 ==>
         seeds[k].start == StartHourOf(k) * MicrosPerHour && seeds[k].end == (2 * k + 1) * MicrosPerHour
  }

  /** The start and end of the k-th entry, as whole hours. */
  lemma EntryHours(k: nat)
    requires k < 12
    ensures TimeSlotsData[k].start == StartHourOf(k) * MicrosPerHour
    ensures TimeSlotsData[k].end == (2 * k + 1) * MicrosPerHour
  {
    var n := TimeChoices[k];
    TimeSlotsDataAt(k);
    IndexOfChoice(k);
    SlotHoursByIndex(n);
  }

  lemma TimeSlotsDataHours()
    ensures HoursByIndex(TimeSlotsData)
  {
    forall k | 0 <= k < 12
      ensures TimeSlotsData[k].start == StartHourOf(k) * MicrosPerHour
      ensures TimeSlotsData[k].end == (2 * k + 1) * MicrosPerHour
    {
      EntryHours(k);
    }
    TimeSlotsDataAt(0);
  }

  /**
   * Such intervals tile the day: each entry ends where the next begins, the last (23:00) ends
   * where the first begins, and only the first, 23:00 to 01:00, crosses midnight.
   */
  lemma HoursTile(seeds: seq<TimeSlot>)
    requires HoursByIndex(seeds)
    ensures forall k :: 0 <= k < 12 ==> seeds[k].end == seeds[(k + 1) % 12].start
    ensures forall k :: 0 <= k < 12 ==> (seeds[k].start > seeds[k].end <==> k == 0)
  {
    forall k | 0 <= k < 12
      ensures seeds[k].end == seeds[(k + 1) % 12].start
      ensures seeds[k].start > seeds[k].end <==> k == 0
    {
      var next := if k == 11 then 0 else k + 1;
      assert next == (k + 1) % 12;
      assert StartHourOf(next) == 2 * k + 1;
      if k == 0 {
        HourOrder(2 * k + 1, StartHourOf(k));
      } else {
        HourOrder(StartHourOf(k), 2 * k + 1);
      }
    }
  }

  lemma HourOrder(a: nat, b: nat)
    requires a < b
    ensures a * MicrosPerHour < b * MicrosPerHour
  {
  }

  /** The data table's intervals tile the day, and only zi crosses midnight. */
  lemma TimeSlotsDataTiles()
    ensures forall k :: 0 <= k < 12 ==> TimeSlotsData[k].end == TimeSlotsData[(k + 1) % 12].start
    ensures forall k :: 0 <= k < 12 ==> (TimeSlotsData[k].start > TimeSlotsData[k].end <==> k == 0)
  {
    TimeSlotsDataHours();
    HoursTile(TimeSlotsData);
  }

  /** Position in TIME_CHOICES of the double-hour a time of day falls in: zi is hours 23 and 0. */
  function SlotIndexAt(t: Time): (k: nat)
    ensures k < 12
  {
    ((t / MicrosPerHour + 1) / 2) % 12
  }

  function SlotNameAt(t: Time): SlotName {
    TimeChoices[SlotIndexAt(t)]
  }

  /** Comparing a time with a whole hour is comparing its hour. */
  lemma HourCompare(t: Time, a: nat)
    requires a <= 24
    ensures a * MicrosPerHour <= t <==> a <= t / MicrosPerHour
  {
  }

  /** Hour h falls in the k-th double-hour exactly when the k-th entry's hours bracket it. */
  lemma IndexOfHour(h: nat, k: nat)
    requires h < 24 && k < 12
    ensures ((h + 1) / 2) % 12 == k <==>
      if k == 0 then h == 23 || h < 1 else 2 * k - 1 <= h < 2 * k + 1
  {
    var q := (h + 1) / 2;
    assert 2 * q <= h + 1 < 2 * q + 2;
  }

  /** A time between the k-th double-hour's first hour and its end falls in that double-hour. */
  lemma SlotNameInRange(t: Time, k: nat)
    requires k < 12
    requires if k == 0 then t >= 23 * MicrosPerHour || t < MicrosPerHour
             else StartHourOf(k) * MicrosPerHour <= t < (2 * k + 1) * MicrosPerHour
    ensures SlotNameAt(t) == TimeChoices[k]
  {
    IndexOfHour(t / MicrosPerHour, k);
    HourCompare(t, StartHourOf(k));
    HourCompare(t, 2 * k + 1);
  }

  /** The times from 23:00 up to 01:00 fall in zi. */
  lemma ZiHours(t: Time)
    requires t >= Hms(23, 0, 0) || t < Hms(1, 0, 0)
    ensures SlotNameAt(t) == Zi
  {
    SlotNameInRange(t, 0);
  }

  /** The times from 01:00 up to 03:00 fall in chou. */
  lemma ChouHours(t: Time)
    requires Hms(1, 0, 0) <= t < Hms(3, 0, 0)
    ensures SlotNameAt(t) == Chou
  {
    SlotNameInRange(t, 1);
  }

  /** The times from 21:00 up to 23:00 fall in hai. */
  lemma HaiHours(t: Time)
    requires Hms(21, 0, 0) <= t < Hms(23, 0, 0)
    ensures SlotNameAt(t) == Hai
  {
    SlotNameInRange(t, 11);
  }

  /** The k-th interval contains a time exactly when the time's double-hour is the k-th. */
  lemma HoursCover(seeds: seq<TimeSlot>, t: Time, k: nat)
    requires HoursByIndex(seeds) && k < 12
    ensures Contains(seeds[k], t) <==> k == SlotIndexAt(t)
  {
    var h := t / MicrosPerHour;
    IndexOfHour(h, k);
    HourCompare(t, StartHourOf(k));
    HourCompare(t, 2 * k + 1);
  }

  /** Exactly the entry named after the time's double-hour contains it. */
  lemma TimeSlotsDataCover(t: Time)
    ensures forall k :: 0 <= k < 12 ==> (Contains(TimeSlotsData[k], t) <==> k == SlotIndexAt(t))
    ensures forall k :: 0 <= k < 12 ==> (Contains(TimeSlotsData[k], t) <==> TimeSlotsData[k].name == SlotNameAt(t))
  {
    TimeSlotsDataNames();
    TimeSlotsDataHours();
    TimeChoicesDistinct();
    forall k | 0 <= k < 12
      ensures Contains(TimeSlotsData[k], t) <==> k == SlotIndexAt(t)
    {
      HoursCover(TimeSlotsData, t, k);
    }
  }

  // ---------------------------------------------------------------------------------------------
  // Acupoints

  /** The keys of an `acupoints_data` entry other than 'name'. */
  datatype AcupointField = BodyPartField | LocationDescription | MassageMethod | Benefits | Image

  const AcupointSeedFields: seq<AcupointField> := [BodyPartField, LocationDescription, MassageMethod, Benefits, Image]

  /** What `getattr` returns for one of those keys. */
  datatype AcupointFieldValue = PartValue(part: BodyPart) | TextValue(text: string) | ImageValue(image: Option<string>)

  function AcupointFieldOf(a: Acupoint, f: AcupointField): AcupointFieldValue {
    match f
    case BodyPartField => PartValue(a.bodyPart)
    case LocationDescription => TextValue(a.locationDescription)
    case MassageMethod => TextValue(a.massageMethod)
    case Benefits => TextValue(a.benefits)
    case Image => ImageValue(a.image)
  }

  predicate AcupointFieldEq(a: Acupoint, b: Acupoint, f: AcupointField) {
    AcupointFieldOf(a, f) == AcupointFieldOf(b, f)
  }

  function CopyAcupointField(row: Acupoint, seed: Acupoint, f: AcupointField): (r: Acupoint)
    ensures AcupointFieldEq(r, seed, f)
    ensures forall g :: g != f ==> AcupointFieldEq(r, row, g)
    ensures r.id == row.id && r.name == row.name && r.relatedTimeSlots == row.relatedTimeSlots
  {
    match f
    case BodyPartField => row.(bodyPart := seed.bodyPart)
    case LocationDescription => row.(locationDescription := seed.locationDescription)
    case MassageMethod => row.(massageMethod := seed.massageMethod)
    case Benefits => row.(benefits := seed.benefits)
    case Image => row.(image := seed.image)
  }

  /** The update loop over an acupoint entry's fields; `related_time_slots` is not among them. */
  function ReconcileAcupointFields(row: Acupoint, seed: Acupoint, fields: seq<AcupointField>): (r: (Acupoint, bool))
    ensures forall f :: f in fields ==> AcupointFieldEq(r.0, seed, f)
    ensures forall f :: f !in fields ==> AcupointFieldEq(r.0, row, f)
    ensures r.0.id == row.id && r.0.name == row.name && r.0.relatedTimeSlots == row.relatedTimeSlots
    decreases |fields|
  {
    if fields == [] then (row, false)
    else
      var f := fields[0];
      var differs := !AcupointFieldEq(row, seed, f);
      var next := if differs then CopyAcupointField(row, seed, f) else row;
      var rest := ReconcileAcupointFields(next, seed, fields[1..]);
      assert forall g :: g in fields <==> g == f || g in fields[1..];
      assert AcupointFieldEq(rest.0, seed, f) by {
        if f !in fields[1..] {
          assert AcupointFieldOf(rest.0, f) == AcupointFieldOf(next, f);
        }
      }
      (rest.0, rest.1 || differs)
  }

  lemma {:induction false} ReconcileAcupointFieldsChanged(row: Acupoint, seed: Acupoint, fields: seq<AcupointField>)
    ensures ReconcileAcupointFields(row, seed, fields).1 <==> exists f :: f in fields && !AcupointFieldEq(row, seed, f)
    ensures !ReconcileAcupointFields(row, seed, fields).1 ==> ReconcileAcupointFields(row, seed, fields).0 == row
    decreases |fields|
  {
    if fields != [] {
      var f := fields[0];
      var differs := !AcupointFieldEq(row, seed, f);
      var next := if differs then CopyAcupointField(row, seed, f) else row;
      ReconcileAcupointFieldsChanged(next, seed, fields[1..]);
      assert forall g :: g in fields <==> g == f || g in fields[1..];
      if differs {
        assert f in fields && !AcupointFieldEq(row, seed, f);
      } else {
        assert next == row;
      }
    }
  }

  predicate AcupointAgrees(row: Acupoint, seed: Acupoint) {
    forall f :: AcupointFieldEq(row, seed, f)
  }

  function ReconcileAcupoint(row: Acupoint, seed: Acupoint): (Acupoint, bool) {
    ReconcileAcupointFields(row, seed, AcupointSeedFields)
  }

  function AcupointKey(a: Acupoint): string {
    a.name
  }

  function AcupointPk(a: Acupoint): nat {
    a.id
  }

  function AcupointWithId(a: Acupoint, id: nat): Acupoint {
    a.(id := id)
  }

  const AcupointTable: Table<Acupoint> :=
    Table(AcupointKey, AcupointPk, AcupointWithId, AcupointAgrees, ReconcileAcupoint)

  lemma AllAcupointFieldsSeeded()
    ensures forall f :: f in AcupointSeedFields
  {
    forall f: AcupointField ensures f in AcupointSeedFields {
      match f
      case BodyPartField => assert AcupointSeedFields[0] == f;
      case LocationDescription => assert AcupointSeedFields[1] == f;
      case MassageMethod => assert AcupointSeedFields[2] == f;
      case Benefits => assert AcupointSeedFields[3] == f;
      case Image => assert AcupointSeedFields[4] == f;
    }
  }

  lemma ReconcileAcupointLaws(row: Acupoint, seed: Acupoint)
    ensures ReconcileAcupoint(row, seed).1 == !AcupointAgrees(row, seed)
    ensures AcupointAgrees(ReconcileAcupoint(row, seed).0, seed)
    ensures AcupointAgrees(row, seed) ==> ReconcileAcupoint(row, seed).0 == row
  {
    AllAcupointFieldsSeeded();
    ReconcileAcupointFieldsChanged(row, seed, AcupointSeedFields);
  }

  lemma AcupointTableLawful()
    ensures (forall row, seed :: AcupointTable.reconcile(row, seed).1 == !AcupointTable.agrees(row, seed))
    ensures (forall row, seed :: AcupointTable.agrees(AcupointTable.reconcile(row, seed).0, seed))
    ensures (forall row, seed :: AcupointTable.agrees(row, seed) ==> AcupointTable.reconcile(row, seed).0 == row)
    ensures (forall row, seed :: AcupointTable.name(AcupointTable.reconcile(row, seed).0) == AcupointTable.name(row))
    ensures (forall row, seed :: AcupointTable.id(AcupointTable.reconcile(row, seed).0) == AcupointTable.id(row))
    ensures (forall seed, i :: AcupointTable.agrees(AcupointTable.withId(seed, i), seed))
    ensures (forall seed, i :: AcupointTable.name(AcupointTable.withId(seed, i)) == AcupointTable.name(seed))
    ensures (forall seed, i :: AcupointTable.id(AcupointTable.withId(seed, i)) == i)
    ensures Lawful(AcupointTable)
  {
    forall row, seed
      ensures AcupointTable.reconcile(row, seed).1 == !AcupointTable.agrees(row, seed)
      ensures AcupointTable.agrees(AcupointTable.reconcile(row, seed).0, seed)
      ensures AcupointTable.agrees(row, seed) ==> AcupointTable.reconcile(row, seed).0 == row
    {
      ReconcileAcupointLaws(row, seed);
    }
    forall seed, i: nat
      ensures AcupointTable.agrees(AcupointTable.withId(seed, i), seed)
    {
      assert forall f :: AcupointFieldEq(AcupointWithId(seed, i), seed, f);
    }
  }

  /** One `acupoints_data` entry; the three descriptive paragraphs are opaque placeholders. */
  function AcupointEntry(name: string, part: BodyPart, picture: string): Acupoint {
    Acupoint(0, name, part, name + "/location_description", name + "/massage_method", name + "/benefits",
      Some("acupoints/" + picture + ".jpg"), {})
  }

  /** `acupoints_data`, in the command's order. */
  const AcupointsData: seq<Acupoint> := [
    AcupointEntry("听宫", Ear, "tingong"),
    AcupointEntry("翳风", Ear, "yifeng"),
    AcupointEntry("耳门", Ear, "ermen"),
    AcupointEntry("百会", Head, "baihui"),
    AcupointEntry("风池", Neck, "fengchi"),
    AcupointEntry("太冲", Foot, "taichong"),
    AcupointEntry("涌泉", Foot, "yongquan"),
    AcupointEntry("神门", Hand, "shenmen")
  ]

  lemma AcupointsDataNames()
    ensures |AcupointsData| == 8
    ensures DistinctNames(AcupointTable, AcupointsData)
    ensures forall k :: 0 <= k < |AcupointsData| ==> AcupointsData[k].relatedTimeSlots == {}
  {
  }

  // ---------------------------------------------------------------------------------------------
  // The command

  /** What one run leaves behind: the store, the per-entry reports, and the entry that raised, if one did. */
  datatype Run = Run(db: Db, slotEvents: seq<Event>, acupointEvents: seq<Event>, failed: Option<string>)

  /**
   * `handle`: the admin account, then the time slots, then the acupoints. Each save is its own
   * transaction, so an exception ends the run with the earlier writes kept.
   */
  function Handle(db: Db): (r: Run)
    ensures exists u :: u in r.db.users && u.username == AdminUsername
    ensures r.db.logs == db.logs && r.db.reminders == db.reminders && r.db.profiles == db.profiles
  {
    var db1 := InitAdminUser(db);
    var s := SeedSlots(db1.slots);
    if s.failed.Some? then Run(SlotStep(db1), s.events, [], s.failed)
    else
      var a := SeedAcupoints(db1.acupoints);
      Run(AcupointStep(SlotStep(db1)), s.events, a.events, a.failed)
  }

  function SlotStep(db: Db): Db {
    db.(slots := SeedSlots(db.slots).rows)
  }

  function AcupointStep(db: Db): Db {
    db.(acupoints := SeedAcupoints(db.acupoints).rows)
  }

  /** `init_time_slots`. */
  function SeedSlots(rows: seq<TimeSlot>): Outcome<TimeSlot> {
    SlotTableLawful();
    UpsertAll(SlotTable, rows, TimeSlotsData)
  }

  /** `init_acupoints`. */
  function SeedAcupoints(rows: seq<Acupoint>): Outcome<Acupoint> {
    AcupointTableLawful();
    UpsertAll(AcupointTable, rows, AcupointsData)
  }

  /** The slot step writes only rows named in the table, and an exception names one of its entries. */
  lemma SeedSlotsFrames(rows: seq<TimeSlot>)
    ensures Frames(SlotTable, rows, SeedSlots(rows).rows, Names(SlotTable, TimeSlotsData))
    ensures SeedSlots(rows).failed.Some? ==> SeedSlots(rows).failed.value in Names(SlotTable, TimeSlotsData)
  {
    SlotTableLawful();
    FailedIsAnEntry(SlotTable, rows, TimeSlotsData);
  }

  /** The acupoint step writes only rows named in the table, and an exception names one of its entries. */
  lemma SeedAcupointsFrames(rows: seq<Acupoint>)
    ensures Frames(AcupointTable, rows, SeedAcupoints(rows).rows, Names(AcupointTable, AcupointsData))
    ensures SeedAcupoints(rows).failed.Some? ==> SeedAcupoints(rows).failed.value in Names(AcupointTable, AcupointsData)
  {
    AcupointTableLawful();
    FailedIsAnEntry(AcupointTable, rows, AcupointsData);
  }

  /**
   * The run writes only rows named in the data tables, keeping every other row, and an exception
   * comes from the lookup of one of those names.
   */
  lemma HandleFrames(db: Db)
    ensures Frames(SlotTable, db.slots, Handle(db).db.slots, Names(SlotTable, TimeSlotsData))
    ensures Frames(AcupointTable, db.acupoints, Handle(db).db.acupoints, Names(AcupointTable, AcupointsData))
    ensures Handle(db).failed.Some? ==>
      Handle(db).failed.value in Names(SlotTable, TimeSlotsData) + Names(AcupointTable, AcupointsData)
  {
    var db1 := InitAdminUser(db);
    assert db1.slots == db.slots && db1.acupoints == db.acupoints;
    SeedSlotsFrames(db.slots);
    SeedAcupointsFrames(db.acupoints);
    if SeedSlots(db.slots).failed.Some? {
      assert Handle(db).db.acupoints == db.acupoints;
    }
  }

  // ---------------------------------------------------------------------------------------------
  // What a run guarantees

  /** `name` is unique on TimeSlot, so no entry's lookup can find two rows. */
  lemma SlotNamesUnique(rows: seq<TimeSlot>, seeds: seq<TimeSlot>)
    requires Pairwise(rows, SlotsApart)
    ensures DistinctIds(SlotTable, rows) && DistinctNames(SlotTable, rows)
    ensures NoneHeldTwice(SlotTable, rows, seeds)
  {
    forall i, j | 0 <= i < j < |rows|
      ensures SlotKey(rows[i]) != SlotKey(rows[j])
    {
      SlotTokenRoundTrip(rows[i].name);
    }
  }

  /** The time-slot phase of a run on a valid store completes and leaves every double-hour seeded. */
  lemma SlotPhase(db: Db)
    requires Pairwise(db.slots, SlotsApart)
    ensures var s := SeedSlots(db.slots);
      && s.failed.None?
      && SeededAll(SlotTable, s.rows, TimeSlotsData)
      && Pairwise(s.rows, SlotsApart)
  {
    SlotTableLawful();
    TimeSlotsDataNames();
    SlotPhaseFor(db.slots, TimeSlotsData);
  }

  /** With unique slot names, seeding any table of distinct entries succeeds and keeps them unique. */
  lemma SlotPhaseFor(rows: seq<TimeSlot>, seeds: seq<TimeSlot>)
    requires Lawful(SlotTable) && DistinctNames(SlotTable, seeds) && Pairwise(rows, SlotsApart)
    ensures var s := UpsertAll(SlotTable, rows, seeds);
      && s.failed.None?
      && SeededAll(SlotTable, s.rows, seeds)
      && Pairwise(s.rows, SlotsApart)
  {
    SlotNamesUnique(rows, seeds);
    UpsertAllSeeds(SlotTable, rows, seeds);
    var s := UpsertAll(SlotTable, rows, seeds);
    forall i, j | 0 <= i < j < |s.rows|
      ensures SlotsApart(s.rows[i], s.rows[j])
    {
      assert SlotKey(s.rows[i]) != SlotKey(s.rows[j]);
    }
  }


  /** Every row of a seeded table agrees with the entry of its name, so it covers that entry's hours. */
  lemma SeededRowCover(rows: seq<TimeSlot>, i: nat, t: Time)
    requires SeededAll(SlotTable, rows, TimeSlotsData) && i < |rows|
    ensures Contains(rows[i], t) <==> rows[i].name == SlotNameAt(t)
  {
    var k := IndexOfSlot(rows[i].name);
    TimeSlotsDataAt(k);
    var seed := TimeSlotsData[k];
    assert Seeded(SlotTable, rows, seed);
    var m := Get(rows, NameIs(SlotTable, SlotKey(seed)));
    assert NameIs(SlotTable, SlotKey(seed))(rows[i]);
    assert SlotAgrees(rows[m.index], seed);
    assert SlotFieldEq(rows[i], seed, StartTime) && SlotFieldEq(rows[i], seed, EndTime);
    TimeSlotsDataCover(t);
  }

  /** A seeded table holds a row for the double-hour of any time of day. */
  lemma SeededRowFor(rows: seq<TimeSlot>, t: Time) returns (i: nat)
    requires SeededAll(SlotTable, rows, TimeSlotsData)
    ensures i < |rows| && rows[i].name == SlotNameAt(t) && SlotAgrees(rows[i], SlotEntry(SlotNameAt(t)))
  {
    var k := SlotIndexAt(t);
    TimeSlotsDataAt(k);
    var seed := TimeSlotsData[k];
    assert Seeded(SlotTable, rows, seed);
    i := Get(rows, NameIs(SlotTable, SlotKey(seed))).index;
    SlotTokenRoundTrip(seed.name);
  }

  /** In a seeded table with unique names, exactly the row of the time's double-hour contains it. */
  lemma SeededContains(slots: seq<TimeSlot>, now: Time)
    requires SeededAll(SlotTable, slots, TimeSlotsData) && Pairwise(slots, SlotsApart)
    ensures forall s :: s in slots ==> (Contains(s, now) <==> s.name == SlotNameAt(now))
    ensures forall s, s' :: s in slots && s' in slots && Contains(s, now) && Contains(s', now) ==> s == s'
  {
    forall s | s in slots
      ensures Contains(s, now) <==> s.name == SlotNameAt(now)
    {
      var i :| 0 <= i < |slots| && slots[i] == s;
      SeededRowCover(slots, i, now);
    }
    forall s, s' | s in slots && s' in slots && Contains(s, now) && Contains(s', now)
      ensures s == s'
    {
      var i :| 0 <= i < |slots| && slots[i] == s;
      var j :| 0 <= j < |slots| && slots[j] == s';
      assert !SlotsApart(s, s');
    }
  }

  /** On a seeded store, the status endpoint reports the table's entry for the time's double-hour. */
  lemma SeededStatus(db: Db, now: Time)
    requires SeededAll(SlotTable, db.slots, TimeSlotsData) && Pairwise(db.slots, SlotsApart)
    ensures var n := SlotNameAt(now);
      CurrentTimeSlot(db, now)
      == SlotInfo(SlotToken(n), SlotTitles(n).0, SlotTitles(n).1, SlotTitles(n).2, Advice(n, "health_tips"))
  {
    var row := SeededOnlyMatch(db, now);
    AgreeingRowReport(row);
  }

  /** A row that agrees with its name's entry is reported with the entry's titles and advice. */
  lemma AgreeingRowReport(row: TimeSlot)
    requires SlotAgrees(row, SlotEntry(row.name))
    ensures var n := row.name;
      SlotInfo(SlotToken(n), row.chineseName, row.meridian, row.organ, row.healthTips)
      == SlotInfo(SlotToken(n), SlotTitles(n).0, SlotTitles(n).1, SlotTitles(n).2, Advice(n, "health_tips"))
  {
    var entry := SlotEntry(row.name);
    assert SlotFieldEq(row, entry, ChineseName) && SlotFieldEq(row, entry, Meridian);
    assert SlotFieldEq(row, entry, Organ) && SlotFieldEq(row, entry, HealthTips);
    SlotEntryTitles(row.name);
  }

  lemma SlotEntryTitles(n: SlotName)
    ensures SlotEntry(n).chineseName == SlotTitles(n).0 && SlotEntry(n).meridian == SlotTitles(n).1
    ensures SlotEntry(n).organ == SlotTitles(n).2 && SlotEntry(n).healthTips == Advice(n, "health_tips")
  {
  }

  /** On a seeded store, the home page's scan finds the row of the time's double-hour. */
  lemma SeededHome(db: Db, now: Time)
    requires SeededAll(SlotTable, db.slots, TimeSlotsData) && Pairwise(db.slots, SlotsApart)
    ensures Resolve(AllSlots(db), now).Some? && Resolve(AllSlots(db), now).value.name == SlotNameAt(now)
  {
    var row := SeededOnlyMatch(db, now);
  }

  /** The row of the time's double-hour, which on a seeded store is the only one containing the time. */
  lemma SeededOnlyMatch(db: Db, now: Time) returns (row: TimeSlot)
    requires SeededAll(SlotTable, db.slots, TimeSlotsData) && Pairwise(db.slots, SlotsApart)
    ensures row in db.slots && row.name == SlotNameAt(now) && SlotAgrees(row, SlotEntry(SlotNameAt(now)))
    ensures Resolve(AllSlots(db), now) == Some(row)
    ensures CurrentTimeSlot(db, now)
      == SlotInfo(SlotToken(row.name), row.chineseName, row.meridian, row.organ, row.healthTips)
  {
    SeededContains(db.slots, now);
    var i := SeededRowFor(db.slots, now);
    row := db.slots[i];
    StatusOfOnlyMatch(db, now, row);
  }

  /** Replacing the users by rows that keep `username` unique and keep every old key leaves the store valid. */
  lemma UserRowsKeepValid(db: Db, users: seq<User>)
    requires Valid(db) && Pairwise(users, UsersApart) && UserIds(db) <= UserIds(db.(users := users))
    ensures Valid(db.(users := users))
  {
    var after := db.(users := users);
    assert SlotIds(after) == SlotIds(db);
    assert Pairwise(after.users, UsersApart);
    assert Pairwise(after.slots, SlotsApart);
    assert Pairwise(after.acupoints, AcupointsApart);
    assert Pairwise(after.reminders, RemindersApart);
    assert Pairwise(after.profiles, ProfilesApart);
    assert (forall l :: l in after.logs ==> ValidLog(l) && l.user in UserIds(after));
    assert (forall l :: l in after.logs && l.timeSlot.Some? ==> l.timeSlot.value in SlotIds(after));
    assert (forall r :: r in after.reminders ==> r.user in UserIds(after) && r.timeSlot in SlotIds(after));
    assert (forall p :: p in after.profiles ==> p.user in UserIds(after));
    assert (forall a :: a in after.acupoints ==> a.relatedTimeSlots <= SlotIds(after));
  }

  /** The admin step keeps the store valid. */
  lemma InitAdminKeepsValid(db: Db)
    requires Valid(db)
    ensures Valid(InitAdminUser(db))
    ensures UserIds(db) <= UserIds(InitAdminUser(db))
  {
    var after := InitAdminUser(db);
    if forall u :: u in db.users ==> u.username != AdminUsername {
      var users := after.users;
      assert forall i :: 0 <= i < |db.users| ==> users[i] == db.users[i];
      forall i, j | 0 <= i < j < |users|
        ensures UsersApart(users[i], users[j])
      {
        if j == |db.users| {
          assert users[i] in db.users;
        }
      }
      forall id | id in UserIds(db)
        ensures id in UserIds(after)
      {
        var u :| u in db.users && u.id == id;
        var k :| 0 <= k < |db.users| && db.users[k] == u;
        assert users[k] == u;
      }
      UserRowsKeepValid(db, users);
    }
  }

  /** Acupoints never lose their links to time slots, and created ones have none. */
  lemma SeedAcupointsKeepsRelated(rows: seq<Acupoint>)
    ensures var r := SeedAcupoints(rows).rows;
      && (forall k :: 0 <= k < |rows| ==> r[k].relatedTimeSlots == rows[k].relatedTimeSlots)
      && (forall k :: |rows| <= k < |r| ==> r[k].relatedTimeSlots == {})
  {
    AcupointTableLawful();
    AcupointsDataNames();
    AcupointPhaseKeepsRelated(rows, AcupointsData);
  }

  /** The slots an acupoint is linked to, the one part of it the command never writes. */
  function RelatedOf(a: Acupoint): set<SlotId> {
    a.relatedTimeSlots
  }

  lemma ReconcileKeepsRelated()
    ensures forall row, seed :: RelatedOf(AcupointTable.reconcile(row, seed).0) == RelatedOf(row)
    ensures forall seed, i :: RelatedOf(AcupointTable.withId(seed, i)) == RelatedOf(seed)
  {
    forall row, seed
      ensures RelatedOf(AcupointTable.reconcile(row, seed).0) == RelatedOf(row)
    {
      var _ := ReconcileAcupointFields(row, seed, AcupointSeedFields);
    }
  }

  /** Seeding never touches an acupoint's slots; rows added from entries without slots have none. */
  lemma AcupointPhaseKeepsRelated(rows: seq<Acupoint>, seeds: seq<Acupoint>)
    requires Lawful(AcupointTable)
    requires forall k :: 0 <= k < |seeds| ==> seeds[k].relatedTimeSlots == {}
    ensures var r := UpsertAll(AcupointTable, rows, seeds).rows;
      && (forall k :: 0 <= k < |rows| ==> r[k].relatedTimeSlots == rows[k].relatedTimeSlots)
      && (forall k :: |rows| <= k < |r| ==> r[k].relatedTimeSlots == {})
  {
    ReconcileKeepsRelated();
    assert forall s :: s in seeds ==> RelatedOf(s) == {};
    UpsertAllKeeps(AcupointTable, rows, seeds, RelatedOf, {});
    var r := UpsertAll(AcupointTable, rows, seeds).rows;
    assert KeepsView(rows, r, RelatedOf, {});
    forall k | 0 <= k < |r|
      ensures k < |rows| ==> r[k].relatedTimeSlots == rows[k].relatedTimeSlots
      ensures k >= |rows| ==> r[k].relatedTimeSlots == {}
    {
      assert RelatedOf(r[k]) == r[k].relatedTimeSlots;
    }
  }

  /** Seeding keeps every old slot's key, so every stored reference to a slot stays resolvable. */
  lemma SlotIdsKept(db: Db, slots: seq<TimeSlot>, touched: set<string>)
    requires Frames(SlotTable, db.slots, slots, touched)
    ensures SlotIds(db) <= SlotIds(db.(slots := slots))
  {
    forall id | id in SlotIds(db)
      ensures id in SlotIds(db.(slots := slots))
    {
      var s :| s in db.slots && s.id == id;
      var k :| 0 <= k < |db.slots| && db.slots[k] == s;
      assert slots[k].id == id;
    }
  }

  /** Replacing the slots by rows that keep `name` unique and keep every old key leaves the store valid. */
  lemma SlotRowsKeepValid(db: Db, rows: seq<TimeSlot>)
    requires Valid(db) && Pairwise(rows, SlotsApart) && SlotIds(db) <= SlotIds(db.(slots := rows))
    ensures Valid(db.(slots := rows))
  {
    var after := db.(slots := rows);
    assert UserIds(after) == UserIds(db);
    assert Pairwise(after.users, UsersApart);
    assert Pairwise(after.slots, SlotsApart);
    assert Pairwise(after.acupoints, AcupointsApart);
    assert Pairwise(after.reminders, RemindersApart);
    assert Pairwise(after.profiles, ProfilesApart);
    assert (forall l :: l in after.logs ==> ValidLog(l) && l.user in UserIds(after));
    assert (forall l :: l in after.logs && l.timeSlot.Some? ==> l.timeSlot.value in SlotIds(after));
    assert (forall r :: r in after.reminders ==> r.user in UserIds(after) && r.timeSlot in SlotIds(after));
    assert (forall p :: p in after.profiles ==> p.user in UserIds(after));
    assert (forall a :: a in after.acupoints ==> a.relatedTimeSlots <= SlotIds(after));
  }

  /**
   * Replacing the acupoints by rows with distinct keys, where old rows keep their links and new
   * rows have none, leaves the store valid.
   */
  lemma AcupointRowsKeepValid(db: Db, rows: seq<Acupoint>)
    requires Valid(db) && Pairwise(rows, AcupointsApart) && |db.acupoints| <= |rows|
    requires forall k :: 0 <= k < |db.acupoints| ==> rows[k].relatedTimeSlots == db.acupoints[k].relatedTimeSlots
    requires forall k :: |db.acupoints| <= k < |rows| ==> rows[k].relatedTimeSlots == {}
    ensures Valid(db.(acupoints := rows))
  {
    var after := db.(acupoints := rows);
    forall x | x in rows
      ensures x.relatedTimeSlots <= SlotIds(after)
    {
      var k :| 0 <= k < |rows| && rows[k] == x;
      if k < |db.acupoints| {
        assert db.acupoints[k] in db.acupoints;
      }
    }
    assert SlotIds(after) == SlotIds(db) && UserIds(after) == UserIds(db);
    assert Pairwise(after.users, UsersApart);
    assert Pairwise(after.slots, SlotsApart);
    assert Pairwise(after.acupoints, AcupointsApart);
    assert Pairwise(after.reminders, RemindersApart);
    assert Pairwise(after.profiles, ProfilesApart);
    assert (forall l :: l in after.logs ==> ValidLog(l) && l.user in UserIds(after));
    assert (forall l :: l in after.logs && l.timeSlot.Some? ==> l.timeSlot.value in SlotIds(after));
    assert (forall r :: r in after.reminders ==> r.user in UserIds(after) && r.timeSlot in SlotIds(after));
    assert (forall p :: p in after.profiles ==> p.user in UserIds(after));
    assert (forall a :: a in after.acupoints ==> a.relatedTimeSlots <= SlotIds(after));
  }

  /** Reconciling the time slots with any data table keeps the store valid. */
  lemma SlotPhaseKeepsValid(db: Db, seeds: seq<TimeSlot>)
    requires Valid(db) && Lawful(SlotTable)
    ensures Valid(db.(slots := UpsertAll(SlotTable, db.slots, seeds).rows))
  {
    var rows := UpsertAll(SlotTable, db.slots, seeds).rows;
    SlotNamesUnique(db.slots, seeds);
    SlotIdsKept(db, rows, Names(SlotTable, seeds));
    forall i, j | 0 <= i < j < |rows|
      ensures SlotsApart(rows[i], rows[j])
    {
      assert SlotKey(rows[i]) != SlotKey(rows[j]);
    }
    SlotRowsKeepValid(db, rows);
  }

  /** AcupointMassage's only uniqueness constraint is its primary key. */
  lemma AcupointKeysApart(rows: seq<Acupoint>)
    ensures Pairwise(rows, AcupointsApart) <==> DistinctIds(AcupointTable, rows)
  {
  }

  /** When the slot names are unique, a run is the three steps one after the other. */
  lemma HandleSteps(db: Db)
    requires Pairwise(db.slots, SlotsApart)
    ensures Handle(db).db == AcupointStep(SlotStep(InitAdminUser(db)))
    ensures Handle(db).failed == SeedAcupoints(db.acupoints).failed
    ensures Handle(db).slotEvents == SeedSlots(db.slots).events
    ensures Handle(db).acupointEvents == SeedAcupoints(db.acupoints).events
  {
    var db1 := InitAdminUser(db);
    assert db1.slots == db.slots && db1.acupoints == db.acupoints;
    SlotPhase(db1);
    var s := SeedSlots(db1.slots);
    var a := SeedAcupoints(db1.acupoints);
    assert s.failed.None?;
    assert Handle(db) == Run(AcupointStep(SlotStep(db1)), s.events, a.events, a.failed);
  }

  /** After a run on a valid store every double-hour is seeded once. */
  lemma HandleSeedsSlots(db: Db)
    requires Valid(db)
    ensures SeededAll(SlotTable, Handle(db).db.slots, TimeSlotsData)
    ensures Pairwise(Handle(db).db.slots, SlotsApart)
  {
    HandleSteps(db);
    SlotPhase(InitAdminUser(db));
  }

  /**
   * After a run on a valid store, exactly one slot contains any time of day, the one of its
   * double-hour, and both the home page and the status endpoint report that double-hour with the
   * table's names.
   */
  lemma HandleResolves(db: Db, now: Time)
    requires Valid(db)
    ensures var after := Handle(db).db; var n := SlotNameAt(now);
      && (forall s :: s in after.slots ==> (Contains(s, now) <==> s.name == n))
      && (forall s, s' :: s in after.slots && s' in after.slots && Contains(s, now) && Contains(s', now) ==> s == s')
      && Resolve(AllSlots(after), now).Some?
      && Resolve(AllSlots(after), now).value.name == n
      && CurrentTimeSlot(after, now)
         == SlotInfo(SlotToken(n), SlotTitles(n).0, SlotTitles(n).1, SlotTitles(n).2, Advice(n, "health_tips"))
  {
    HandleSeedsSlots(db);
    var after := Handle(db).db;
    SeededContains(after.slots, now);
    SeededStatus(after, now);
    SeededHome(after, now);
  }

  lemma SlotStepKeepsValid(db: Db)
    requires Valid(db)
    ensures Valid(SlotStep(db))
  {
    SlotTableLawful();
    SlotPhaseKeepsValid(db, TimeSlotsData);
  }

  lemma AcupointStepKeepsValid(db: Db)
    requires Valid(db)
    ensures Valid(AcupointStep(db))
  {
    var rows := SeedAcupoints(db.acupoints).rows;
    SeedAcupointsKeepsRelated(db.acupoints);
    AcupointKeysApart(db.acupoints);
    AcupointKeysApart(rows);
    AcupointRowsKeepValid(db, rows);
  }

  /** A run keeps a valid store valid. */
  lemma HandleKeepsValid(db: Db)
    requires Valid(db)
    ensures Valid(Handle(db).db)
  {
    HandleSteps(db);
    InitAdminKeepsValid(db);
    SlotStepKeepsValid(InitAdminUser(db));
    AcupointStepKeepsValid(SlotStep(InitAdminUser(db)));
  }

  /** The acupoint step fails exactly when one of the data table's names is held by two rows. */
  lemma SeedAcupointsFails(rows: seq<Acupoint>)
    ensures SeedAcupoints(rows).failed.None? <==> NoneHeldTwice(AcupointTable, rows, AcupointsData)
  {
    AcupointTableLawful();
    AcupointsDataNames();
    UpsertAllSeeds(AcupointTable, rows, AcupointsData);
  }

  /**
   * On a valid store a run fails exactly when one of the data table's acupoint names is held by
   * two stored acupoints (`name` is not unique on AcupointMassage), and the failing lookup is then
   * that of an acupoint entry.
   */
  lemma HandleFailsOnlyOnAcupoints(db: Db)
    requires Valid(db)
    ensures Handle(db).failed.None? <==> NoneHeldTwice(AcupointTable, db.acupoints, AcupointsData)
    ensures Handle(db).failed.Some? ==> Handle(db).failed.value in Names(AcupointTable, AcupointsData)
  {
    HandleSteps(db);
    SeedAcupointsFails(db.acupoints);
    SeedAcupointsFrames(db.acupoints);
  }

  /** Seeding the slots a second time changes nothing. */
  lemma SeedSlotsTwice(rows: seq<TimeSlot>)
    requires SeedSlots(rows).failed.None?
    ensures SeedSlots(SeedSlots(rows).rows) == Outcome(SeedSlots(rows).rows, AllUnchanged(SlotTable, TimeSlotsData), None)
  {
    SlotTableLawful();
    TimeSlotsDataNames();
    SeedTwice(SlotTable, rows, TimeSlotsData);
  }

  /** Seeding the acupoints a second time changes nothing. */
  lemma SeedAcupointsTwice(rows: seq<Acupoint>)
    requires SeedAcupoints(rows).failed.None?
    ensures SeedAcupoints(SeedAcupoints(rows).rows)
      == Outcome(SeedAcupoints(rows).rows, AllUnchanged(AcupointTable, AcupointsData), None)
  {
    AcupointTableLawful();
    AcupointsDataNames();
    SeedTwice(AcupointTable, rows, AcupointsData);
  }

  /**
   * Running the command again after a complete run changes nothing and reports every entry as
   * unchanged.
   */
  lemma HandleIdempotent(db: Db)
    requires Valid(db) && Handle(db).failed.None?
    ensures var once := Handle(db).db;
      Handle(once) == Run(once, AllUnchanged(SlotTable, TimeSlotsData), AllUnchanged(AcupointTable, AcupointsData), None)
  {
    var db1 := InitAdminUser(db);
    var once := AcupointStep(SlotStep(db1));
    HandleSteps(db);
    SlotPhase(db1);
    assert once.slots == SeedSlots(db.slots).rows;
    assert once.acupoints == SeedAcupoints(db.acupoints).rows;
    SeedSlotsTwice(db.slots);
    SeedAcupointsTwice(db.acupoints);
    HandleOnFixedPoint(once);
  }

  /** A run on a store whose seeding changes nothing and that has its admin changes nothing. */
  lemma HandleOnFixedPoint(db: Db)
    requires exists u :: u in db.users && u.username == AdminUsername
    requires SeedSlots(db.slots) == Outcome(db.slots, AllUnchanged(SlotTable, TimeSlotsData), None)
    requires SeedAcupoints(db.acupoints) == Outcome(db.acupoints, AllUnchanged(AcupointTable, AcupointsData), None)
    ensures Handle(db) == Run(db, AllUnchanged(SlotTable, TimeSlotsData), AllUnchanged(AcupointTable, AcupointsData), None)
  {
    assert InitAdminUser(db) == db;
    assert SlotStep(db) == db;
    assert AcupointStep(db) == db;
  }

  /** On a seeded store every time from 23:00, across midnight, up to 01:00 is reported as zi. */
  lemma SeededZiSpansMidnight(db: Db, t: Time)
    requires SeededAll(SlotTable, db.slots, TimeSlotsData) && Pairwise(db.slots, SlotsApart)
    requires t >= Hms(23, 0, 0) || t < Hms(1, 0, 0)
    ensures CurrentTimeSlot(db, t) == SlotInfo("zi", "子时", "足少阳胆经", "胆", Advice(Zi, "health_tips"))
  {
    ZiHours(t);
    SeededStatus(db, t);
  }

  /** On a seeded store chou is reported from 01:00 up to 03:00. */
  lemma SeededChou(db: Db, t: Time)
    requires SeededAll(SlotTable, db.slots, TimeSlotsData) && Pairwise(db.slots, SlotsApart)
    requires Hms(1, 0, 0) <= t < Hms(3, 0, 0)
    ensures CurrentTimeSlot(db, t) == SlotInfo("chou", "丑时", "足厥阴肝经", "肝", Advice(Chou, "health_tips"))
  {
    ChouHours(t);
    SeededStatus(db, t);
  }

  /** On a seeded store hai is reported from 21:00 up to 23:00. */
  lemma SeededHai(db: Db, t: Time)
    requires SeededAll(SlotTable, db.slots, TimeSlotsData) && Pairwise(db.slots, SlotsApart)
    requires Hms(21, 0, 0) <= t < Hms(23, 0, 0)
    ensures CurrentTimeSlot(db, t) == SlotInfo("hai", "亥时", "手少阳三焦经", "三焦", Advice(Hai, "health_tips"))
  {
    HaiHours(t);
    SeededStatus(db, t);
  }
}
