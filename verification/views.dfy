/**
 * The page handlers of main/views.py that read or write the store: the tinnitus diary, the
 * reminder settings, the acupoint pages, the double-hour detail page and the profile page.
 * Rendering, messages and redirects are not modelled; each handler yields the store it leaves
 * behind and the rows it puts in the page context.
 */
module Views {
  import opened Wrappers
  import opened Clock
  import opened Lookup
  import opened Ordering
  import opened PyInt
  import opened Models
  import opened Forms

  // ---------------------------------------------------------------------------------------------
  // The tinnitus diary

  /** What posting the log form does: nothing without a login, the form errors, or the saved log. */
  datatype LogCreate = LoginRequired | Invalid(errors: set<LogField>) | Created(db: Db, log: TinnitusLog)

  /**
   * `tinnitus_log_create` on a POST: an anonymous visitor is sent to the login page; a valid form
   * is saved as a new log of the logged-in user, stamped with `now`; an invalid one is shown again
   * with its errors.
   */
  function CreateLog(db: Db, user: Option<UserId>, data: FormData, parseDate: DateParser, now: Instant): (r: LogCreate)
    ensures r.LoginRequired? <==> user.None?
    ensures r.Created? ==> r.log.user == user.value && r.log.createdAt == now
    ensures r.Created? ==> r.db == db.(logs := db.logs + [r.log])
    ensures r.Invalid? ==> r.errors != {}
  {
    if user.None? then LoginRequired
    else
      match CleanLog(data, SlotIds(db), parseDate)
      case Err(errors) => Invalid(errors)
      case Ok(v) =>
        var log := NewLog(v, user.value, now);
        Created(db.(logs := db.logs + [log]), log)
  }

  /**
   * A logged-in user's post is saved exactly when every field's value is acceptable, and the saved
   * log carries exactly the submitted values; otherwise the errors name the fields at fault.
   */
  lemma CreateLogAccepts(db: Db, u: UserId, data: FormData, parseDate: DateParser, now: Instant)
    ensures CreateLog(db, Some(u), data, parseDate, now).Created? <==>
      forall f :: LogFieldAccepts(data, SlotIds(db), parseDate, f)
    ensures CreateLog(db, Some(u), data, parseDate, now).Invalid? ==>
      forall f :: f in CreateLog(db, Some(u), data, parseDate, now).errors <==>
        !LogFieldAccepts(data, SlotIds(db), parseDate, f)
    ensures CreateLog(db, Some(u), data, parseDate, now).Created? ==>
      CleanLog(data, SlotIds(db), parseDate) == Ok(LogFieldsOf(CreateLog(db, Some(u), data, parseDate, now).log))
  {
    CleanLogAccepts(data, SlotIds(db), parseDate);
    var r := CleanLog(data, SlotIds(db), parseDate);
    if r.Ok? {
      NewLogFields(r.value, u, now, SlotIds(db));
    }
  }

  /** Submitting the texts of acceptable values creates a log holding exactly those values. */
  lemma CreateLogRoundTrip(
    db: Db, u: UserId, v: LogFields, data: FormData, parseDate: DateParser, formatDate: Date -> string, now: Instant)
    requires forall d :: formatDate(d) != [] && parseDate(formatDate(d)) == Some(d)
    requires LogFieldsAcceptable(v, SlotIds(db))
    requires forall f :: Value(data, LogFieldName(f)) == Some(LogFieldText(v, f, formatDate))
    ensures CreateLog(db, Some(u), data, parseDate, now) == Created(db.(logs := db.logs + [NewLog(v, u, now)]), NewLog(v, u, now))
    ensures LogFieldsOf(NewLog(v, u, now)) == v
  {
    CleanLogRoundTrip(v, data, SlotIds(db), parseDate, formatDate);
    NewLogFields(v, u, now, SlotIds(db));
  }

  /** Creating a log for an existing user leaves a consistent store. */
  lemma CreateLogKeepsValid(db: Db, u: UserId, data: FormData, parseDate: DateParser, now: Instant)
    requires Valid(db) && u in UserIds(db)
    ensures CreateLog(db, Some(u), data, parseDate, now).Created? ==> Valid(CreateLog(db, Some(u), data, parseDate, now).db)
  {
    var r := CleanLog(data, SlotIds(db), parseDate);
    if r.Ok? {
      var log := NewLog(r.value, u, now);
      NewLogFields(r.value, u, now, SlotIds(db));
      var db' := db.(logs := db.logs + [log]);
      assert UserIds(db') == UserIds(db) && SlotIds(db') == SlotIds(db);
      assert forall l :: l in db'.logs ==> l in db.logs || l == log;
    }
  }

  /** Whether log `l` belongs to user `u`. */
  predicate OwnedBy(l: TinnitusLog, u: UserId) {
    l.user == u
  }

  /** The logs of `u`, in table order. */
  function LogsOf(db: Db, u: UserId): seq<TinnitusLog> {
    Filter(db.logs, (l: TinnitusLog) => OwnedBy(l, u))
  }

  /**
   * `tinnitus_log_list`: the user's logs, newest date first. `order_by('-date')` replaces the
   * default ordering, so logs of the same date may come in any order; this is one of them.
   */
  function ListLogs(db: Db, u: UserId): (r: seq<TinnitusLog>)
    ensures Sorted(r, DatedNoEarlier)
    ensures forall l :: multiset(r)[l] == if l.user == u then multiset(db.logs)[l] else 0
  {
    OrderingsAreTotalPreorders();
    FilterCounts(db.logs, (l: TinnitusLog) => OwnedBy(l, u));
    Sort(LogsOf(db, u), DatedNoEarlier)
  }

  /** The list shows every log of the user, and only theirs. */
  lemma ListLogsMembers(db: Db, u: UserId)
    ensures forall l :: l in ListLogs(db, u) <==> l in db.logs && l.user == u
  {
    var r := ListLogs(db, u);
    forall l
      ensures l in r <==> l in db.logs && l.user == u
    {
      assert l in r <==> multiset(r)[l] > 0;
      assert l in db.logs <==> multiset(db.logs)[l] > 0;
    }
  }

  /** How many logs the helper page shows. */
  const RecentCount: nat := 5

  /** The helper page's `[:5]` of the user's logs, newest date first. */
  function RecentLogs(db: Db, u: UserId): (r: seq<TinnitusLog>)
    ensures |r| == if |ListLogs(db, u)| < RecentCount then |ListLogs(db, u)| else RecentCount
    ensures r == ListLogs(db, u)[..|r|]
  {
    var all := ListLogs(db, u);
    if |all| < RecentCount then all else all[..RecentCount]
  }

  /**
   * The recent logs are the user's newest: none of the user's logs left off the page is dated
   * later than one shown, and every log shown is the user's.
   */
  lemma RecentLogsAreNewest(db: Db, u: UserId)
    ensures forall l :: l in RecentLogs(db, u) ==> l in db.logs && l.user == u
    ensures forall i, j :: 0 <= i < |RecentLogs(db, u)| <= j < |ListLogs(db, u)| ==>
      RecentLogs(db, u)[i].date >= ListLogs(db, u)[j].date
  {
    ListLogsMembers(db, u);
  }

  /** Whether reminder `m` is an active one of user `u`. */
  predicate ActiveFor(m: Reminder, u: UserId) {
    m.user == u && m.isActive
  }

  /** The helper page's `Reminder.objects.filter(user=..., is_active=True)`, in table order. */
  function ActiveReminders(db: Db, u: UserId): (r: seq<Reminder>)
    ensures forall m :: m in r <==> m in db.reminders && m.user == u && m.isActive
  {
    Filter(db.reminders, (m: Reminder) => ActiveFor(m, u))
  }

  /** What the helper page shows a logged-in user. */
  datatype HelperContext = HelperContext(recentLogs: seq<TinnitusLog>, reminders: seq<Reminder>)

  /** `tinnitus_helper`: an anonymous visitor gets an empty context. */
  function TinnitusHelper(db: Db, user: Option<UserId>): (r: Option<HelperContext>)
    ensures r.None? <==> user.None?
    ensures r.Some? ==> r.value.recentLogs == RecentLogs(db, user.value)
    ensures r.Some? ==> forall m :: m in r.value.reminders <==> m in db.reminders && m.user == user.value && m.isActive
  {
    if user.None? then None
    else Some(HelperContext(RecentLogs(db, user.value), ActiveReminders(db, user.value)))
  }

  // ---------------------------------------------------------------------------------------------
  // Reminder settings

  /** The checkbox name for slot `id`. */
  function ReminderKey(id: SlotId): string {
    "reminder_" + IntToString(id)
  }

  /** The message box name for slot `id`. */
  function MessageKey(id: SlotId): string {
    "message_" + IntToString(id)
  }

  /** The reminder a settings submission asks for: active when the box was ticked ("on"). */
  function Requested(data: FormData, u: UserId, id: SlotId): Reminder {
    Reminder(u, id, Value(data, ReminderKey(id)) == Some("on"), Value(data, MessageKey(id)).GetOr(""))
  }

  /** Whether `m` is the reminder of user `u` for slot `id`. */
  predicate KeyIs(m: Reminder, u: UserId, id: SlotId) {
    m.user == u && m.timeSlot == id
  }

  /**
   * One iteration: `get_or_create(user, time_slot, defaults)` and, when the row existed, the
   * assignment of both fields and `save()`. Either way the row ends up as requested. `None` is the
   * MultipleObjectsReturned the lookup raises when several rows match.
   */
  function SetPreference(rows: seq<Reminder>, want: Reminder): (r: Option<seq<Reminder>>)
  {
    match Get(rows, (m: Reminder) => KeyIs(m, want.user, want.timeSlot))
    case Absent => Some(rows + [want])
    case Unique(i) => Some(rows[i := rows[i].(isActive := want.isActive, customMessage := want.customMessage)])
    case Multiple => None
  }

  /**
   * The rows after a pass that may only write the reminders of `u` for the slots `ids`: rows keep
   * their place and key, rows with another key are untouched, and new rows are appended.
   */
  ghost predicate OnlyRewrites(before: seq<Reminder>, after: seq<Reminder>, u: UserId, ids: seq<SlotId>) {
    && |before| <= |after|
    && (forall k :: 0 <= k < |before| ==> after[k].user == before[k].user && after[k].timeSlot == before[k].timeSlot)
    && (forall k :: 0 <= k < |before| && !(before[k].user == u && before[k].timeSlot in ids) ==> after[k] == before[k])
    && (forall k :: |before| <= k < |after| ==> after[k].user == u && after[k].timeSlot in ids)
  }

  lemma OnlyRewritesCompose(a: seq<Reminder>, b: seq<Reminder>, c: seq<Reminder>, u: UserId, x: seq<SlotId>, y: seq<SlotId>)
    requires OnlyRewrites(a, b, u, x) && OnlyRewrites(b, c, u, y)
    ensures OnlyRewrites(a, c, u, x + y)
  {
  }

  /**
   * On a table without duplicate keys, an iteration succeeds, leaves exactly the requested row
   * under the key, keeps the table free of duplicates and touches nothing else.
   */
  lemma SetPreferenceSpec(rows: seq<Reminder>, want: Reminder)
    requires Pairwise(rows, RemindersApart)
    ensures SetPreference(rows, want).Some?
    ensures want in SetPreference(rows, want).value
    ensures Pairwise(SetPreference(rows, want).value, RemindersApart)
    ensures OnlyRewrites(rows, SetPreference(rows, want).value, want.user, [want.timeSlot])
  {
    var g := Get(rows, (m: Reminder) => KeyIs(m, want.user, want.timeSlot));
    if g.Multiple? {
      var i, j :| 0 <= i < j < |rows| && KeyIs(rows[i], want.user, want.timeSlot) && KeyIs(rows[j], want.user, want.timeSlot);
      assert RemindersApart(rows[i], rows[j]);
    } else if g.Unique? {
      var r := SetPreference(rows, want).value;
      assert r[g.index] == want;
      forall i, j | 0 <= i < j < |r|
        ensures RemindersApart(r[i], r[j])
      {
        assert RemindersApart(rows[i], rows[j]);
      }
    } else {
      var r := SetPreference(rows, want).value;
      assert r[|rows|] == want;
      forall i, j | 0 <= i < j < |r|
        ensures RemindersApart(r[i], r[j])
      {
        if j < |rows| {
          assert RemindersApart(rows[i], rows[j]);
        } else {
          assert !KeyIs(rows[i], want.user, want.timeSlot);
        }
      }
    }
  }

  /** An iteration that finds the requested row already in place changes nothing. */
  lemma SetPreferenceInPlace(rows: seq<Reminder>, want: Reminder)
    requires Pairwise(rows, RemindersApart) && want in rows
    ensures SetPreference(rows, want) == Some(rows)
  {
    SetPreferenceSpec(rows, want);
    var k :| 0 <= k < |rows| && rows[k] == want;
    var g := Get(rows, (m: Reminder) => KeyIs(m, want.user, want.timeSlot));
    assert KeyIs(rows[k], want.user, want.timeSlot);
    assert g.Unique? && g.index == k;
    assert rows[k := rows[k].(isActive := want.isActive, customMessage := want.customMessage)] == rows;
  }

  /**
   * The POST loop of `reminder_settings` over the slots `ids`, in order. `Err` carries the rows as
   * the failing iteration found them: the rows written before it stay written.
   */
  function SaveReminders(rows: seq<Reminder>, data: FormData, u: UserId, ids: seq<SlotId>): (r: Result<seq<Reminder>, seq<Reminder>>)
    decreases |ids|
  {
    if ids == [] then Ok(rows)
    else
      match SetPreference(rows, Requested(data, u, ids[0]))
      case None => Err(rows)
      case Some(next) => SaveReminders(next, data, u, ids[1..])
  }

  /** The slot ids in a sequence of slots. */
  function IdsOf(slots: seq<TimeSlot>): (r: seq<SlotId>)
    ensures |r| == |slots| && forall k :: 0 <= k < |r| ==> r[k] == slots[k].id
  {
    seq(|slots|, k requires 0 <= k < |slots| => slots[k].id)
  }

  /** The first iteration of the loop, on a table without duplicate keys. */
  lemma SaveRemindersStep(rows: seq<Reminder>, data: FormData, u: UserId, ids: seq<SlotId>) returns (next: seq<Reminder>)
    requires Pairwise(rows, RemindersApart) && ids != []
    ensures Pairwise(next, RemindersApart) && Requested(data, u, ids[0]) in next
    ensures OnlyRewrites(rows, next, u, [ids[0]])
    ensures SaveReminders(rows, data, u, ids) == SaveReminders(next, data, u, ids[1..])
  {
    SetPreferenceSpec(rows, Requested(data, u, ids[0]));
    next := SetPreference(rows, Requested(data, u, ids[0])).value;
  }

  /**
   * On a table without duplicate keys the loop completes; afterwards every slot carries exactly
   * the reminder the submission asked for, no key is duplicated, and nothing but the user's
   * reminders for those slots was written.
   */
  lemma {:induction false} SaveRemindersSpec(rows: seq<Reminder>, data: FormData, u: UserId, ids: seq<SlotId>)
    requires Pairwise(rows, RemindersApart)
    ensures SaveReminders(rows, data, u, ids).Ok?
    ensures Pairwise(SaveReminders(rows, data, u, ids).value, RemindersApart)
    ensures forall id :: id in ids ==> Requested(data, u, id) in SaveReminders(rows, data, u, ids).value
    ensures OnlyRewrites(rows, SaveReminders(rows, data, u, ids).value, u, ids)
    decreases |ids|
  {
    if ids != [] {
      var next := SaveRemindersStep(rows, data, u, ids);
      SaveRemindersSpec(next, data, u, ids[1..]);
      var r := SaveReminders(next, data, u, ids[1..]).value;
      OnlyRewritesCompose(rows, next, r, u, [ids[0]], ids[1..]);
      assert [ids[0]] + ids[1..] == ids;
      RequestedSurvives(next, r, data, u, ids[0], ids[1..]);
      assert forall id :: id in ids ==> id == ids[0] || id in ids[1..];
    }
  }

  /**
   * A requested row survives later iterations: they rewrite it to the same values when they
   * repeat its slot and leave it alone otherwise.
   */
  lemma RequestedSurvives(rows: seq<Reminder>, r: seq<Reminder>, data: FormData, u: UserId, id: SlotId, later: seq<SlotId>)
    requires Requested(data, u, id) in rows
    requires OnlyRewrites(rows, r, u, later)
    requires forall x :: x in later ==> Requested(data, u, x) in r
    ensures Requested(data, u, id) in r
  {
    var want := Requested(data, u, id);
    if id !in later {
      var k :| 0 <= k < |rows| && rows[k] == want;
      assert r[k] == rows[k];
    }
  }

  /** When every requested row is already in place, the loop changes nothing. */
  lemma {:induction false} SaveRemindersInPlace(rows: seq<Reminder>, data: FormData, u: UserId, ids: seq<SlotId>)
    requires Pairwise(rows, RemindersApart)
    requires forall id :: id in ids ==> Requested(data, u, id) in rows
    ensures SaveReminders(rows, data, u, ids) == Ok(rows)
    decreases |ids|
  {
    if ids != [] {
      SetPreferenceInPlace(rows, Requested(data, u, ids[0]));
      assert forall id :: id in ids[1..] ==> id in ids;
      SaveRemindersInPlace(rows, data, u, ids[1..]);
    }
  }

  /** Submitting the same settings twice leaves the table as submitting them once. */
  lemma SaveRemindersIdempotent(rows: seq<Reminder>, data: FormData, u: UserId, ids: seq<SlotId>)
    requires Pairwise(rows, RemindersApart)
    ensures SaveReminders(rows, data, u, ids).Ok?
    ensures var once := SaveReminders(rows, data, u, ids).value;
      SaveReminders(once, data, u, ids) == Ok(once)
  {
    SaveRemindersSpec(rows, data, u, ids);
    SaveRemindersInPlace(SaveReminders(rows, data, u, ids).value, data, u, ids);
  }

  /** What posting the settings does: nothing without a login, a failed loop, or the new store. */
  datatype SettingsPost = SettingsLoginRequired | SettingsFailed(db: Db) | SettingsSaved(db: Db)

  /** `reminder_settings` on a POST: the loop over `TimeSlot.objects.all()`, earliest start first. */
  function ReminderSettings(db: Db, user: Option<UserId>, data: FormData): (r: SettingsPost)
    ensures r.SettingsLoginRequired? <==> user.None?
    ensures !r.SettingsLoginRequired? ==> r.db == db.(reminders := r.db.reminders)
  {
    if user.None? then SettingsLoginRequired
    else
      match SaveReminders(db.reminders, data, user.value, IdsOf(AllSlots(db)))
      case Ok(rows) => SettingsSaved(db.(reminders := rows))
      case Err(rows) => SettingsFailed(db.(reminders := rows))
  }

  /** The loop visits exactly the stored slots. */
  lemma IdsOfAllSlots(db: Db)
    ensures forall id :: id in IdsOf(AllSlots(db)) <==> id in SlotIds(db)
  {
    var ids := IdsOf(AllSlots(db));
    AllSlotsMembers(db);
    forall id | id in SlotIds(db)
      ensures id in ids
    {
      var s :| s in db.slots && s.id == id;
      var k :| 0 <= k < |AllSlots(db)| && AllSlots(db)[k] == s;
      assert ids[k] == id;
    }
  }

  /** Without duplicate keys, the requested row is the only row under its key. */
  lemma OnlyRowUnderKey(rows: seq<Reminder>, want: Reminder, m: Reminder)
    requires Pairwise(rows, RemindersApart) && want in rows
    requires m in rows && KeyIs(m, want.user, want.timeSlot)
    ensures m == want
  {
    var i :| 0 <= i < |rows| && rows[i] == m;
    var j :| 0 <= j < |rows| && rows[j] == want;
    assert i == j;
  }

  /** Rows written by the loop refer to the user and to stored slots. */
  lemma SavedRowsReferToStore(db: Db, u: UserId, rows: seq<Reminder>, ids: seq<SlotId>)
    requires Valid(db) && u in UserIds(db)
    requires forall id :: id in ids ==> id in SlotIds(db)
    requires OnlyRewrites(db.reminders, rows, u, ids)
    ensures forall m :: m in rows ==> m.user in UserIds(db) && m.timeSlot in SlotIds(db)
  {
    forall m | m in rows
      ensures m.user in UserIds(db) && m.timeSlot in SlotIds(db)
    {
      var k :| 0 <= k < |rows| && rows[k] == m;
      if k < |db.reminders| {
        assert db.reminders[k] in db.reminders;
      }
    }
  }

  /**
   * On a consistent store the settings are saved: every slot then has exactly one reminder of the
   * user, holding what was submitted for it; other users' reminders are untouched and keep their
   * place; the user's new reminders are for stored slots; and the store stays consistent.
   */
  lemma ReminderSettingsSpec(db: Db, u: UserId, data: FormData)
    requires Valid(db) && u in UserIds(db)
    ensures ReminderSettings(db, Some(u), data).SettingsSaved?
    ensures var r := ReminderSettings(db, Some(u), data).db;
      && Valid(r)
      && (forall s :: s in db.slots ==> Requested(data, u, s.id) in r.reminders)
      && (forall m :: m in r.reminders && m.user == u && m.timeSlot in SlotIds(db) ==> m == Requested(data, u, m.timeSlot))
      && |db.reminders| <= |r.reminders|
      && (forall k :: 0 <= k < |db.reminders| && db.reminders[k].user != u ==> r.reminders[k] == db.reminders[k])
      && (forall k :: |db.reminders| <= k < |r.reminders| ==> r.reminders[k].user == u && r.reminders[k].timeSlot in SlotIds(db))
  {
    var ids := IdsOf(AllSlots(db));
    IdsOfAllSlots(db);
    SaveRemindersSpec(db.reminders, data, u, ids);
    var rows := SaveReminders(db.reminders, data, u, ids).value;
    forall s | s in db.slots
      ensures Requested(data, u, s.id) in rows
    {
      assert s.id in SlotIds(db);
    }
    forall m | m in rows && m.user == u && m.timeSlot in SlotIds(db)
      ensures m == Requested(data, u, m.timeSlot)
    {
      OnlyRowUnderKey(rows, Requested(data, u, m.timeSlot), m);
    }
    SavedRowsReferToStore(db, u, rows, ids);
    WithRemindersValid(db, rows);
  }

  // ---------------------------------------------------------------------------------------------
  // Acupoints

  /** Whether acupoint `a` is stored under the body-part token `s`. */
  predicate OnBodyPart(a: Acupoint, s: string) {
    BodyPartToken(a.bodyPart) == s
  }

  /**
   * `acupoint_list`: every acupoint in table order, or, when the `body_part` parameter is present
   * and not empty, those stored under exactly that token.
   */
  function AcupointList(db: Db, bodyPart: Option<string>): (r: seq<Acupoint>)
    ensures |r| <= |db.acupoints|
    ensures bodyPart.None? || bodyPart.value == [] ==> r == db.acupoints
    ensures bodyPart.Some? && bodyPart.value != [] ==>
      forall a :: a in r <==> a in db.acupoints && BodyPartToken(a.bodyPart) == bodyPart.value
  {
    if bodyPart.None? || bodyPart.value == [] then db.acupoints
    else Filter(db.acupoints, (a: Acupoint) => OnBodyPart(a, bodyPart.value))
  }

  /** Filtering by a body part's token lists exactly the acupoints on that body part. */
  lemma AcupointListByPart(db: Db, b: BodyPart)
    ensures forall a :: a in AcupointList(db, Some(BodyPartToken(b))) <==> a in db.acupoints && a.bodyPart == b
  {
    BodyPartTokenRoundTrip(b);
    forall a | a in db.acupoints && BodyPartToken(a.bodyPart) == BodyPartToken(b)
      ensures a.bodyPart == b
    {
      BodyPartTokenRoundTrip(a.bodyPart);
    }
  }

  /** A token that is no body part's lists nothing: the filter compares stored tokens. */
  lemma AcupointListUnknownPart(db: Db, s: string)
    requires s != [] && ParseBodyPart(s).None?
    ensures AcupointList(db, Some(s)) == []
  {
    var r := AcupointList(db, Some(s));
    if r != [] {
      assert r[0] in r;
      BodyPartTokenRoundTrip(r[0].bodyPart);
    }
  }

  /** The outcome of `get_object_or_404`: no row (404), the row, or MultipleObjectsReturned. */
  datatype Detail<T> = NotFound | Found(row: T) | MultipleFound

  /** `acupoint_detail`: the acupoint whose primary key is the integer in the URL. */
  function AcupointDetail(db: Db, id: int): (r: Detail<Acupoint>)
    ensures r.NotFound? <==> forall a :: a in db.acupoints ==> a.id != id
    ensures r.Found? ==> r.row in db.acupoints && r.row.id == id
  {
    match Get(db.acupoints, (a: Acupoint) => a.id == id)
    case Absent => NotFound
    case Unique(i) => Found(db.acupoints[i])
    case Multiple => MultipleFound
  }

  /** Primary keys are unique, so the page shows exactly the acupoint with that key, if any. */
  lemma AcupointDetailByKey(db: Db, id: int)
    requires Pairwise(db.acupoints, AcupointsApart)
    ensures !AcupointDetail(db, id).MultipleFound?
    ensures forall a :: AcupointDetail(db, id) == Found(a) <==> a in db.acupoints && a.id == id
  {
  }

  // ---------------------------------------------------------------------------------------------
  // Double-hour detail

  /** Whether acupoint `a` is related to the slot with key `id`. */
  predicate RelatedTo(a: Acupoint, id: SlotId) {
    id in a.relatedTimeSlots
  }

  /** What the detail page shows: the slot and the acupoints related to it, in table order. */
  datatype SlotPage = SlotPage(slot: TimeSlot, relatedAcupoints: seq<Acupoint>)

  /** `time_slot_detail`: the slot stored under the name in the URL, and its related acupoints. */
  function TimeSlotDetail(db: Db, name: string): (r: Detail<SlotPage>)
    ensures r.NotFound? <==> forall s :: s in db.slots ==> SlotToken(s.name) != name
    ensures r.Found? ==> r.row.slot in db.slots && SlotToken(r.row.slot.name) == name
    ensures r.Found? ==> forall a :: a in r.row.relatedAcupoints <==> a in db.acupoints && r.row.slot.id in a.relatedTimeSlots
  {
    match Get(db.slots, (s: TimeSlot) => SlotToken(s.name) == name)
    case Absent => NotFound
    case Unique(i) =>
      var slot := db.slots[i];
      Found(SlotPage(slot, Filter(db.acupoints, (a: Acupoint) => RelatedTo(a, slot.id))))
    case Multiple => MultipleFound
  }

  /**
   * Slot names are unique, so each stored slot's page is found under its name, and a name that is
   * not one of the twelve double-hours is a 404.
   */
  lemma TimeSlotDetailByName(db: Db, s: TimeSlot, name: string)
    requires Pairwise(db.slots, SlotsApart)
    ensures s in db.slots ==>
      TimeSlotDetail(db, SlotToken(s.name)).Found? && TimeSlotDetail(db, SlotToken(s.name)).row.slot == s
    ensures ParseSlotName(name).None? ==> TimeSlotDetail(db, name).NotFound?
  {
    if s in db.slots {
      var g := Get(db.slots, (x: TimeSlot) => SlotToken(x.name) == SlotToken(s.name));
      SlotTokenInjective(db.slots[g.index].name, s.name);
    }
    if ParseSlotName(name).None? {
      forall x | x in db.slots
        ensures SlotToken(x.name) != name
      {
        SlotTokenRoundTrip(x.name);
      }
    }
  }

  // ---------------------------------------------------------------------------------------------
  // Profile

  /** The profile `get_or_create` makes: every field blank, created at `now`. */
  function BlankProfile(u: UserId, now: Instant): UserProfile {
    UserProfile(u, None, None, None, "", "", "", "", now)
  }

  /** Whether profile `p` is the profile of user `u`. */
  predicate ProfileOf(p: UserProfile, u: UserId) {
    p.user == u
  }

  /**
   * `UserProfile.objects.get_or_create(user=...)`: the table afterwards and the position of the
   * user's profile in it; `None` when several profiles match.
   */
  function GetOrCreateProfile(rows: seq<UserProfile>, u: UserId, now: Instant): (r: Option<(seq<UserProfile>, nat)>)
    ensures r.Some? ==> r.value.1 < |r.value.0| && r.value.0[r.value.1].user == u
  {
    match Get(rows, (p: UserProfile) => ProfileOf(p, u))
    case Absent => Some((rows + [BlankProfile(u, now)], |rows|))
    case Unique(i) => Some((rows, i))
    case Multiple => None
  }

  /** What the profile page does. */
  datatype ProfilePage =
    | ProfileLoginRequired
    | ProfileFailed
    | ProfileShown(db: Db, profile: UserProfile, errors: set<ProfileField>)
    | ProfileSaved(db: Db, profile: UserProfile)

  /**
   * `profile`: fetch or create the user's profile; on a POST with a valid form overwrite its seven
   * fields; otherwise show it, with the form errors if a POST was invalid. `post` is `None` on GET.
   */
  function Profile(db: Db, user: Option<UserId>, post: Option<FormData>, parseDate: DateParser, now: Instant): (r: ProfilePage)
    ensures r.ProfileLoginRequired? <==> user.None?
    ensures r.ProfileShown? || r.ProfileSaved? ==> r.db == db.(profiles := r.db.profiles) && r.profile.user == user.value
    ensures r.ProfileShown? && post.None? ==> r.errors == {}
    ensures r.ProfileSaved? ==> post.Some?
  {
    if user.None? then ProfileLoginRequired
    else
      match GetOrCreateProfile(db.profiles, user.value, now)
      case None => ProfileFailed
      case Some((rows, i)) =>
        var p := rows[i];
        if post.None? then ProfileShown(db.(profiles := rows), p, {})
        else
          match CleanProfile(post.value, parseDate)
          case Err(errors) => ProfileShown(db.(profiles := rows), p, errors)
          case Ok(v) =>
            var q := ApplyProfile(p, v);
            ProfileSaved(db.(profiles := rows[i := q]), q)
  }

  /**
   * The profile table `after` holds `p` as user `u`'s only profile, has no duplicate profiles, grew
   * by at most one row, and keeps every other user's profile in its place.
   */
  ghost predicate OnlyProfileOf(before: seq<UserProfile>, after: seq<UserProfile>, p: UserProfile, u: UserId) {
    && Pairwise(after, ProfilesApart)
    && p in after
    && p.user == u
    && (forall q :: q in after && q.user == u ==> q == p)
    && (forall q :: q in after ==> q in before || q == p)
    && |before| <= |after| <= |before| + 1
    && (forall k :: 0 <= k < |before| && before[k].user != u ==> after[k] == before[k])
  }

  /**
   * Without duplicate profiles, get-or-create succeeds and leaves the user exactly one profile; a
   * blank one is appended only when they had none.
   */
  lemma GetOrCreateProfileSpec(rows: seq<UserProfile>, u: UserId, now: Instant)
    requires Pairwise(rows, ProfilesApart)
    ensures GetOrCreateProfile(rows, u, now).Some?
    ensures var (after, i) := GetOrCreateProfile(rows, u, now).value;
      && OnlyProfileOf(rows, after, after[i], u)
      && (after == rows || (after == rows + [BlankProfile(u, now)] && forall p :: p in rows ==> p.user != u))
  {
    var g := Get(rows, (p: UserProfile) => ProfileOf(p, u));
    if g.Absent? {
      var after := rows + [BlankProfile(u, now)];
      forall i, j | 0 <= i < j < |after|
        ensures ProfilesApart(after[i], after[j])
      {
        if j < |rows| {
          assert ProfilesApart(rows[i], rows[j]);
        } else {
          assert !ProfileOf(rows[i], u);
        }
      }
    }
  }

  /** Overwriting the user's only profile in place keeps it their only profile. */
  lemma OverwriteProfile(before: seq<UserProfile>, after: seq<UserProfile>, i: nat, q: UserProfile, u: UserId)
    requires i < |after| && OnlyProfileOf(before, after, after[i], u) && q.user == u
    ensures OnlyProfileOf(before, after[i := q], q, u)
  {
    var next := after[i := q];
    forall a, b | 0 <= a < b < |next|
      ensures ProfilesApart(next[a], next[b])
    {
      assert ProfilesApart(after[a], after[b]);
    }
    forall x | x in next
      ensures x.user == u ==> x == q
      ensures x in before || x == q
    {
      var k :| 0 <= k < |next| && next[k] == x;
      if k != i {
        assert after[k] in after;
      }
    }
    assert next[i] == q;
  }

  /**
   * On a store without duplicate profiles the page never fails: afterwards the user has exactly
   * one profile, the one shown or saved, and other users' profiles are untouched. A valid POST
   * writes exactly the submitted values into it.
   */
  lemma ProfileSpec(db: Db, u: UserId, post: Option<FormData>, parseDate: DateParser, now: Instant)
    requires Pairwise(db.profiles, ProfilesApart)
    ensures !Profile(db, Some(u), post, parseDate, now).ProfileFailed?
    ensures var r := Profile(db, Some(u), post, parseDate, now);
      OnlyProfileOf(db.profiles, r.db.profiles, r.profile, u)
    ensures var r := Profile(db, Some(u), post, parseDate, now);
      r.ProfileSaved? ==> CleanProfile(post.value, parseDate) == Ok(ProfileFieldsOf(r.profile))
  {
    GetOrCreateProfileSpec(db.profiles, u, now);
    var (rows, i) := GetOrCreateProfile(db.profiles, u, now).value;
    var r := Profile(db, Some(u), post, parseDate, now);
    if r.ProfileSaved? {
      var v := CleanProfile(post.value, parseDate).value;
      ApplyProfileLaws(rows[i], v, v);
      OverwriteProfile(db.profiles, rows, i, ApplyProfile(rows[i], v), u);
    }
  }

  /** Visiting the page a second time creates nothing: the store is as the first visit left it. */
  lemma ProfileRevisit(db: Db, u: UserId, parseDate: DateParser, now: Instant, later: Instant)
    requires Pairwise(db.profiles, ProfilesApart)
    ensures var first := Profile(db, Some(u), None, parseDate, now);
      Profile(first.db, Some(u), None, parseDate, later) == first
  {
    ProfileSpec(db, u, None, parseDate, now);
    var first := Profile(db, Some(u), None, parseDate, now);
    var (rows, i) := GetOrCreateProfile(db.profiles, u, now).value;
    var g := Get(rows, (p: UserProfile) => ProfileOf(p, u));
    assert ProfileOf(rows[i], u);
  }

  /** The page leaves a consistent store when the user exists. */
  lemma ProfileKeepsValid(db: Db, u: UserId, post: Option<FormData>, parseDate: DateParser, now: Instant)
    requires Valid(db) && u in UserIds(db)
    ensures Valid(Profile(db, Some(u), post, parseDate, now).db)
  {
    ProfileSpec(db, u, post, parseDate, now);
    var rows := Profile(db, Some(u), post, parseDate, now).db.profiles;
    WithProfilesValid(db, rows);
  }

  /** Replacing the profile table keeps the store consistent if the new rows are apart and owned. */
  lemma WithProfilesValid(db: Db, rows: seq<UserProfile>)
    requires Valid(db)
    requires Pairwise(rows, ProfilesApart) && forall p :: p in rows ==> p.user in UserIds(db)
    ensures Valid(db.(profiles := rows))
  {
    assert UserIds(db.(profiles := rows)) == UserIds(db) && SlotIds(db.(profiles := rows)) == SlotIds(db);
  }

  /** Replacing the reminder table keeps the store consistent if the new rows are apart and refer to the store. */
  lemma WithRemindersValid(db: Db, rows: seq<Reminder>)
    requires Valid(db)
    requires Pairwise(rows, RemindersApart)
    requires forall m :: m in rows ==> m.user in UserIds(db) && m.timeSlot in SlotIds(db)
    ensures Valid(db.(reminders := rows))
  {
    assert UserIds(db.(reminders := rows)) == UserIds(db) && SlotIds(db.(reminders := rows)) == SlotIds(db);
  }
}
