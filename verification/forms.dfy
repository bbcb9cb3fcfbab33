/**
 * The forms of main/forms.py. Each form reads the fields listed in its `Meta.fields` (or declared
 * on it) from the submission, cleans each one as the Django form field for its model field does,
 * and either yields the cleaned values or names the fields in error.
 */
module Forms {
  import opened Wrappers
  import opened Clock
  import opened PyInt
  import opened Models

  /** `request.POST`: the submitted text under each field name. */
  type FormData = map<string, string>

  /** How a date field reads a text (the `DATE_INPUT_FORMATS` setting); `None` rejects the text. */
  type DateParser = string -> Option<Date>

  /** What a field receives: the submitted text, or `None` when its name was not sent. */
  function Value(data: FormData, key: string): Option<string> {
    if key in data then Some(data[key]) else None
  }

  /** The submitted text unless it is one of Django's empty values (a missing name or ""). */
  function Given(data: FormData, key: string): Option<string> {
    if key in data && data[key] != [] then Some(data[key]) else None
  }

  // ---------------------------------------------------------------------------------------------
  // Field cleaning

  /** A required `DateField`: blank is an error, and so is a text the parser rejects. */
  function RequiredDate(s: Option<string>, parseDate: DateParser): Option<Date> {
    if s.None? then None else parseDate(s.value)
  }

  /** A `DateField` that may be blank: blank cleans to no date. */
  function OptionalDate(s: Option<string>, parseDate: DateParser): Option<Option<Date>> {
    match s
    case None => Some(None)
    case Some(t) => if parseDate(t).Some? then Some(Some(parseDate(t).value)) else None
  }

  /**
   * A `TypedChoiceField` over the integer choices `lo`..`hi`, each offered as its `str`: the text
   * must be one of those texts exactly, and is then read as that integer.
   */
  function IntChoice(s: string, lo: int, hi: int): Option<int> {
    match ParseInt(s)
    case Some(i) => if lo <= i <= hi && IntToString(i) == s then Some(i) else None
    case None => None
  }

  /** A `ModelChoiceField` over the time slots: the text is read as a primary key, which must exist. */
  function SlotChoice(s: Option<string>, slots: set<SlotId>): Option<Option<SlotId>> {
    match s
    case None => Some(None)
    case Some(t) =>
      match ParseInt(t)
      case Some(i) => if i >= 0 && i as nat in slots then Some(Some(i as nat)) else None
      case None => None
  }

  /** A text field that may be blank: the submitted text with surrounding whitespace stripped. */
  function CleanText(data: FormData, key: string): string {
    Strip(Value(data, key).GetOr(""))
  }

  /**
   * Every text field of a form carries Django's `ProhibitNullCharactersValidator`: its cleaned text
   * must not contain the null character.
   */
  predicate NoNullCharacter(t: string) {
    '\0' !in t
  }

  /** The integer choices from `lo` to `hi`, in order. */
  predicate CountsUp(choices: seq<int>, lo: int, hi: int) {
    |choices| == hi - lo + 1 && forall k :: 0 <= k < |choices| ==> choices[k] == lo + k
  }

  /** An integer choice field accepts exactly the decimal texts of the numbers in its range. */
  lemma IntChoiceAccepts(s: string, lo: int, hi: int)
    ensures IntChoice(s, lo, hi).Some? <==> exists v :: lo <= v <= hi && s == IntToString(v)
    ensures IntChoice(s, lo, hi).Some? ==>
      var v := IntChoice(s, lo, hi).value; lo <= v <= hi && IntToString(v) == s
  {
    if exists v :: lo <= v <= hi && s == IntToString(v) {
      var v :| lo <= v <= hi && s == IntToString(v);
      ParseIntOfText(v);
    }
  }

  /** An integer choice field reads the text of each of its choices back as that choice. */
  lemma IntChoiceOfText(lo: int, hi: int, v: int)
    requires lo <= v <= hi
    ensures IntChoice(IntToString(v), lo, hi) == Some(v)
  {
    ParseIntOfText(v);
  }

  /**
   * Reading the choice directly agrees with looking the text up among the choices' texts, as
   * `TypedChoiceField` does, when the choices count up from `lo` to `hi`.
   */
  lemma IntChoiceIsChoiceLookup(s: string, choices: seq<int>, lo: int, hi: int)
    requires lo <= hi && CountsUp(choices, lo, hi)
    ensures IntChoice(s, lo, hi) == ParseChoice(choices, IntToString, s)
  {
    var r := ParseChoice(choices, IntToString, s);
    if r.Some? {
      var k :| 0 <= k < |choices| && choices[k] == r.value;
      IntChoiceOfText(lo, hi, r.value);
    } else {
      forall v | lo <= v <= hi
        ensures IntToString(v) != s
      {
        assert choices[v - lo] == v;
      }
    }
  }

  /** The decimal text of an integer reads back as it. */
  lemma ParseIntOfText(i: int)
    ensures ParseInt(IntToString(i)) == Some(i)
  {
    ParseIntOfString(i, [], []);
    assert [] + IntToString(i) + [] == IntToString(i);
  }

  /** A slot field accepts a blank, or the text of a key that exists. */
  lemma SlotChoiceAccepts(s: Option<string>, slots: set<SlotId>)
    ensures SlotChoice(s, slots).Some? <==>
      s.None? || exists id :: id in slots && ParseInt(s.value) == Some(id as int)
    ensures SlotChoice(s, slots).Some? && s.Some? ==>
      var id := SlotChoice(s, slots).value; id.Some? && id.value in slots && ParseInt(s.value) == Some(id.value as int)
  {
  }

  /** A key's decimal text selects that key. */
  lemma SlotChoiceOfText(id: SlotId, slots: set<SlotId>)
    requires id in slots
    ensures SlotChoice(Some(IntToString(id)), slots) == Some(Some(id))
  {
    ParseIntOfText(id);
  }

  /** A stripped text cleans to itself. */
  lemma CleanTextOf(data: FormData, key: string, s: string)
    requires Value(data, key) == Some(s) && Stripped(s)
    ensures CleanText(data, key) == s
  {
    StripOfStripped(s);
  }

  /** Every frequency is one of FREQUENCY_CHOICES, so exactly their tokens are accepted. */
  lemma FrequencyAccepts(s: string)
    ensures ParseFrequency(s).Some? <==> exists q :: s == FrequencyToken(q)
    ensures ParseFrequency(s).Some? ==> FrequencyToken(ParseFrequency(s).value) == s
  {
    if ParseFrequency(s).None? {
      forall q ensures s != FrequencyToken(q) {
        assert q == FrequencyChoices[if q == Continuous then 0 else if q == Intermittent then 1 else 2];
      }
    }
  }

  /** Every gender is one of GENDER_CHOICES, so exactly their tokens are accepted. */
  lemma GenderAccepts(s: string)
    ensures ParseGender(s).Some? <==> exists g :: s == GenderToken(g)
    ensures ParseGender(s).Some? ==> GenderToken(ParseGender(s).value) == s
  {
    if ParseGender(s).None? {
      forall g ensures s != GenderToken(g) {
        assert g == GenderChoices[if g == Male then 0 else if g == Female then 1 else 2];
      }
    }
  }

  // ---------------------------------------------------------------------------------------------
  // TinnitusLogForm

  /** The twelve fields of `TinnitusLogForm.Meta.fields`; `user` and the timestamps are not among them. */
  datatype LogField =
    | DateField | TimeSlotField | SeverityField | FrequencyField | DurationField | SymptomsField
    | TriggersField | MassagePointsField | MassageEffectField | MoodField | SleepQualityField
    | NotesField

  /** The name each log field is submitted under. */
  function LogFieldName(f: LogField): string {
    match f
    case DateField => "date"
    case TimeSlotField => "time_slot"
    case SeverityField => "severity"
    case FrequencyField => "frequency"
    case DurationField => "duration_minutes"
    case SymptomsField => "symptoms"
    case TriggersField => "triggers"
    case MassagePointsField => "massage_points"
    case MassageEffectField => "massage_effect"
    case MoodField => "mood"
    case SleepQualityField => "sleep_quality"
    case NotesField => "notes"
  }

  const SeverityChoices: seq<int> := [1, 2, 3, 4, 5]
  const SleepQualityChoices: seq<int> := [1, 2, 3, 4, 5, 6, 7, 8, 9, 10]
  const MoodMaxLength: nat := 100

  /** The severity field looks its text up among SEVERITY_CHOICES. */
  lemma SeverityChoiceField(s: string)
    ensures IntChoice(s, 1, 5) == ParseChoice(SeverityChoices, IntToString, s)
  {
    IntChoiceIsChoiceLookup(s, SeverityChoices, 1, 5);
  }

  /** The sleep-quality field looks its text up among SLEEP_QUALITY_CHOICES. */
  lemma SleepQualityChoiceField(s: string)
    ensures IntChoice(s, 1, 10) == ParseChoice(SleepQualityChoices, IntToString, s)
  {
    IntChoiceIsChoiceLookup(s, SleepQualityChoices, 1, 10);
  }

  /** What a valid log submission writes. */
  datatype LogFields = LogFields(
    date: Date,
    timeSlot: Option<SlotId>,
    severity: int,
    frequency: Frequency,
    durationMinutes: int,
    symptoms: string,
    triggers: string,
    massagePoints: string,
    massageEffect: string,
    mood: string,
    sleepQuality: Option<int>,
    notes: string)

  /**
   * Values the log form can produce: severity and sleep quality among their choices, an existing
   * slot, `mood` within its length, and every text with no whitespace at either end and no null
   * character.
   */
  predicate LogFieldsAcceptable(v: LogFields, slots: set<SlotId>) {
    && IsSeverity(v.severity)
    && (v.sleepQuality.Some? ==> IsSleepQuality(v.sleepQuality.value))
    && (v.timeSlot.Some? ==> v.timeSlot.value in slots)
    && |v.mood| <= MoodMaxLength
    && Stripped(v.symptoms) && Stripped(v.triggers) && Stripped(v.massagePoints)
    && Stripped(v.massageEffect) && Stripped(v.mood) && Stripped(v.notes)
    && NoNullCharacter(v.symptoms) && NoNullCharacter(v.triggers) && NoNullCharacter(v.massagePoints)
    && NoNullCharacter(v.massageEffect) && NoNullCharacter(v.mood) && NoNullCharacter(v.notes)
  }

  /** The text submitted for a log field, `None` when blank. */
  function LogRaw(data: FormData, f: LogField): Option<string> {
    Given(data, LogFieldName(f))
  }

  /** A log text field as cleaned: stripped, "" when absent. */
  function LogText(data: FormData, f: LogField): string {
    CleanText(data, LogFieldName(f))
  }

  /** `date` is required: the model's default only fills the form's initial value. */
  function LogDate(s: Option<string>, parseDate: DateParser): Option<Date> {
    RequiredDate(s, parseDate)
  }

  function LogSeverity(s: Option<string>): Option<int> {
    if s.None? then None else IntChoice(s.value, 1, 5)
  }

  function LogFrequency(s: Option<string>): Option<Frequency> {
    if s.None? then None else ParseFrequency(s.value)
  }

  /** Any integer: the `min` of 1 on the widget is an HTML attribute that the form never checks. */
  function LogDuration(s: Option<string>): Option<int> {
    if s.None? then None else ParseInt(s.value)
  }

  function LogSleepQuality(s: Option<string>): Option<Option<int>> {
    if s.None? then Some(None)
    else if IntChoice(s.value, 1, 10).Some? then Some(IntChoice(s.value, 1, 10))
    else None
  }

  /** Whether the form's cleaner for `f` accepts the submission. */
  function LogFieldOk(data: FormData, slots: set<SlotId>, parseDate: DateParser, f: LogField): bool {
    var s := LogRaw(data, f);
    match f
    case DateField => LogDate(s, parseDate).Some?
    case TimeSlotField => SlotChoice(s, slots).Some?
    case SeverityField => LogSeverity(s).Some?
    case FrequencyField => LogFrequency(s).Some?
    case DurationField => LogDuration(s).Some?
    case SleepQualityField => LogSleepQuality(s).Some?
    case MoodField => |LogText(data, MoodField)| <= MoodMaxLength && NoNullCharacter(LogText(data, MoodField))
    case SymptomsField | TriggersField | MassagePointsField | MassageEffectField | NotesField =>
      NoNullCharacter(LogText(data, f))
  }

  /** Whether the submission's value for `f` is acceptable, stated over the values it may denote. */
  ghost predicate LogFieldAccepts(data: FormData, slots: set<SlotId>, parseDate: DateParser, f: LogField) {
    var s := LogRaw(data, f);
    match f
    case DateField => s.Some? && parseDate(s.value).Some?
    case TimeSlotField => s.None? || exists id :: id in slots && ParseInt(s.value) == Some(id as int)
    case SeverityField => exists v :: 1 <= v <= 5 && s == Some(IntToString(v))
    case FrequencyField => exists q :: s == Some(FrequencyToken(q))
    case DurationField => s.Some? && ParseInt(s.value).Some?
    case SleepQualityField => s.None? || exists v :: 1 <= v <= 10 && s == Some(IntToString(v))
    case MoodField => |LogText(data, MoodField)| <= MoodMaxLength && NoNullCharacter(LogText(data, MoodField))
    case SymptomsField | TriggersField | MassagePointsField | MassageEffectField | NotesField =>
      NoNullCharacter(LogText(data, f))
  }

  /** The log fields whose cleaners reject the submission. */
  function LogErrors(data: FormData, slots: set<SlotId>, parseDate: DateParser): set<LogField> {
    set f: LogField | !LogFieldOk(data, slots, parseDate, f)
  }

  /** `TinnitusLogForm(request.POST).is_valid()` and its `cleaned_data`, or the fields in error. */
  function CleanLog(data: FormData, slots: set<SlotId>, parseDate: DateParser): (r: Result<LogFields, set<LogField>>)
    ensures r.Ok? ==> LogFieldsAcceptable(r.value, slots)
    ensures r.Err? ==> r.error != {}
  {
    var errors := LogErrors(data, slots, parseDate);
    if errors != {} then
      Err(errors)
    else
      LogNoErrors(data, slots, parseDate);
      var v := LogFields(
        LogDate(LogRaw(data, DateField), parseDate).value,
        SlotChoice(LogRaw(data, TimeSlotField), slots).value,
        LogSeverity(LogRaw(data, SeverityField)).value,
        LogFrequency(LogRaw(data, FrequencyField)).value,
        LogDuration(LogRaw(data, DurationField)).value,
        LogText(data, SymptomsField), LogText(data, TriggersField), LogText(data, MassagePointsField),
        LogText(data, MassageEffectField), LogText(data, MoodField),
        LogSleepQuality(LogRaw(data, SleepQualityField)).value,
        LogText(data, NotesField));
      LogCleanedAcceptable(data, slots, v);
      Ok(v)
  }

  /** When no field is in error, every cleaner yields a value. */
  lemma LogNoErrors(data: FormData, slots: set<SlotId>, parseDate: DateParser)
    requires LogErrors(data, slots, parseDate) == {}
    ensures LogDate(LogRaw(data, DateField), parseDate).Some?
    ensures SlotChoice(LogRaw(data, TimeSlotField), slots).Some?
    ensures LogSeverity(LogRaw(data, SeverityField)).Some?
    ensures LogFrequency(LogRaw(data, FrequencyField)).Some?
    ensures LogDuration(LogRaw(data, DurationField)).Some?
    ensures LogSleepQuality(LogRaw(data, SleepQualityField)).Some?
    ensures |LogText(data, MoodField)| <= MoodMaxLength
    ensures NoNullCharacter(LogText(data, SymptomsField)) && NoNullCharacter(LogText(data, TriggersField))
    ensures NoNullCharacter(LogText(data, MassagePointsField)) && NoNullCharacter(LogText(data, MassageEffectField))
    ensures NoNullCharacter(LogText(data, MoodField)) && NoNullCharacter(LogText(data, NotesField))
  {
    LogNoTextErrors(data, slots, parseDate);
    LogFieldNoError(data, slots, parseDate, DateField);
    LogFieldNoError(data, slots, parseDate, TimeSlotField);
    LogFieldNoError(data, slots, parseDate, SeverityField);
    LogFieldNoError(data, slots, parseDate, FrequencyField);
    LogFieldNoError(data, slots, parseDate, DurationField);
    LogFieldNoError(data, slots, parseDate, SleepQualityField);
    LogFieldNoError(data, slots, parseDate, MoodField);
  }

  /** When no field is in error, no text field holds a null character. */
  lemma LogNoTextErrors(data: FormData, slots: set<SlotId>, parseDate: DateParser)
    requires LogErrors(data, slots, parseDate) == {}
    ensures NoNullCharacter(LogText(data, SymptomsField)) && NoNullCharacter(LogText(data, TriggersField))
    ensures NoNullCharacter(LogText(data, MassagePointsField)) && NoNullCharacter(LogText(data, MassageEffectField))
    ensures NoNullCharacter(LogText(data, MoodField)) && NoNullCharacter(LogText(data, NotesField))
  {
    LogFieldNoError(data, slots, parseDate, SymptomsField);
    LogFieldNoError(data, slots, parseDate, TriggersField);
    LogFieldNoError(data, slots, parseDate, MassagePointsField);
    LogFieldNoError(data, slots, parseDate, MassageEffectField);
    LogFieldNoError(data, slots, parseDate, MoodField);
    LogFieldNoError(data, slots, parseDate, NotesField);
  }

  /** A field that is not among the errors is one whose cleaner accepts the submission. */
  lemma LogFieldNoError(data: FormData, slots: set<SlotId>, parseDate: DateParser, f: LogField)
    requires f !in LogErrors(data, slots, parseDate)
    ensures LogFieldOk(data, slots, parseDate, f)
  {
  }

  /** A stripped text field stays stripped. */
  lemma LogTextStripped(data: FormData, f: LogField)
    ensures Stripped(LogText(data, f))
  {
    StripIdempotent(Value(data, LogFieldName(f)).GetOr(""));
  }

  /** The cleaned values respect the choices and the length, and every text comes out stripped. */
  lemma LogCleanedAcceptable(data: FormData, slots: set<SlotId>, v: LogFields)
    requires v.timeSlot.Some? ==> SlotChoice(LogRaw(data, TimeSlotField), slots) == Some(v.timeSlot)
    requires LogSeverity(LogRaw(data, SeverityField)) == Some(v.severity)
    requires LogSleepQuality(LogRaw(data, SleepQualityField)) == Some(v.sleepQuality)
    requires |v.mood| <= MoodMaxLength
    requires v.symptoms == LogText(data, SymptomsField) && v.triggers == LogText(data, TriggersField)
    requires v.massagePoints == LogText(data, MassagePointsField) && v.massageEffect == LogText(data, MassageEffectField)
    requires v.mood == LogText(data, MoodField) && v.notes == LogText(data, NotesField)
    requires NoNullCharacter(v.symptoms) && NoNullCharacter(v.triggers) && NoNullCharacter(v.massagePoints)
    requires NoNullCharacter(v.massageEffect) && NoNullCharacter(v.mood) && NoNullCharacter(v.notes)
    ensures LogFieldsAcceptable(v, slots)
  {
    SeverityInRange(LogRaw(data, SeverityField));
    SleepQualityInRange(LogRaw(data, SleepQualityField));
    LogTextStripped(data, SymptomsField);
    LogTextStripped(data, TriggersField);
    LogTextStripped(data, MassagePointsField);
    LogTextStripped(data, MassageEffectField);
    LogTextStripped(data, MoodField);
    LogTextStripped(data, NotesField);
  }

  lemma SeverityInRange(s: Option<string>)
    ensures LogSeverity(s).Some? ==> IsSeverity(LogSeverity(s).value)
    ensures LogSeverity(s).Some? <==> exists v :: 1 <= v <= 5 && s == Some(IntToString(v))
  {
    if s.Some? {
      IntChoiceAccepts(s.value, 1, 5);
    }
  }

  lemma SleepQualityInRange(s: Option<string>)
    ensures LogSleepQuality(s).Some? && LogSleepQuality(s).value.Some? ==> IsSleepQuality(LogSleepQuality(s).value.value)
    ensures LogSleepQuality(s).Some? <==> s.None? || exists v :: 1 <= v <= 10 && s == Some(IntToString(v))
  {
    if s.Some? {
      IntChoiceAccepts(s.value, 1, 10);
    }
  }

  /** Each field's cleaner accepts exactly the acceptable values. */
  lemma LogFieldCleaned(data: FormData, slots: set<SlotId>, parseDate: DateParser, f: LogField)
    ensures LogFieldOk(data, slots, parseDate, f) <==> LogFieldAccepts(data, slots, parseDate, f)
  {
    var s := LogRaw(data, f);
    match f
    case TimeSlotField => SlotChoiceAccepts(s, slots);
    case SeverityField => SeverityInRange(s);
    case FrequencyField =>
      if s.Some? {
        FrequencyAccepts(s.value);
      }
    case SleepQualityField => SleepQualityInRange(s);
    case _ =>
  }

  /**
   * The form is valid exactly when every field's value is acceptable; otherwise the errors name
   * exactly the fields whose values are not.
   */
  lemma CleanLogAccepts(data: FormData, slots: set<SlotId>, parseDate: DateParser)
    ensures CleanLog(data, slots, parseDate).Ok? <==> forall f :: LogFieldAccepts(data, slots, parseDate, f)
    ensures CleanLog(data, slots, parseDate).Err? ==>
      forall f :: f in CleanLog(data, slots, parseDate).error <==> !LogFieldAccepts(data, slots, parseDate, f)
  {
    forall f
      ensures LogFieldOk(data, slots, parseDate, f) <==> LogFieldAccepts(data, slots, parseDate, f)
    {
      LogFieldCleaned(data, slots, parseDate, f);
    }
    if LogErrors(data, slots, parseDate) == {} {
      forall f
        ensures LogFieldOk(data, slots, parseDate, f)
      {
        LogFieldNoError(data, slots, parseDate, f);
      }
    } else {
      var f :| f in LogErrors(data, slots, parseDate);
    }
  }

  /** The form reads nothing but its twelve fields: submissions that agree on them clean alike. */
  lemma CleanLogReadsOnlyItsFields(a: FormData, b: FormData, slots: set<SlotId>, parseDate: DateParser)
    requires forall f :: Value(a, LogFieldName(f)) == Value(b, LogFieldName(f))
    ensures CleanLog(a, slots, parseDate) == CleanLog(b, slots, parseDate)
  {
    forall f
      ensures LogRaw(a, f) == LogRaw(b, f)
      ensures LogText(a, f) == LogText(b, f)
      ensures LogFieldOk(a, slots, parseDate, f) == LogFieldOk(b, slots, parseDate, f)
    {
      assert Value(a, LogFieldName(f)) == Value(b, LogFieldName(f));
    }
    assert LogErrors(a, slots, parseDate) == LogErrors(b, slots, parseDate);
  }

  /** The text a log's value for `f` is submitted as; a blank text for an absent slot or quality. */
  function LogFieldText(v: LogFields, f: LogField, formatDate: Date -> string): string {
    match f
    case DateField => formatDate(v.date)
    case TimeSlotField => if v.timeSlot.Some? then IntToString(v.timeSlot.value) else ""
    case SeverityField => IntToString(v.severity)
    case FrequencyField => FrequencyToken(v.frequency)
    case DurationField => IntToString(v.durationMinutes)
    case SymptomsField => v.symptoms
    case TriggersField => v.triggers
    case MassagePointsField => v.massagePoints
    case MassageEffectField => v.massageEffect
    case MoodField => v.mood
    case SleepQualityField => if v.sleepQuality.Some? then IntToString(v.sleepQuality.value) else ""
    case NotesField => v.notes
  }

  /** The submission carries, under each log field's name, the text of `v`'s value for it. */
  ghost predicate SubmitsLog(data: FormData, v: LogFields, formatDate: Date -> string) {
    forall f :: Value(data, LogFieldName(f)) == Some(LogFieldText(v, f, formatDate))
  }

  /** A submission all of whose cleaners yield `v`'s values is valid and yields `v`. */
  lemma CleanLogValues(data: FormData, slots: set<SlotId>, parseDate: DateParser, v: LogFields)
    requires LogDate(LogRaw(data, DateField), parseDate) == Some(v.date)
    requires SlotChoice(LogRaw(data, TimeSlotField), slots) == Some(v.timeSlot)
    requires LogSeverity(LogRaw(data, SeverityField)) == Some(v.severity)
    requires LogFrequency(LogRaw(data, FrequencyField)) == Some(v.frequency)
    requires LogDuration(LogRaw(data, DurationField)) == Some(v.durationMinutes)
    requires LogSleepQuality(LogRaw(data, SleepQualityField)) == Some(v.sleepQuality)
    requires LogText(data, SymptomsField) == v.symptoms && LogText(data, TriggersField) == v.triggers
    requires LogText(data, MassagePointsField) == v.massagePoints && LogText(data, MassageEffectField) == v.massageEffect
    requires LogText(data, MoodField) == v.mood && LogText(data, NotesField) == v.notes
    requires |v.mood| <= MoodMaxLength
    requires NoNullCharacter(v.symptoms) && NoNullCharacter(v.triggers) && NoNullCharacter(v.massagePoints)
    requires NoNullCharacter(v.massageEffect) && NoNullCharacter(v.mood) && NoNullCharacter(v.notes)
    ensures CleanLog(data, slots, parseDate) == Ok(v)
  {
    forall f
      ensures LogFieldOk(data, slots, parseDate, f)
    {
      match f
      case SymptomsField =>
      case TriggersField =>
      case MassagePointsField =>
      case MassageEffectField =>
      case NotesField =>
      case _ =>
    }
    assert LogErrors(data, slots, parseDate) == {};
  }

  lemma LogDateRoundTrip(v: LogFields, data: FormData, parseDate: DateParser, formatDate: Date -> string)
    requires formatDate(v.date) != [] && parseDate(formatDate(v.date)) == Some(v.date)
    requires SubmitsLog(data, v, formatDate)
    ensures LogDate(LogRaw(data, DateField), parseDate) == Some(v.date)
  {
    assert Value(data, LogFieldName(DateField)) == Some(formatDate(v.date));
  }

  lemma LogSlotRoundTrip(v: LogFields, data: FormData, slots: set<SlotId>, formatDate: Date -> string)
    requires v.timeSlot.Some? ==> v.timeSlot.value in slots
    requires SubmitsLog(data, v, formatDate)
    ensures SlotChoice(LogRaw(data, TimeSlotField), slots) == Some(v.timeSlot)
  {
    assert Value(data, LogFieldName(TimeSlotField)) == Some(LogFieldText(v, TimeSlotField, formatDate));
    if v.timeSlot.Some? {
      SlotChoiceOfText(v.timeSlot.value, slots);
    }
  }

  lemma LogSeverityRoundTrip(v: LogFields, data: FormData, formatDate: Date -> string)
    requires IsSeverity(v.severity)
    requires SubmitsLog(data, v, formatDate)
    ensures LogSeverity(LogRaw(data, SeverityField)) == Some(v.severity)
  {
    assert Value(data, LogFieldName(SeverityField)) == Some(IntToString(v.severity));
    IntChoiceOfText(1, 5, v.severity);
  }

  lemma LogFrequencyRoundTrip(v: LogFields, data: FormData, formatDate: Date -> string)
    requires SubmitsLog(data, v, formatDate)
    ensures LogFrequency(LogRaw(data, FrequencyField)) == Some(v.frequency)
  {
    assert Value(data, LogFieldName(FrequencyField)) == Some(FrequencyToken(v.frequency));
    FrequencyTokenRoundTrip(v.frequency);
  }

  lemma LogDurationRoundTrip(v: LogFields, data: FormData, formatDate: Date -> string)
    requires SubmitsLog(data, v, formatDate)
    ensures LogDuration(LogRaw(data, DurationField)) == Some(v.durationMinutes)
  {
    assert Value(data, LogFieldName(DurationField)) == Some(IntToString(v.durationMinutes));
    ParseIntOfText(v.durationMinutes);
  }

  lemma LogSleepQualityRoundTrip(v: LogFields, data: FormData, formatDate: Date -> string)
    requires v.sleepQuality.Some? ==> IsSleepQuality(v.sleepQuality.value)
    requires SubmitsLog(data, v, formatDate)
    ensures LogSleepQuality(LogRaw(data, SleepQualityField)) == Some(v.sleepQuality)
  {
    assert Value(data, LogFieldName(SleepQualityField)) == Some(LogFieldText(v, SleepQualityField, formatDate));
    if v.sleepQuality.Some? {
      IntChoiceOfText(1, 10, v.sleepQuality.value);
    }
  }

  /** A text field carrying a stripped text cleans to that text. */
  lemma LogTextRoundTrip(data: FormData, f: LogField, t: string)
    requires Value(data, LogFieldName(f)) == Some(t) && Stripped(t)
    ensures LogText(data, f) == t
  {
    StripOfStripped(t);
  }

  lemma LogNotesRoundTrip(v: LogFields, data: FormData, slots: set<SlotId>, formatDate: Date -> string)
    requires LogFieldsAcceptable(v, slots)
    requires SubmitsLog(data, v, formatDate)
    ensures LogText(data, SymptomsField) == v.symptoms && LogText(data, TriggersField) == v.triggers
    ensures LogText(data, NotesField) == v.notes
  {
    assert Value(data, LogFieldName(SymptomsField)) == Some(v.symptoms);
    LogTextRoundTrip(data, SymptomsField, v.symptoms);
    assert Value(data, LogFieldName(TriggersField)) == Some(v.triggers);
    LogTextRoundTrip(data, TriggersField, v.triggers);
    assert Value(data, LogFieldName(NotesField)) == Some(v.notes);
    LogTextRoundTrip(data, NotesField, v.notes);
  }

  lemma LogMassageRoundTrip(v: LogFields, data: FormData, slots: set<SlotId>, formatDate: Date -> string)
    requires LogFieldsAcceptable(v, slots)
    requires SubmitsLog(data, v, formatDate)
    ensures LogText(data, MassagePointsField) == v.massagePoints && LogText(data, MassageEffectField) == v.massageEffect
    ensures LogText(data, MoodField) == v.mood
  {
    assert Value(data, LogFieldName(MassagePointsField)) == Some(v.massagePoints);
    LogTextRoundTrip(data, MassagePointsField, v.massagePoints);
    assert Value(data, LogFieldName(MassageEffectField)) == Some(v.massageEffect);
    LogTextRoundTrip(data, MassageEffectField, v.massageEffect);
    assert Value(data, LogFieldName(MoodField)) == Some(v.mood);
    LogTextRoundTrip(data, MoodField, v.mood);
  }

  /**
   * Submitting the texts of acceptable values gives those values back, when the date format is one
   * the parser reads.
   */
  lemma CleanLogRoundTrip(v: LogFields, data: FormData, slots: set<SlotId>, parseDate: DateParser, formatDate: Date -> string)
    requires forall d :: formatDate(d) != [] && parseDate(formatDate(d)) == Some(d)
    requires LogFieldsAcceptable(v, slots)
    requires forall f :: Value(data, LogFieldName(f)) == Some(LogFieldText(v, f, formatDate))
    ensures CleanLog(data, slots, parseDate) == Ok(v)
  {
    assert SubmitsLog(data, v, formatDate);
    LogDateRoundTrip(v, data, parseDate, formatDate);
    LogSlotRoundTrip(v, data, slots, formatDate);
    LogSeverityRoundTrip(v, data, formatDate);
    LogFrequencyRoundTrip(v, data, formatDate);
    LogDurationRoundTrip(v, data, formatDate);
    LogSleepQualityRoundTrip(v, data, formatDate);
    LogNotesRoundTrip(v, data, slots, formatDate);
    LogMassageRoundTrip(v, data, slots, formatDate);
    CleanLogValues(data, slots, parseDate, v);
  }

  /** `form.save(commit=False)` then `log.user = request.user`; saving stamps the creation instant. */
  function NewLog(v: LogFields, user: UserId, now: Instant): (l: TinnitusLog)
    ensures l.user == user && l.createdAt == now
  {
    TinnitusLog(
      user, v.date, v.timeSlot, v.severity, v.frequency, v.durationMinutes, v.symptoms, v.triggers,
      v.massagePoints, v.massageEffect, v.mood, v.sleepQuality, v.notes, now)
  }

  /** The part of a stored log the form writes. */
  function LogFieldsOf(l: TinnitusLog): LogFields {
    LogFields(
      l.date, l.timeSlot, l.severity, l.frequency, l.durationMinutes, l.symptoms, l.triggers,
      l.massagePoints, l.massageEffect, l.mood, l.sleepQuality, l.notes)
  }

  /**
   * A log is exactly its form values, its owner and its creation instant: building a log and
   * reading its form values back are inverse, and the stored log satisfies the model's constraints.
   */
  lemma NewLogFields(v: LogFields, user: UserId, now: Instant, slots: set<SlotId>)
    ensures LogFieldsOf(NewLog(v, user, now)) == v
    ensures forall l: TinnitusLog :: NewLog(LogFieldsOf(l), l.user, l.createdAt) == l
    ensures LogFieldsAcceptable(v, slots) ==> ValidLog(NewLog(v, user, now))
  {
  }

  // ---------------------------------------------------------------------------------------------
  // UserProfileForm

  /** The seven fields of `UserProfileForm.Meta.fields`; `user` and the timestamps are not among them. */
  datatype ProfileField =
    | GenderField | BirthDateField | TinnitusStartDateField | ConstitutionTypeField
    | MedicalHistoryField | CurrentMedicationsField | LifestyleNotesField

  function ProfileFieldName(f: ProfileField): string {
    match f
    case GenderField => "gender"
    case BirthDateField => "birth_date"
    case TinnitusStartDateField => "tinnitus_start_date"
    case ConstitutionTypeField => "constitution_type"
    case MedicalHistoryField => "medical_history"
    case CurrentMedicationsField => "current_medications"
    case LifestyleNotesField => "lifestyle_notes"
  }

  const ConstitutionTypeMaxLength: nat := 50

  /** What a valid profile submission writes. */
  datatype ProfileFields = ProfileFields(
    gender: Option<Gender>,
    birthDate: Option<Date>,
    tinnitusStartDate: Option<Date>,
    constitutionType: string,
    medicalHistory: string,
    currentMedications: string,
    lifestyleNotes: string)

  /**
   * Values the profile form can produce: `constitution_type` within its length, and every text with
   * no whitespace at either end and no null character.
   */
  predicate ProfileFieldsAcceptable(v: ProfileFields) {
    && |v.constitutionType| <= ConstitutionTypeMaxLength
    && Stripped(v.constitutionType) && Stripped(v.medicalHistory)
    && Stripped(v.currentMedications) && Stripped(v.lifestyleNotes)
    && NoNullCharacter(v.constitutionType) && NoNullCharacter(v.medicalHistory)
    && NoNullCharacter(v.currentMedications) && NoNullCharacter(v.lifestyleNotes)
  }

  /** The text submitted for a profile field, `None` when blank. */
  function ProfileRaw(data: FormData, f: ProfileField): Option<string> {
    Given(data, ProfileFieldName(f))
  }

  function ProfileText(data: FormData, f: ProfileField): string {
    CleanText(data, ProfileFieldName(f))
  }

  /** `gender` may be blank (no gender); otherwise it must be one of the tokens. */
  function ProfileGender(s: Option<string>): Option<Option<Gender>> {
    if s.None? then Some(None)
    else if ParseGender(s.value).Some? then Some(ParseGender(s.value))
    else None
  }

  /** Whether the form's cleaner for `f` accepts the submission. */
  function ProfileFieldOk(data: FormData, parseDate: DateParser, f: ProfileField): bool {
    var s := ProfileRaw(data, f);
    match f
    case GenderField => ProfileGender(s).Some?
    case BirthDateField => OptionalDate(s, parseDate).Some?
    case TinnitusStartDateField => OptionalDate(s, parseDate).Some?
    case ConstitutionTypeField =>
      |ProfileText(data, ConstitutionTypeField)| <= ConstitutionTypeMaxLength
      && NoNullCharacter(ProfileText(data, ConstitutionTypeField))
    case MedicalHistoryField | CurrentMedicationsField | LifestyleNotesField => NoNullCharacter(ProfileText(data, f))
  }

  /** Whether the submission's value for `f` is acceptable, stated over the values it may denote. */
  ghost predicate ProfileFieldAccepts(data: FormData, parseDate: DateParser, f: ProfileField) {
    var s := ProfileRaw(data, f);
    match f
    case GenderField => s.None? || exists g :: s == Some(GenderToken(g))
    case BirthDateField => s.None? || parseDate(s.value).Some?
    case TinnitusStartDateField => s.None? || parseDate(s.value).Some?
    case ConstitutionTypeField =>
      |ProfileText(data, ConstitutionTypeField)| <= ConstitutionTypeMaxLength
      && NoNullCharacter(ProfileText(data, ConstitutionTypeField))
    case MedicalHistoryField | CurrentMedicationsField | LifestyleNotesField => NoNullCharacter(ProfileText(data, f))
  }

  /** The profile fields whose cleaners reject the submission. */
  function ProfileErrors(data: FormData, parseDate: DateParser): set<ProfileField> {
    set f: ProfileField | !ProfileFieldOk(data, parseDate, f)
  }

  /** `UserProfileForm(request.POST).is_valid()` and its `cleaned_data`, or the fields in error. */
  function CleanProfile(data: FormData, parseDate: DateParser): (r: Result<ProfileFields, set<ProfileField>>)
    ensures r.Ok? ==> ProfileFieldsAcceptable(r.value)
    ensures r.Err? ==> r.error != {}
  {
    var errors := ProfileErrors(data, parseDate);
    if errors != {} then
      Err(errors)
    else
      ProfileNoErrors(data, parseDate);
      var v := ProfileFields(
        ProfileGender(ProfileRaw(data, GenderField)).value,
        OptionalDate(ProfileRaw(data, BirthDateField), parseDate).value,
        OptionalDate(ProfileRaw(data, TinnitusStartDateField), parseDate).value,
        ProfileText(data, ConstitutionTypeField), ProfileText(data, MedicalHistoryField),
        ProfileText(data, CurrentMedicationsField), ProfileText(data, LifestyleNotesField));
      ProfileCleanedAcceptable(data, v);
      Ok(v)
  }

  /** When no field is in error, every cleaner yields a value. */
  lemma ProfileNoErrors(data: FormData, parseDate: DateParser)
    requires ProfileErrors(data, parseDate) == {}
    ensures ProfileGender(ProfileRaw(data, GenderField)).Some?
    ensures OptionalDate(ProfileRaw(data, BirthDateField), parseDate).Some?
    ensures OptionalDate(ProfileRaw(data, TinnitusStartDateField), parseDate).Some?
    ensures |ProfileText(data, ConstitutionTypeField)| <= ConstitutionTypeMaxLength
    ensures NoNullCharacter(ProfileText(data, ConstitutionTypeField)) && NoNullCharacter(ProfileText(data, MedicalHistoryField))
    ensures NoNullCharacter(ProfileText(data, CurrentMedicationsField)) && NoNullCharacter(ProfileText(data, LifestyleNotesField))
  {
    ProfileFieldNoError(data, parseDate, GenderField);
    ProfileFieldNoError(data, parseDate, BirthDateField);
    ProfileFieldNoError(data, parseDate, TinnitusStartDateField);
    ProfileFieldNoError(data, parseDate, ConstitutionTypeField);
    ProfileFieldNoError(data, parseDate, MedicalHistoryField);
    ProfileFieldNoError(data, parseDate, CurrentMedicationsField);
    ProfileFieldNoError(data, parseDate, LifestyleNotesField);
  }

  lemma ProfileFieldNoError(data: FormData, parseDate: DateParser, f: ProfileField)
    requires f !in ProfileErrors(data, parseDate)
    ensures ProfileFieldOk(data, parseDate, f)
  {
  }

  /** A profile text field comes out stripped. */
  lemma ProfileTextStripped(data: FormData, f: ProfileField)
    ensures Stripped(ProfileText(data, f))
  {
    StripIdempotent(Value(data, ProfileFieldName(f)).GetOr(""));
  }

  lemma ProfileCleanedAcceptable(data: FormData, v: ProfileFields)
    requires |v.constitutionType| <= ConstitutionTypeMaxLength
    requires v.constitutionType == ProfileText(data, ConstitutionTypeField)
    requires v.medicalHistory == ProfileText(data, MedicalHistoryField)
    requires v.currentMedications == ProfileText(data, CurrentMedicationsField)
    requires v.lifestyleNotes == ProfileText(data, LifestyleNotesField)
    requires NoNullCharacter(v.constitutionType) && NoNullCharacter(v.medicalHistory)
    requires NoNullCharacter(v.currentMedications) && NoNullCharacter(v.lifestyleNotes)
    ensures ProfileFieldsAcceptable(v)
  {
    ProfileTextStripped(data, ConstitutionTypeField);
    ProfileTextStripped(data, MedicalHistoryField);
    ProfileTextStripped(data, CurrentMedicationsField);
    ProfileTextStripped(data, LifestyleNotesField);
  }

  /** Each profile field's cleaner accepts exactly the acceptable values. */
  lemma ProfileFieldCleaned(data: FormData, parseDate: DateParser, f: ProfileField)
    ensures ProfileFieldOk(data, parseDate, f) <==> ProfileFieldAccepts(data, parseDate, f)
  {
    var s := ProfileRaw(data, f);
    if f == GenderField && s.Some? {
      GenderAccepts(s.value);
    }
  }

  /**
   * The profile form is valid exactly when every field's value is acceptable; otherwise the errors
   * name exactly the fields whose values are not.
   */
  lemma CleanProfileAccepts(data: FormData, parseDate: DateParser)
    ensures CleanProfile(data, parseDate).Ok? <==> forall f :: ProfileFieldAccepts(data, parseDate, f)
    ensures CleanProfile(data, parseDate).Err? ==>
      forall f :: f in CleanProfile(data, parseDate).error <==> !ProfileFieldAccepts(data, parseDate, f)
  {
    forall f
      ensures ProfileFieldOk(data, parseDate, f) <==> ProfileFieldAccepts(data, parseDate, f)
    {
      ProfileFieldCleaned(data, parseDate, f);
    }
    if ProfileErrors(data, parseDate) == {} {
      forall f
        ensures ProfileFieldOk(data, parseDate, f)
      {
        ProfileFieldNoError(data, parseDate, f);
      }
    } else {
      var f :| f in ProfileErrors(data, parseDate);
    }
  }

  /** `form.save()` on the user's profile: the seven fields are overwritten, nothing else. */
  function ApplyProfile(p: UserProfile, v: ProfileFields): (r: UserProfile)
    ensures r.user == p.user && r.createdAt == p.createdAt
  {
    p.(gender := v.gender, birthDate := v.birthDate, tinnitusStartDate := v.tinnitusStartDate,
       constitutionType := v.constitutionType, medicalHistory := v.medicalHistory,
       currentMedications := v.currentMedications, lifestyleNotes := v.lifestyleNotes)
  }

  /** The part of a profile the form writes, and the values it shows when bound to the profile. */
  function ProfileFieldsOf(p: UserProfile): ProfileFields {
    ProfileFields(
      p.gender, p.birthDate, p.tinnitusStartDate, p.constitutionType, p.medicalHistory,
      p.currentMedications, p.lifestyleNotes)
  }

  /**
   * Saving the form writes exactly the submitted values (reading them back gives them), saving the
   * values a profile already has changes nothing, and a second save replaces the first entirely.
   */
  lemma ApplyProfileLaws(p: UserProfile, v: ProfileFields, w: ProfileFields)
    ensures ProfileFieldsOf(ApplyProfile(p, v)) == v
    ensures ApplyProfile(p, ProfileFieldsOf(p)) == p
    ensures ApplyProfile(ApplyProfile(p, v), w) == ApplyProfile(p, w)
  {
  }

  function ProfileFieldText(v: ProfileFields, f: ProfileField, formatDate: Date -> string): string {
    match f
    case GenderField => if v.gender.Some? then GenderToken(v.gender.value) else ""
    case BirthDateField => if v.birthDate.Some? then formatDate(v.birthDate.value) else ""
    case TinnitusStartDateField => if v.tinnitusStartDate.Some? then formatDate(v.tinnitusStartDate.value) else ""
    case ConstitutionTypeField => v.constitutionType
    case MedicalHistoryField => v.medicalHistory
    case CurrentMedicationsField => v.currentMedications
    case LifestyleNotesField => v.lifestyleNotes
  }

  /** The submission carries, under each profile field's name, the text of `v`'s value for it. */
  ghost predicate SubmitsProfile(data: FormData, v: ProfileFields, formatDate: Date -> string) {
    forall f :: Value(data, ProfileFieldName(f)) == Some(ProfileFieldText(v, f, formatDate))
  }

  /** A submission all of whose cleaners yield `v`'s values is valid and yields `v`. */
  lemma CleanProfileValues(data: FormData, parseDate: DateParser, v: ProfileFields)
    requires ProfileGender(ProfileRaw(data, GenderField)) == Some(v.gender)
    requires OptionalDate(ProfileRaw(data, BirthDateField), parseDate) == Some(v.birthDate)
    requires OptionalDate(ProfileRaw(data, TinnitusStartDateField), parseDate) == Some(v.tinnitusStartDate)
    requires ProfileText(data, ConstitutionTypeField) == v.constitutionType
    requires ProfileText(data, MedicalHistoryField) == v.medicalHistory
    requires ProfileText(data, CurrentMedicationsField) == v.currentMedications
    requires ProfileText(data, LifestyleNotesField) == v.lifestyleNotes
    requires |v.constitutionType| <= ConstitutionTypeMaxLength
    requires NoNullCharacter(v.constitutionType) && NoNullCharacter(v.medicalHistory)
    requires NoNullCharacter(v.currentMedications) && NoNullCharacter(v.lifestyleNotes)
    ensures CleanProfile(data, parseDate) == Ok(v)
  {
    forall f
      ensures ProfileFieldOk(data, parseDate, f)
    {
      match f
      case MedicalHistoryField =>
      case CurrentMedicationsField =>
      case LifestyleNotesField =>
      case _ =>
    }
    assert ProfileErrors(data, parseDate) == {};
  }

  lemma ProfileGenderRoundTrip(v: ProfileFields, data: FormData, formatDate: Date -> string)
    requires SubmitsProfile(data, v, formatDate)
    ensures ProfileGender(ProfileRaw(data, GenderField)) == Some(v.gender)
  {
    assert Value(data, ProfileFieldName(GenderField)) == Some(ProfileFieldText(v, GenderField, formatDate));
    if v.gender.Some? {
      GenderTokenRoundTrip(v.gender.value);
    }
  }

  lemma ProfileDatesRoundTrip(v: ProfileFields, data: FormData, parseDate: DateParser, formatDate: Date -> string)
    requires forall d :: formatDate(d) != [] && parseDate(formatDate(d)) == Some(d)
    requires SubmitsProfile(data, v, formatDate)
    ensures OptionalDate(ProfileRaw(data, BirthDateField), parseDate) == Some(v.birthDate)
    ensures OptionalDate(ProfileRaw(data, TinnitusStartDateField), parseDate) == Some(v.tinnitusStartDate)
  {
    assert Value(data, ProfileFieldName(BirthDateField)) == Some(ProfileFieldText(v, BirthDateField, formatDate));
    if v.birthDate.Some? {
      var d := v.birthDate.value;
      assert formatDate(d) != [] && parseDate(formatDate(d)) == Some(d);
    }
    assert Value(data, ProfileFieldName(TinnitusStartDateField))
      == Some(ProfileFieldText(v, TinnitusStartDateField, formatDate));
    if v.tinnitusStartDate.Some? {
      var d := v.tinnitusStartDate.value;
      assert formatDate(d) != [] && parseDate(formatDate(d)) == Some(d);
    }
  }

  lemma ProfileTextsRoundTrip(v: ProfileFields, data: FormData, formatDate: Date -> string)
    requires ProfileFieldsAcceptable(v)
    requires SubmitsProfile(data, v, formatDate)
    ensures ProfileText(data, ConstitutionTypeField) == v.constitutionType
    ensures ProfileText(data, MedicalHistoryField) == v.medicalHistory
    ensures ProfileText(data, CurrentMedicationsField) == v.currentMedications
    ensures ProfileText(data, LifestyleNotesField) == v.lifestyleNotes
  {
    assert Value(data, ProfileFieldName(ConstitutionTypeField)) == Some(v.constitutionType);
    CleanTextOf(data, ProfileFieldName(ConstitutionTypeField), v.constitutionType);
    assert Value(data, ProfileFieldName(MedicalHistoryField)) == Some(v.medicalHistory);
    CleanTextOf(data, ProfileFieldName(MedicalHistoryField), v.medicalHistory);
    assert Value(data, ProfileFieldName(CurrentMedicationsField)) == Some(v.currentMedications);
    CleanTextOf(data, ProfileFieldName(CurrentMedicationsField), v.currentMedications);
    assert Value(data, ProfileFieldName(LifestyleNotesField)) == Some(v.lifestyleNotes);
    CleanTextOf(data, ProfileFieldName(LifestyleNotesField), v.lifestyleNotes);
  }

  /** Submitting the texts of acceptable profile values gives those values back. */
  lemma CleanProfileRoundTrip(v: ProfileFields, data: FormData, parseDate: DateParser, formatDate: Date -> string)
    requires forall d :: formatDate(d) != [] && parseDate(formatDate(d)) == Some(d)
    requires ProfileFieldsAcceptable(v)
    requires forall f :: Value(data, ProfileFieldName(f)) == Some(ProfileFieldText(v, f, formatDate))
    ensures CleanProfile(data, parseDate) == Ok(v)
  {
    assert SubmitsProfile(data, v, formatDate);
    ProfileGenderRoundTrip(v, data, formatDate);
    ProfileDatesRoundTrip(v, data, parseDate, formatDate);
    ProfileTextsRoundTrip(v, data, formatDate);
    CleanProfileValues(data, parseDate, v);
  }

  // ---------------------------------------------------------------------------------------------
  // TimeSlotFilterForm

  /** The three declared fields of TimeSlotFilterForm, none of them required. */
  datatype FilterField = SlotFilterField | DateFromField | DateToField

  function FilterFieldName(f: FilterField): string {
    match f
    case SlotFilterField => "time_slot"
    case DateFromField => "date_from"
    case DateToField => "date_to"
  }

  datatype SlotFilter = SlotFilter(timeSlot: Option<SlotId>, dateFrom: Option<Date>, dateTo: Option<Date>)

  /** TimeSlotFilterForm's cleaned data, or the fields in error. */
  function CleanFilter(data: FormData, slots: set<SlotId>, parseDate: DateParser): (r: Result<SlotFilter, set<FilterField>>)
    ensures r.Ok? ==> r.value.timeSlot.Some? ==> r.value.timeSlot.value in slots
    ensures r.Err? ==> r.error != {}
  {
    var slot := SlotChoice(Given(data, FilterFieldName(SlotFilterField)), slots);
    var from := OptionalDate(Given(data, FilterFieldName(DateFromField)), parseDate);
    var to := OptionalDate(Given(data, FilterFieldName(DateToField)), parseDate);
    if slot.Some? && from.Some? && to.Some? then
      SlotChoiceAccepts(Given(data, FilterFieldName(SlotFilterField)), slots);
      Ok(SlotFilter(slot.value, from.value, to.value))
    else
      Err((if slot.None? then {SlotFilterField} else {})
        + (if from.None? then {DateFromField} else {})
        + (if to.None? then {DateToField} else {}))
  }

  /**
   * Every filter field is optional: a submission leaving all three blank is valid and filters
   * nothing, and one is rejected only for a slot key that does not exist or a date the parser rejects.
   */
  lemma CleanFilterOptional(data: FormData, slots: set<SlotId>, parseDate: DateParser)
    ensures (forall f :: Given(data, FilterFieldName(f)).None?) ==>
      CleanFilter(data, slots, parseDate) == Ok(SlotFilter(None, None, None))
    ensures CleanFilter(data, slots, parseDate).Err? <==>
      || (var s := Given(data, FilterFieldName(SlotFilterField));
          s.Some? && forall id :: id in slots ==> ParseInt(s.value) != Some(id as int))
      || (var s := Given(data, FilterFieldName(DateFromField)); s.Some? && parseDate(s.value).None?)
      || (var s := Given(data, FilterFieldName(DateToField)); s.Some? && parseDate(s.value).None?)
  {
    SlotChoiceAccepts(Given(data, FilterFieldName(SlotFilterField)), slots);
    if forall f :: Given(data, FilterFieldName(f)).None? {
      assert Given(data, FilterFieldName(SlotFilterField)).None?;
      assert Given(data, FilterFieldName(DateFromField)).None?;
      assert Given(data, FilterFieldName(DateToField)).None?;
    }
  }
}
