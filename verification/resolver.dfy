/**
 * The current double-hour: the scan over the time slots that the home page and the status API
 * both perform (main/views.py), and the API's response.
 */
module Resolver {
  import opened Wrappers
  import opened Clock
  import opened Lookup
  import opened Models

  /**
   * Whether `slot` covers the time of day `t`. A slot whose start is after its end crosses
   * midnight and covers the times from its start on and those before its end; any other slot
   * covers its start and the times up to, but not including, its end.
   */
  predicate Contains(slot: TimeSlot, t: Time) {
    if slot.start > slot.end then t >= slot.start || t < slot.end
    else slot.start <= t < slot.end
  }

  /** Where the slot ends on a time line that continues past midnight into the next day. */
  function UnfoldedEnd(slot: TimeSlot): int {
    if slot.start > slot.end then slot.end + MicrosPerDay else slot.end
  }

  /**
   * The slot's interval, unfolded across midnight, is the half-open [start, end): a time of day
   * lies in the slot iff that time, on the slot's own day or on the next, lies in that interval.
   */
  lemma ContainsIffInUnfoldedInterval(slot: TimeSlot, t: Time)
    ensures Contains(slot, t) <==>
      (slot.start <= t < UnfoldedEnd(slot) || slot.start <= t + MicrosPerDay < UnfoldedEnd(slot))
  {
  }

  /** A slot contains its start and never its end, unless it is empty (start equals end). */
  lemma BoundsOfSlot(slot: TimeSlot)
    ensures slot.start != slot.end ==> Contains(slot, slot.start)
    ensures !Contains(slot, slot.end)
  {
  }

  /** The first slot, in iteration order, that contains `t`; `None` when none does. */
  function Resolve(slots: seq<TimeSlot>, t: Time): (r: Option<TimeSlot>)
    ensures r.Some? ==> exists i :: 0 <= i < |slots| && slots[i] == r.value && Contains(slots[i], t)
                                    && forall j :: 0 <= j < i ==> !Contains(slots[j], t)
    ensures r.None? <==> forall i :: 0 <= i < |slots| ==> !Contains(slots[i], t)
  {
    match FirstFrom(slots, (s: TimeSlot) => Contains(s, t), 0)
    case Some(i) => Some(slots[i])
    case None => None
  }

  /** When one slot is the only one that contains `t`, the scan finds it, wherever it sits. */
  lemma ResolveUniqueMatch(slots: seq<TimeSlot>, t: Time, s: TimeSlot)
    requires s in slots && Contains(s, t)
    requires forall i :: 0 <= i < |slots| && Contains(slots[i], t) ==> slots[i] == s
    ensures Resolve(slots, t) == Some(s)
  {
  }

  /** The page-context of the home view: every slot, earliest start first, and the current one. */
  datatype HomeContext = HomeContext(timeSlots: seq<TimeSlot>, currentTimeSlot: Option<TimeSlot>)

  /**
   * The home view's loop: walk the slots ordered by start time and stop at the first that
   * contains `now`.
   */
  method Home(db: Db, now: Time) returns (ctx: HomeContext)
    ensures ctx.timeSlots == AllSlots(db)
    ensures ctx.currentTimeSlot.Some? ==>
      exists i :: 0 <= i < |ctx.timeSlots| && ctx.timeSlots[i] == ctx.currentTimeSlot.value
        && Contains(ctx.timeSlots[i], now) && forall j :: 0 <= j < i ==> !Contains(ctx.timeSlots[j], now)
    ensures ctx.currentTimeSlot.None? <==> forall s :: s in db.slots ==> !Contains(s, now)
    ensures ctx.currentTimeSlot == Resolve(AllSlots(db), now)
  {
    var timeSlots := AllSlots(db);
    var current: Option<TimeSlot> := None;
    var k := 0;
    while k < |timeSlots| && current.None?
      invariant 0 <= k <= |timeSlots|
      invariant forall j :: 0 <= j < k ==> !Contains(timeSlots[j], now)
      invariant current.Some? ==> k < |timeSlots| && current == Some(timeSlots[k]) && Contains(timeSlots[k], now)
      decreases |timeSlots| - k, if current.None? then 1 else 0
    {
      var slot := timeSlots[k];
      if slot.start > slot.end {
        if now >= slot.start || now < slot.end {
          current := Some(slot);
        }
      } else {
        if slot.start <= now < slot.end {
          current := Some(slot);
        }
      }
      if current.None? {
        k := k + 1;
      }
    }
    if current.Some? {
      ResolveFirst(timeSlots, now, k);
    }
    AllSlotsMembers(db);
    ctx := HomeContext(timeSlots, current);
  }

  /** The scan returns the slot at `k` when it contains `t` and no earlier slot does. */
  lemma ResolveFirst(slots: seq<TimeSlot>, t: Time, k: nat)
    requires k < |slots| && Contains(slots[k], t)
    requires forall j :: 0 <= j < k ==> !Contains(slots[j], t)
    ensures Resolve(slots, t) == Some(slots[k])
  {
    var r := Resolve(slots, t);
    var i :| 0 <= i < |slots| && slots[i] == r.value && Contains(slots[i], t)
             && forall j :: 0 <= j < i ==> !Contains(slots[j], t);
    assert i == k;
  }

  /** The status API's JSON body: the current slot's description, or an error object. */
  datatype StatusResponse =
    | SlotInfo(name: string, chineseName: string, meridian: string, organ: string, healthTips: string)
    | NotFound(error: string)

  const NotFoundMessage: string := "未找到当前时辰信息"

  /**
   * The status API: the same scan over the same ordering, answered with five fields of the
   * found slot, or with the error object when no slot contains `now`.
   */
  function CurrentTimeSlot(db: Db, now: Time): (r: StatusResponse)
    ensures r.SlotInfo? <==> exists s :: s in db.slots && Contains(s, now)
    ensures r.SlotInfo? ==>
      exists s :: s in db.slots && Contains(s, now)
        && r == SlotInfo(SlotToken(s.name), s.chineseName, s.meridian, s.organ, s.healthTips)
    ensures r.NotFound? ==> r.error == NotFoundMessage
  {
    var slots := AllSlots(db);
    AllSlotsMembers(db);
    match Resolve(slots, now)
    case Some(s) => SlotInfo(SlotToken(s.name), s.chineseName, s.meridian, s.organ, s.healthTips)
    case None => NotFound(NotFoundMessage)
  }

  /** When exactly one stored slot contains `now`, the status API reports that slot. */
  lemma StatusOfOnlyMatch(db: Db, now: Time, s: TimeSlot)
    requires s in db.slots && Contains(s, now)
    requires forall s' :: s' in db.slots && Contains(s', now) ==> s' == s
    ensures CurrentTimeSlot(db, now) == SlotInfo(SlotToken(s.name), s.chineseName, s.meridian, s.organ, s.healthTips)
    ensures Resolve(AllSlots(db), now) == Some(s)
  {
    AllSlotsMembers(db);
    ResolveUniqueMatch(AllSlots(db), now, s);
  }

  /** The home page and the status API agree on the current slot for the same store and time. */
  lemma HomeAndApiAgree(db: Db, now: Time)
    ensures CurrentTimeSlot(db, now).SlotInfo? <==> Resolve(AllSlots(db), now).Some?
    ensures Resolve(AllSlots(db), now).Some? ==>
      var s := Resolve(AllSlots(db), now).value;
      CurrentTimeSlot(db, now) == SlotInfo(SlotToken(s.name), s.chineseName, s.meridian, s.organ, s.healthTips)
  {
  }
}
