/**
 * The order drawer of src/components/CartSidebar.jsx: the pickup-slot
 * generator, the form-state update, the order record and the rule that
 * disables the submit button.
 *
 * A moment is a weekday (`getDay()`, 0 = Sunday), the whole seconds elapsed
 * since local midnight and the milliseconds within the current second; time
 * zones and daylight saving are outside the model.
 */
module CartSidebar {
  import opened Text
  import Cart

  type Millis = m: nat | m < 1000

  datatype Instant = Instant(weekday: nat, secondOfDay: nat, millis: Millis)

  /** Milliseconds since local midnight. */
  function MsOfDay(now: Instant): nat {
    now.secondOfDay * 1000 + now.millis
  }

  const Tuesday: nat := 2
  const StartHour: nat := 14
  const EndHour: nat := 18
  const StepMinutes: nat := 15
  /** The lead time: a slot must lie strictly after now + 15 min. */
  const LeadMs: nat := 15 * 60000
  /** Four quarter hours in each of the hours 14 to 17. */
  const GridSize: nat := 16

  // ---------------------------------------------------------------------------
  // The grid 14h00, 14h15, ..., 17h45
  // ---------------------------------------------------------------------------

  function GridHour(k: nat): nat {
    StartHour + k / 4
  }

  function GridMinute(k: nat): nat {
    15 * (k % 4)
  }

  /** The label of grid point k, 14h00 + 15 k minutes. */
  function GridLabel(k: nat): (s: string)
    requires k < GridSize
    ensures IsClockLabel(s)
  {
    ClockLabel(GridHour(k), GridMinute(k))
  }

  /** Grid point k lies 15 k minutes after 14h00. */
  lemma GridPointMinutes(k: nat)
    requires k < GridSize
    ensures GridHour(k) * 60 + GridMinute(k) == 14 * 60 + 15 * k
    ensures LabelMinutes(GridLabel(k)) == 14 * 60 + 15 * k
  {
    assert k == 4 * (k / 4) + k % 4;
    ClockLabelMinutes(GridHour(k), GridMinute(k));
  }

  /** The labels of grid points a, a + 1, ..., b - 1. */
  function GridRange(a: nat, b: nat): (r: seq<string>)
    requires a <= b <= GridSize
    ensures |r| == b - a
    decreases b
  {
    if a == b then [] else GridRange(a, b - 1) + [GridLabel(b - 1)]
  }

  lemma {:induction false} GridRangeAt(a: nat, b: nat, i: nat)
    requires a <= b <= GridSize && i < b - a
    ensures GridRange(a, b)[i] == GridLabel(a + i)
    decreases b
  {
    if i < b - 1 - a {
      GridRangeAt(a, b - 1, i);
    }
  }

  /**
   * `slotTime`: today at h:m:00. `setHours(h, m, 0)` leaves the milliseconds
   * of the moment it was created, read here as those of `now`.
   */
  function SlotMs(now: Instant, h: nat, m: nat): nat {
    h * 3600000 + m * 60000 + now.millis
  }

  /** `slotTime > bufferTime` for grid point k, whose time of day is 14h00 + 15 k min. */
  predicate Bookable(now: Instant, k: nat) {
    (14 * 60 + 15 * k) * 60000 + now.millis > MsOfDay(now) + LeadMs
  }

  /** The labels the loops have pushed after visiting the first k grid points. */
  function SlotsUpTo(now: Instant, k: nat): (r: seq<string>)
    requires k <= GridSize
    ensures |r| <= k
  {
    if k == 0 then []
    else SlotsUpTo(now, k - 1) + (if Bookable(now, k - 1) then [GridLabel(k - 1)] else [])
  }

  /** The result of `generateSlots()` at moment `now`. */
  function AvailableSlots(now: Instant): seq<string> {
    if now.weekday == Tuesday then [] else SlotsUpTo(now, GridSize)
  }

  /** The loop body at hour h and minute 15 q visits grid point 4 (h - 14) + q. */
  lemma GridStep(now: Instant, h: nat, q: nat)
    requires StartHour <= h < EndHour && q < 4
    ensures var k := 4 * (h - StartHour) + q;
      k < GridSize && GridHour(k) == h && GridMinute(k) == 15 * q
      && (Bookable(now, k) <==> SlotMs(now, h, 15 * q) > MsOfDay(now) + LeadMs)
  {
    var k := 4 * (h - StartHour) + q;
    assert k / 4 == h - StartHour && k % 4 == q;
  }

  /** `generateSlots`: two nested loops over hours 14..17 and minutes 0, 15, 30, 45. */
  method GenerateSlots(now: Instant) returns (slots: seq<string>)
    ensures slots == AvailableSlots(now)
  {
    slots := [];
    if now.weekday == Tuesday {
      return [];
    }
    var h := StartHour;
    ghost var k := 0;
    while h < EndHour
      invariant StartHour <= h <= EndHour && k == 4 * (h - StartHour)
      invariant slots == SlotsUpTo(now, k)
    {
      var m := 0;
      ghost var q := 0;
      while m < 60
        invariant 0 <= q <= 4 && m == 15 * q && k == 4 * (h - StartHour) + q
        invariant slots == SlotsUpTo(now, k)
      {
        GridStep(now, h, q);
        var slotTime := SlotMs(now, h, m);
        var bufferTime := MsOfDay(now) + LeadMs;
        if slotTime > bufferTime {
          var timeString := ClockLabel(h, m);
          slots := slots + [timeString];
        }
        m := m + StepMinutes;
        q := q + 1;
        k := k + 1;
      }
      h := h + 1;
    }
  }

  // ---------------------------------------------------------------------------
  // What the slot list promises
  // ---------------------------------------------------------------------------

  /** Once a grid point is bookable, every later one is. */
  lemma BookableMonotone(now: Instant, k: nat, k': nat)
    requires k <= k' && Bookable(now, k)
    ensures Bookable(now, k')
  {
  }

  /** The first bookable grid point at or after k (GridSize when none is). */
  function FirstBookable(now: Instant, k: nat): (f: nat)
    requires k <= GridSize
    ensures k <= f <= GridSize
    ensures forall j :: k <= j < f ==> !Bookable(now, j)
    ensures f < GridSize ==> Bookable(now, f)
    decreases GridSize - k
  {
    if k == GridSize || Bookable(now, k) then k else FirstBookable(now, k + 1)
  }

  lemma {:induction false} SlotsUpToSuffix(now: Instant, k: nat)
    requires k <= GridSize
    ensures var f := FirstBookable(now, 0);
      SlotsUpTo(now, k) == if k <= f then [] else GridRange(f, k)
  {
    var f := FirstBookable(now, 0);
    if k > 0 {
      SlotsUpToSuffix(now, k - 1);
      if f < k {
        BookableMonotone(now, f, k - 1);
      }
    }
  }

  /**
   * Off Tuesdays the slots are the tail of the grid that starts at the first
   * point strictly later than now + 15 min.
   */
  lemma SlotsAreGridSuffix(now: Instant)
    requires now.weekday != Tuesday
    ensures AvailableSlots(now) == GridRange(FirstBookable(now, 0), GridSize)
  {
    SlotsUpToSuffix(now, GridSize);
  }

  /** Grid labels increase with the index. */
  lemma GridLabelsIncrease(i: nat, j: nat)
    requires i < j < GridSize
    ensures LabelMinutes(GridLabel(i)) < LabelMinutes(GridLabel(j))
  {
    GridPointMinutes(i);
    GridPointMinutes(j);
  }

  /** Distinct grid points have distinct labels. */
  lemma GridLabelInjective(i: nat, j: nat)
    requires i < GridSize && j < GridSize
    ensures GridLabel(i) == GridLabel(j) ==> i == j
  {
    GridPointMinutes(i);
    GridPointMinutes(j);
  }

  /**
   * A grid slot is offered exactly when it is not Tuesday and the slot lies
   * strictly after now + 15 min.
   */
  lemma SlotOfferedIff(now: Instant, k: nat)
    requires k < GridSize
    ensures GridLabel(k) in AvailableSlots(now) <==> now.weekday != Tuesday && Bookable(now, k)
  {
    if now.weekday != Tuesday {
      var f := FirstBookable(now, 0);
      SlotsAreGridSuffix(now);
      GridRangeMember(f, GridSize, k);
      if f <= k < GridSize { BookableMonotone(now, f, k); }
    }
  }

  /** The label of grid point k occurs in the range a..b exactly when k lies in it. */
  lemma GridRangeMember(a: nat, b: nat, k: nat)
    requires a <= b <= GridSize && k < GridSize
    ensures GridLabel(k) in GridRange(a, b) <==> a <= k < b
  {
    if a <= k < b {
      GridRangeAt(a, b, k - a);
    }
    if GridLabel(k) in GridRange(a, b) {
      GridRangeOnlyGrid(a, b, k);
    }
  }

  lemma GridRangeOnlyGrid(a: nat, b: nat, k: nat)
    requires a <= b <= GridSize && k < GridSize && GridLabel(k) in GridRange(a, b)
    ensures a <= k < b
  {
    var r := GridRange(a, b);
    var i :| 0 <= i < |r| && r[i] == GridLabel(k);
    GridRangeAt(a, b, i);
    GridLabelInjective(a + i, k);
  }

  /** Every element of a grid range is a clock label, and they ascend strictly. */
  lemma GridRangeAscending(a: nat, b: nat)
    requires a <= b <= GridSize
    ensures forall i :: 0 <= i < b - a ==> IsClockLabel(GridRange(a, b)[i])
    ensures forall i, j :: 0 <= i < j < b - a ==>
      IsClockLabel(GridRange(a, b)[i]) && IsClockLabel(GridRange(a, b)[j]) &&
      LabelMinutes(GridRange(a, b)[i]) < LabelMinutes(GridRange(a, b)[j])
  {
    var r := GridRange(a, b);
    forall i | 0 <= i < b - a ensures r[i] == GridLabel(a + i) {
      GridRangeAt(a, b, i);
    }
    forall i, j | 0 <= i < j < b - a
      ensures LabelMinutes(r[i]) < LabelMinutes(r[j])
    {
      GridLabelsIncrease(a + i, a + j);
    }
  }

  /** At most 16 slots, each an `HHhMM` label, in strictly ascending time order. */
  lemma SlotsShape(now: Instant)
    ensures |AvailableSlots(now)| <= GridSize
    ensures forall i :: 0 <= i < |AvailableSlots(now)| ==> IsClockLabel(AvailableSlots(now)[i])
    ensures forall i, j :: 0 <= i < j < |AvailableSlots(now)| ==>
      IsClockLabel(AvailableSlots(now)[i]) && IsClockLabel(AvailableSlots(now)[j]) &&
      LabelMinutes(AvailableSlots(now)[i]) < LabelMinutes(AvailableSlots(now)[j])
  {
    if now.weekday != Tuesday {
      SlotsAreGridSuffix(now);
      GridRangeAscending(FirstBookable(now, 0), GridSize);
    }
  }

  /**
   * The milliseconds of `now` do not matter: a slot is bookable exactly when
   * it starts more than 15 minutes after now truncated to the second.
   */
  lemma BookableBySeconds(now: Instant, k: nat)
    requires k < GridSize
    ensures Bookable(now, k) <==> (GridHour(k) * 60 + GridMinute(k)) * 60 > now.secondOfDay + 15 * 60
  {
    GridPointMinutes(k);
  }

  /** Late in the afternoon nothing is left: from 17h30 on (17h45 is not after 17h45) no slot is bookable. */
  lemma NothingAfterHalfPastFive(now: Instant)
    requires MsOfDay(now) >= (17 * 60 + 30) * 60000
    ensures AvailableSlots(now) == []
  {
    if now.weekday != Tuesday {
      SlotsAreGridSuffix(now);
      assert FirstBookable(now, 0) == GridSize;
    }
  }

  // ---------------------------------------------------------------------------
  // Form state, order record, submit button
  // ---------------------------------------------------------------------------

  /** A form value: the text of an input, or the `checked` state of a checkbox. */
  datatype Value = Text(text: string) | Checked(on: bool)

  /** `formData`, keyed by input name. */
  type Form = map<string, Value>

  datatype ChangeEvent = ChangeEvent(name: string, value: string, kind: string, checked: bool)

  function InitialForm(): Form {
    map["name" := Text(""), "phone" := Text(""), "email" := Text(""), "delivery" := Checked(false),
        "address" := Text(""), "city" := Text(""), "zip" := Text(""), "timeSlot" := Text("")]
  }

  /** `handleChange`: the named field takes `checked` for a checkbox, `value` otherwise. */
  function HandleChange(form: Form, e: ChangeEvent): (r: Form)
    ensures r.Keys == form.Keys + {e.name}
    ensures r[e.name] == if e.kind == "checkbox" then Checked(e.checked) else Text(e.value)
    ensures forall k :: k in form && k != e.name ==> r[k] == form[k]
  {
    form[e.name := if e.kind == "checkbox" then Checked(e.checked) else Text(e.value)]
  }

  /** Changing the same input twice in a row keeps only the second value. */
  lemma ChangeOverwrites(form: Form, e1: ChangeEvent, e2: ChangeEvent)
    requires e1.name == e2.name
    ensures HandleChange(HandleChange(form, e1), e2) == HandleChange(form, e2)
  {
  }

  /** Changes to two different inputs commute. */
  lemma ChangesCommute(form: Form, e1: ChangeEvent, e2: ChangeEvent)
    requires e1.name != e2.name
    ensures HandleChange(HandleChange(form, e1), e2) == HandleChange(HandleChange(form, e2), e1)
  {
  }

  /** JavaScript truthiness of a field that may be missing. */
  predicate Truthy(form: Form, key: string) {
    key in form && match form[key] { case Text(s) => s != "" case Checked(b) => b }
  }

  /** Template interpolation `${formData[key]}` of a field. */
  function Show(form: Form, key: string): string {
    if key !in form then "undefined"
    else match form[key] { case Text(s) => s case Checked(b) => if b then "true" else "false" }
  }

  const PickupAddress: string := "Retrait sur place"

  /** `orderData.customer.address`. */
  function OrderAddress(form: Form): (a: string)
    ensures !Truthy(form, "delivery") ==> a == PickupAddress
    ensures Truthy(form, "delivery") ==>
      var street, zip, city := Show(form, "address"), Show(form, "zip"), Show(form, "city");
      |a| == |street| + 2 + |zip| + 1 + |city|
      && a[..|street|] == street
      && a[|street|..|street| + 2] == ", "
      && a[|street| + 2..|street| + 2 + |zip|] == zip
      && a[|street| + 2 + |zip|] == ' '
      && a[|a| - |city|..] == city
  {
    if Truthy(form, "delivery") then
      var street, zip, city := Show(form, "address"), Show(form, "zip"), Show(form, "city");
      var a := street + ", " + zip + " " + city;
      var n := |street| + 2 + |zip|;
      assert a == street + ", " + zip + [' '] + city;
      assert a[..|street|] == street;
      assert a[|street|..|street| + 2] == ", ";
      assert a[|street| + 2..n] == zip;
      assert a[n] == ' ';
      assert a[|a| - |city|..] == city;
      a
    else PickupAddress
  }

  datatype Customer = Customer(name: Option<Value>, phone: Option<Value>, email: Option<Value>, address: string)

  /** `orderData`; the ISO date string is the clock's reading, passed in. */
  datatype Order = Order(customer: Customer, items: seq<Cart.Line>, totalCents: int,
                         delivery: Option<Value>, pickupTime: Option<Value>, date: string)

  function Field(form: Form, key: string): Option<Value> {
    if key in form then Some(form[key]) else None
  }

  /** The record `handleSubmit` posts: the customer's fields, the cart lines and their total. */
  function BuildOrder(form: Form, items: seq<Cart.Line>, date: string): (o: Order)
    ensures o.items == items && o.totalCents == Cart.Total(items)
    ensures o.customer.address == OrderAddress(form)
    ensures o.pickupTime == Field(form, "timeSlot") && o.delivery == Field(form, "delivery")
    ensures o.customer.name == Field(form, "name") && o.customer.phone == Field(form, "phone")
    ensures o.customer.email == Field(form, "email")
  {
    Order(Customer(Field(form, "name"), Field(form, "phone"), Field(form, "email"), OrderAddress(form)),
          items, Cart.Total(items), Field(form, "delivery"), Field(form, "timeSlot"), date)
  }

  /** A pickup order made from any form whose delivery box was never ticked carries the pickup address. */
  lemma InitialFormIsPickup(items: seq<Cart.Line>, date: string, events: seq<ChangeEvent>)
    requires forall i :: 0 <= i < |events| ==> events[i].name != "delivery"
    ensures BuildOrder(ApplyAll(InitialForm(), events), items, date).customer.address == PickupAddress
  {
    InitialDelivery();
    UntouchedField(InitialForm(), events, "delivery");
    UncheckedIsPickup(ApplyAll(InitialForm(), events));
  }

  lemma InitialDelivery()
    ensures "delivery" in InitialForm() && InitialForm()["delivery"] == Checked(false)
  {
  }

  lemma UncheckedIsPickup(form: Form)
    requires "delivery" in form && form["delivery"] == Checked(false)
    ensures OrderAddress(form) == PickupAddress
  {
  }

  function ApplyAll(form: Form, events: seq<ChangeEvent>): Form
    decreases |events|
  {
    if events == [] then form else ApplyAll(HandleChange(form, events[0]), events[1..])
  }

  /** A field no event names keeps its value. */
  lemma {:induction false} UntouchedField(form: Form, events: seq<ChangeEvent>, key: string)
    requires forall i :: 0 <= i < |events| ==> events[i].name != key
    ensures key in ApplyAll(form, events) <==> key in form
    ensures key in form ==> ApplyAll(form, events)[key] == form[key]
    decreases |events|
  {
    if events != [] {
      UntouchedField(HandleChange(form, events[0]), events[1..], key);
    }
  }

  /** `disabled={isSubmitting || availableSlots.length === 0}`. */
  function SubmitDisabled(isSubmitting: bool, availableSlots: seq<string>): (d: bool)
    ensures isSubmitting ==> d
    ensures availableSlots == [] ==> d
    ensures !d ==> !isSubmitting && |availableSlots| > 0
  {
    isSubmitting || |availableSlots| == 0
  }

  /** On Tuesdays, and from 17h30 on, the order cannot be submitted. */
  lemma ClosedTimesDisableSubmit(now: Instant, isSubmitting: bool)
    requires now.weekday == Tuesday || MsOfDay(now) >= (17 * 60 + 30) * 60000
    ensures SubmitDisabled(isSubmitting, AvailableSlots(now))
  {
    if now.weekday != Tuesday { NothingAfterHalfPastFive(now); }
  }
}
