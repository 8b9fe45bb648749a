/**
 * The class schedule page: the day filter, the booking button (login
 * check, duplicate check, confirmation, the stored booking), cancelling
 * a booking and the "c/t spots" counter of a class card.
 */
module Classes {
  import opened Wrappers
  import opened Seqs
  import opened Dom
  import opened Storage
  import Toast
  import LoadingSpinner
  import Spots

  /**
   * Whether a day column stays shown when the filter button with
   * `data-day` = `selected` is clicked. A missing attribute reads as
   * `null`, and `null === null`.
   */
  predicate Visible(selected: Option<string>, columnDay: Option<string>) {
    selected == Some("all") || columnDay == selected
  }

  /** The 'all' filter shows every column; any other shows exactly the columns of that day. */
  lemma VisibleByDay(selected: Option<string>, columnDay: Option<string>)
    ensures selected == Some("all") ==> Visible(selected, columnDay)
    ensures selected != Some("all") ==> (Visible(selected, columnDay) <==> columnDay == selected)
  {
  }

  /** A click on a filter button: only it is active, and the columns of other days are hidden. */
  method SelectDay(buttons: seq<Element>, clicked: nat, columns: seq<Element>)
    requires clicked < |buttons|
    requires forall i, j :: 0 <= i < j < |buttons| ==> buttons[i] != buttons[j]
    requires forall i, j :: 0 <= i < j < |columns| ==> columns[i] != columns[j]
    requires forall i, j :: 0 <= i < |buttons| && 0 <= j < |columns| ==> buttons[i] != columns[j]
    modifies set b | b in buttons, set c | c in columns
    ensures forall i :: 0 <= i < |buttons| ==>
              buttons[i].classes == old(buttons[i].classes) - {"active"} + (if i == clicked then {"active"} else {})
    ensures forall i :: 0 <= i < |buttons| ==> ("active" in buttons[i].classes <==> i == clicked)
    ensures forall i :: 0 <= i < |buttons| ==> buttons[i].style == old(buttons[i].style)
    ensures forall j :: 0 <= j < |columns| ==>
              columns[j].style == old(columns[j].style)["display" :=
                if Visible(old(buttons[clicked].Attribute("data-day")), old(columns[j].Attribute("data-day")))
                then "block" else "none"]
    ensures forall j :: 0 <= j < |columns| ==> columns[j].classes == old(columns[j].classes)
    ensures forall e :: e in buttons || e in columns ==>
              e.attributes == old(e.attributes) && e.innerHTML == old(e.innerHTML)
  {
    var selected := buttons[clicked].Attribute("data-day");
    MarkActive(buttons, clicked);
    ShowDay(selected, columns);
  }

  /** The first loop of the day-button handler: only the clicked button keeps the `active` class. */
  method MarkActive(buttons: seq<Element>, clicked: nat)
    requires clicked < |buttons|
    requires forall i, j :: 0 <= i < j < |buttons| ==> buttons[i] != buttons[j]
    modifies set b | b in buttons
    ensures forall i :: 0 <= i < |buttons| ==>
              buttons[i].classes == old(buttons[i].classes) - {"active"} + (if i == clicked then {"active"} else {})
    ensures forall e :: e in buttons ==>
              e.style == old(e.style) && e.attributes == old(e.attributes) && e.innerHTML == old(e.innerHTML)
  {
    var n := 0;
    while n < |buttons|
      invariant n <= |buttons|
      invariant forall i :: 0 <= i < n ==> buttons[i].classes == old(buttons[i].classes) - {"active"}
      invariant forall i :: n <= i < |buttons| ==> buttons[i].classes == old(buttons[i].classes)
      invariant forall e :: e in buttons ==>
                  e.style == old(e.style) && e.attributes == old(e.attributes) && e.innerHTML == old(e.innerHTML)
    {
      buttons[n].classes := buttons[n].classes - {"active"};
      n := n + 1;
    }
    buttons[clicked].classes := buttons[clicked].classes + {"active"};
  }

  /** The second loop of the day-button handler: a schedule column is shown exactly when it matches the day. */
  method ShowDay(selected: Option<string>, columns: seq<Element>)
    requires forall i, j :: 0 <= i < j < |columns| ==> columns[i] != columns[j]
    modifies set c | c in columns
    ensures forall j :: 0 <= j < |columns| ==>
              columns[j].style == old(columns[j].style)["display" :=
                if Visible(selected, old(columns[j].Attribute("data-day"))) then "block" else "none"]
    ensures forall e :: e in columns ==>
              e.classes == old(e.classes) && e.attributes == old(e.attributes) && e.innerHTML == old(e.innerHTML)
  {
    var n := 0;
    while n < |columns|
      invariant n <= |columns|
      invariant forall j :: 0 <= j < n ==>
                  columns[j].style == old(columns[j].style)["display" :=
                    if Visible(selected, old(columns[j].Attribute("data-day"))) then "block" else "none"]
      invariant forall j :: n <= j < |columns| ==> columns[j].style == old(columns[j].style)
      invariant forall e :: e in columns ==>
                  e.classes == old(e.classes) && e.attributes == old(e.attributes) && e.innerHTML == old(e.innerHTML)
    {
      var shown := Visible(selected, columns[n].Attribute("data-day"));
      columns[n].style := columns[n].style["display" := if shown then "block" else "none"];
      n := n + 1;
    }
  }

  /** What the booking handler reads from the class card around the clicked button. */
  datatype Slot = Slot(classId: string, className: string, day: string, time: string, trainer: string)

  const LoginTitle: string := "Login Required"
  const LoginMessage: string := "You need to be logged in to book classes. Would you like to register first?"
  const RegisterPage: string := "index.html#register1"
  const BookedColor: string := "#28a745"

  /** The text of the booking confirmation. */
  function BookMessage(slot: Slot): string {
    "Book \"" + slot.className + "\" class?\n\nDay: " + slot.day + "\nTime: " + slot.time
    + "\nTrainer: " + slot.trainer + "\n\nThis will reserve your spot for this session."
  }

  /** `existingBookings.some(booking => booking.classId === classId)`. */
  predicate HasClass(bookings: seq<Booking>, classId: string) {
    exists i :: 0 <= i < |bookings| && bookings[i].classId == classId
  }

  /** No class is booked twice. */
  ghost predicate UniqueClasses(bookings: seq<Booking>) {
    forall i, j :: 0 <= i < j < |bookings| ==> bookings[i].classId != bookings[j].classId
  }

  /** Appending a booking whose class passed the duplicate check keeps every class booked at most once. */
  lemma BookingKeepsUnique(bookings: seq<Booking>, b: Booking)
    requires UniqueClasses(bookings) && !HasClass(bookings, b.classId)
    ensures UniqueClasses(bookings + [b])
  {
    var s := bookings + [b];
    forall i, j | 0 <= i < j < |s| ensures s[i].classId != s[j].classId {
      if j == |bookings| {
        assert s[i] == bookings[i];
      }
    }
  }

  /** Where a click on a booking button leaves the page. */
  datatype BookingStep =
    | LoginPrompt(dialog: nat)
    | AlreadyBooked(toast: nat)
    | AwaitingConfirm(dialog: nat, snapshot: seq<Booking>)

  /**
   * The click handler up to the confirmation dialog. The bookings are
   * read here and kept in the step: they are what the confirmed booking
   * is appended to. The storage is only read.
   */
  method BookClick(storage: LocalStorage, toasts: Toast.ToastNotification, slot: Slot) returns (step: BookingStep)
    requires toasts.Valid()
    modifies toasts`toasts, toasts`container, toasts`timers, toasts`dialogs, toasts`keydownHandlers
    ensures toasts.Valid()
    ensures !storage.LoggedIn() ==>
              toasts.State() == Toast.WithDialog(old(toasts.State()), LoginTitle, LoginMessage, "Register Now", "Cancel")
    ensures storage.LoggedIn() && HasClass(storage.bookings, slot.classId) ==>
              toasts.State() == Toast.WithToast(old(toasts.State()), Toast.Warning, "Already Booked",
                                                "You have already booked this class!", 6000)
    ensures storage.LoggedIn() && !HasClass(storage.bookings, slot.classId) ==>
              toasts.State() == Toast.WithDialog(old(toasts.State()), "Book Class", BookMessage(slot), "Book Now", "Cancel")
    ensures !storage.LoggedIn() ==>
              step == LoginPrompt(|old(toasts.dialogs)|) && toasts.toasts == old(toasts.toasts) &&
              toasts.dialogs == old(toasts.dialogs) + [Toast.Dialog(LoginTitle, LoginMessage, "Register Now",
                                                                    "Cancel", false, true, Toast.Pending)]
    ensures storage.LoggedIn() && HasClass(storage.bookings, slot.classId) ==>
              step == AlreadyBooked(|old(toasts.toasts)|) && toasts.dialogs == old(toasts.dialogs) &&
              toasts.toasts == old(toasts.toasts) + [Toast.Toast(Toast.Warning, "Already Booked",
                                                                 "You have already booked this class!", 6000,
                                                                 toasts.now, false, false)]
    ensures storage.LoggedIn() && !HasClass(storage.bookings, slot.classId) ==>
              step == AwaitingConfirm(|old(toasts.dialogs)|, storage.bookings) &&
              toasts.toasts == old(toasts.toasts) &&
              toasts.dialogs == old(toasts.dialogs) + [Toast.Dialog("Book Class", BookMessage(slot), "Book Now",
                                                                    "Cancel", false, true, Toast.Pending)]
  {
    if !storage.LoggedIn() {
      var d := toasts.Confirm(LoginTitle, LoginMessage, Some("Register Now"), Some("Cancel"));
      return LoginPrompt(d);
    }
    var existing := storage.bookings;
    if HasClass(existing, slot.classId) {
      var id := toasts.ShowKind(Toast.Warning, "Already Booked", "You have already booked this class!", None);
      return AlreadyBooked(id);
    }
    var d := toasts.Confirm("Book Class", BookMessage(slot), Some("Book Now"), Some("Cancel"));
    step := AwaitingConfirm(d, existing);
  }

  /** The login prompt's answer: a confirmed prompt leads to the registration form. */
  method LoginAnswered(toasts: Toast.ToastNotification, d: nat) returns (redirect: Option<string>)
    requires d < |toasts.dialogs| && toasts.dialogs[d].outcome.Resolved?
    ensures redirect.Some? <==> toasts.dialogs[d].outcome.confirmed
    ensures redirect.Some? ==> redirect.value == RegisterPage
  {
    if toasts.dialogs[d].outcome.confirmed {
      redirect := Some(RegisterPage);
    } else {
      redirect := None;
    }
  }

  /** The button once its class is booked. */
  function BookedButton(e: ElementState): (r: ElementState)
    ensures r.TextContent() == "Booked!" && r.disabled
    ensures r.style == e.style["backgroundColor" := BookedColor]["borderColor" := BookedColor]
    ensures r.classes == e.classes && r.dataset == e.dataset && r.attributes == e.attributes
  {
    Strings.StripTagsOfPlainText("Booked!");
    e.(innerHTML := "Booked!", disabled := true,
       style := e.style["backgroundColor" := BookedColor]["borderColor" := BookedColor])
  }

  /**
   * The button spinner shown while the booking is saved leaves no trace
   * but the `loading` class removed: the booked button looks the same
   * with or without the spinner.
   */
  lemma SpinnerLeavesNoTrace(e: ElementState)
    ensures var r := BookedButton(LoadingSpinner.HideButton(LoadingSpinner.ShowButton(e, Some("Booking..."))));
            r == BookedButton(e).(classes := e.classes - {"loading"},
                                  dataset := e.dataset - {LoadingSpinner.OriginalText, LoadingSpinner.OriginalDisabled})
  {
    var shown := LoadingSpinner.ShowButton(e, Some("Booking..."));
    var hidden := LoadingSpinner.HideButton(shown);
    assert hidden.dataset == e.dataset - {LoadingSpinner.OriginalText, LoadingSpinner.OriginalDisabled};
  }

  /** The stored record of a booking made at instant `now`. */
  function NewBooking(slot: Slot, now: int): (b: Booking)
    ensures b.id == now && b.classId == slot.classId && b.bookingDate == now
  {
    Booking(now, slot.classId, slot.className, slot.day, slot.time, slot.trainer, now)
  }

  /**
   * The confirmation's answer. When confirmed, the booking is appended to
   * the bookings read at click time, the button shows 'Booked!' and is
   * disabled, a success toast appears and the spots counter goes down.
   * `spinnerLoaded` says whether the spinner script is on the page.
   */
  method BookingAnswered(storage: LocalStorage, toasts: Toast.ToastNotification, button: Element, spots: Element?,
                         slot: Slot, step: BookingStep, now: int, spinnerLoaded: bool)
    requires toasts.Valid() && step.AwaitingConfirm?
    requires step.dialog < |toasts.dialogs| && toasts.dialogs[step.dialog].outcome.Resolved?
    requires spots != button
    modifies storage`bookings, toasts`toasts, toasts`container, toasts`timers, button, spots
    ensures toasts.Valid()
    ensures !old(toasts.dialogs[step.dialog].outcome.confirmed) ==> toasts.State() == old(toasts.State())
    ensures old(toasts.dialogs[step.dialog].outcome.confirmed) ==>
              toasts.State() == Toast.WithToast(old(toasts.State()), Toast.Success, "Class Booked!",
                                                "Successfully booked \"" + slot.className + "\" class!", 5000)
    ensures !old(toasts.dialogs[step.dialog].outcome.confirmed) ==>
              storage.bookings == old(storage.bookings) && toasts.toasts == old(toasts.toasts) &&
              button.State() == old(button.State()) && (spots != null ==> spots.State() == old(spots.State()))
    ensures old(toasts.dialogs[step.dialog].outcome.confirmed) ==>
              && storage.bookings == step.snapshot + [NewBooking(slot, now)]
              && button.State() == BookedButton(if spinnerLoaded
                                                then LoadingSpinner.HideButton(LoadingSpinner.ShowButton(old(button.State()), Some("Booking...")))
                                                else old(button.State()))
              && toasts.toasts == old(toasts.toasts) + [Toast.Toast(Toast.Success, "Class Booked!",
                                                                    "Successfully booked \"" + slot.className + "\" class!",
                                                                    5000, toasts.now, false, false)]
              && (spots != null ==> spots.State() == Spots.AfterBooking(old(spots.State()), "spots", " spots"))
  {
    if !toasts.dialogs[step.dialog].outcome.confirmed {
      return;
    }
    storage.bookings := step.snapshot + [NewBooking(slot, now)];
    MarkBooked(button, spinnerLoaded);
    var _ := toasts.ShowKind(Toast.Success, "Class Booked!", "Successfully booked \"" + slot.className + "\" class!", None);
    Spots.UpdateAvailableSpots(spots, "spots", " spots");
  }

  /**
   * The button through the save: the spinner (when the spinner script is
   * loaded) is shown and hidden again, then the button reads 'Booked!'.
   */
  method MarkBooked(button: Element, spinnerLoaded: bool)
    modifies button
    ensures button.State() == BookedButton(if spinnerLoaded
                                           then LoadingSpinner.HideButton(LoadingSpinner.ShowButton(old(button.State()), Some("Booking...")))
                                           else old(button.State()))
  {
    var handle: Option<Element> := None;
    if spinnerLoaded {
      handle := LoadingSpinner.ShowButtonSpinner(button, Some("Booking..."));
    }
    if handle.Some? {
      LoadingSpinner.HideButtonSpinner(button);
    }
    button.innerHTML := "Booked!";
    button.style := button.style["backgroundColor" := BookedColor];
    button.style := button.style["borderColor" := BookedColor];
    button.disabled := true;
  }

  /** `bookings.filter(booking => booking.id !== bookingId)`. */
  function KeptBookings(bookings: seq<Booking>, bookingId: int): (r: seq<Booking>)
    ensures forall i :: 0 <= i < |r| ==> r[i].id != bookingId
    ensures forall b :: b in bookings && b.id != bookingId ==> b in r
  {
    Filter(bookings, (b: Booking) => b.id != bookingId)
  }

  /** `bookings.find(booking => booking.id === bookingId)`: the first booking with that id. */
  function FindBooking(bookings: seq<Booking>, bookingId: int): (r: Option<Booking>)
    ensures r.Some? ==> r.value in bookings && r.value.id == bookingId
    ensures r.Some? ==> exists k :: 0 <= k < |bookings| && bookings[k] == r.value
                                    && forall j :: 0 <= j < k ==> bookings[j].id != bookingId
    ensures r.None? ==> forall b :: b in bookings ==> b.id != bookingId
  {
    if bookings == [] then None
    else if bookings[0].id == bookingId then Some(bookings[0])
    else FindBooking(bookings[1..], bookingId)
  }

  /** Once the bookings with an id are filtered out, no booking with that id can be found. */
  lemma FindAfterCancel(bookings: seq<Booking>, bookingId: int)
    ensures FindBooking(KeptBookings(bookings, bookingId), bookingId) == None
  {
  }

  /** The index of the first button whose `data-class` is `classId` (`querySelector`). */
  function FirstWithClass(buttons: seq<Element>, classId: string): (k: Option<nat>)
    reads buttons`attributes
    ensures k.Some? ==> k.value < |buttons| && buttons[k.value].Attribute("data-class") == Some(classId)
    ensures k.Some? ==> forall i :: 0 <= i < k.value ==> buttons[i].Attribute("data-class") != Some(classId)
    ensures k.None? ==> forall i :: 0 <= i < |buttons| ==> buttons[i].Attribute("data-class") != Some(classId)
  {
    if buttons == [] then None
    else if buttons[0].Attribute("data-class") == Some(classId) then Some(0)
    else match FirstWithClass(buttons[1..], classId)
      case None => None
      case Some(k) => Some(k + 1)
  }

  /** A button put back to its unbooked look. */
  function ResetButton(e: ElementState): (r: ElementState)
    ensures r.TextContent() == "Book" && !r.disabled
    ensures r.classes == e.classes && r.dataset == e.dataset && r.attributes == e.attributes
  {
    Strings.StripTagsOfPlainText("Book");
    e.(innerHTML := "Book", disabled := false,
       style := e.style["backgroundColor" := "transparent"]["borderColor" := "yellowgreen"])
  }

  /**
   * `resetBookingButton`: when storage still holds a booking with that
   * id, the first button for its class is put back to 'Book'.
   */
  method ResetBookingButton(storage: LocalStorage, bookingId: int, buttons: seq<Element>)
    requires forall i, j :: 0 <= i < j < |buttons| ==> buttons[i] != buttons[j]
    modifies set b | b in buttons
    ensures FindBooking(storage.bookings, bookingId).None? ==>
              forall i :: 0 <= i < |buttons| ==> buttons[i].State() == old(buttons[i].State())
    ensures FindBooking(storage.bookings, bookingId).Some? ==>
              var k := FirstWithClass(buttons, FindBooking(storage.bookings, bookingId).value.classId);
              forall i :: 0 <= i < |buttons| ==>
                buttons[i].State() == if k == Some(i) then ResetButton(old(buttons[i].State()))
                                      else old(buttons[i].State())
  {
    var cancelled := FindBooking(storage.bookings, bookingId);
    if cancelled.None? {
      return;
    }
    var k := FirstWithClass(buttons, cancelled.value.classId);
    if k.Some? {
      Reset(buttons[k.value]);
      assert forall i :: 0 <= i < |buttons| && i != k.value ==> buttons[i].State() == old(buttons[i].State());
    }
  }

  /** The button of a cancelled booking, put back to 'Book'. */
  method Reset(button: Element)
    modifies button`innerHTML, button`style, button`disabled
    ensures button.State() == ResetButton(old(button.State()))
  {
    button.innerHTML := "Book";
    button.style := button.style["backgroundColor" := "transparent"];
    button.style := button.style["borderColor" := "yellowgreen"];
    button.disabled := false;
  }

  const CancelQuestion: string := "Are you sure you want to cancel this booking?"

  /**
   * `cancelBooking`: the window's `confirm` hands back a pending promise,
   * which is truthy, so the booking is removed at once whatever the user
   * will answer; the question stays open. `resetBookingButton` then
   * reads the bookings without it and leaves every button alone.
   */
  method CancelBooking(storage: LocalStorage, toasts: Toast.ToastNotification, bookingId: int, buttons: seq<Element>)
    requires toasts.Valid()
    requires forall i, j :: 0 <= i < j < |buttons| ==> buttons[i] != buttons[j]
    modifies storage`bookings, toasts`dialogs, toasts`keydownHandlers, toasts`timers, set b | b in buttons
    ensures toasts.Valid()
    ensures storage.bookings == KeptBookings(old(storage.bookings), bookingId)
    ensures toasts.dialogs == old(toasts.dialogs) + [Toast.Dialog("Confirmation", CancelQuestion, "Confirm", "Cancel",
                                                                  false, true, Toast.Pending)]
    ensures toasts.State() == Toast.WithDialog(old(toasts.State()), "Confirmation", CancelQuestion, "Confirm", "Cancel")
    ensures forall i :: 0 <= i < |buttons| ==> buttons[i].State() == old(buttons[i].State())
  {
    var confirmCancel := toasts.ConfirmOverride(CancelQuestion);
    if confirmCancel.Truthy() {
      storage.bookings := KeptBookings(storage.bookings, bookingId);
      FindAfterCancel(old(storage.bookings), bookingId);
      ResetBookingButton(storage, bookingId, buttons);
    }
  }

  /** The demo login button: sets the login flag and says so in a 'Notice' toast. */
  method SimulateLogin(storage: LocalStorage, toasts: Toast.ToastNotification)
    requires toasts.Valid()
    modifies storage`strings, toasts`toasts, toasts`container, toasts`timers
    ensures toasts.Valid()
    ensures storage.strings == old(storage.strings)["userLoggedIn" := "true"] && storage.LoggedIn()
    ensures toasts.toasts == old(toasts.toasts) + [Toast.Toast(Toast.Info, "Notice",
                                                               "Demo: You are now logged in! You can book classes.",
                                                               5000, toasts.now, false, false)]
    ensures toasts.State() == Toast.WithToast(old(toasts.State()), Toast.Info, "Notice",
                                              "Demo: You are now logged in! You can book classes.", 5000)
  {
    storage.SetItem("userLoggedIn", "true");
    var _ := toasts.Alert("Demo: You are now logged in! You can book classes.");
  }

  /**
   * The schedule card's counter: a text holding "c/t spots", with no
   * match before it, becomes "(c-1)/t spots"; whatever stood before or
   * after the match is dropped.
   */
  lemma ScheduleCounterDecrements(e: ElementState, prefix: string, current: nat, total: nat, rest: string)
    requires current != 1
    requires e.TextContent() == prefix + Spots.CounterText(current, total, " spots") + rest
    requires Spots.NoMatchBefore(e.TextContent(), " spots", |prefix|)
    ensures Spots.AfterBooking(e, "spots", " spots").innerHTML == Spots.CounterText(current - 1, total, " spots")
  {
    assert " spots" == " " + "spots";
    Spots.AfterWordCounter(e, prefix, current, total, "spots", rest);
  }
}
