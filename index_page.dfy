/**
 * The home page: the slide-in navigation menu and the rules that close
 * it, the registration form's storage reset, and the class cards'
 * booking buttons with their "c/t spots available" counters.
 */
module IndexPage {
  import opened Wrappers
  import opened Dom
  import opened Storage
  import Toast
  import Spots
  import Classes

  /** The inline style of the menu, `style[prop]` or "" when unset. */
  function StyleOf(style: map<string, string>, prop: string): string {
    if prop in style then style[prop] else ""
  }

  /** The widest window, in pixels, that counts as mobile. */
  const MobileWidth: int := 850

  /** The menu handlers that can run, with what they test. */
  datatype MenuEvent =
    | OpenClicked
    | CloseClicked
    | NavLinkClicked(width: int)
    | DocumentClicked(width: int, inMenu: bool, inOpenButton: bool)
    | KeyDown(key: string)

  /** `show`: the menu is displayed and slides in. */
  function Opened(style: map<string, string>): map<string, string> {
    style["display" := "flex"]["right" := "0"]
  }

  /** `close`: the menu slides out; its display is left alone. */
  function Closed(style: map<string, string>): map<string, string> {
    style["right" := "-60%"]
  }

  /**
   * Whether a handler calls `close`: a nav link or an outside click only
   * on a mobile-width window, Escape whenever the menu is displayed.
   */
  predicate Closes(style: map<string, string>, ev: MenuEvent) {
    var flex := StyleOf(style, "display") == "flex";
    match ev
    case OpenClicked => false
    case CloseClicked => true
    case NavLinkClicked(width) => width <= MobileWidth && flex
    case DocumentClicked(width, inMenu, inOpenButton) => width <= MobileWidth && flex && !inMenu && !inOpenButton
    case KeyDown(key) => key == "Escape" && flex
  }

  /** The menu's style after one handler. */
  function MenuStep(style: map<string, string>, ev: MenuEvent): (r: map<string, string>)
    ensures ev.OpenClicked? ==> StyleOf(r, "display") == "flex" && StyleOf(r, "right") == "0"
    ensures !ev.OpenClicked? ==> StyleOf(r, "display") == StyleOf(style, "display")
    ensures !ev.OpenClicked? ==> StyleOf(r, "right") == if Closes(style, ev) then "-60%" else StyleOf(style, "right")
  {
    if ev.OpenClicked? then Opened(style)
    else if Closes(style, ev) then Closed(style)
    else style
  }

  /** The menu's style after a run of handlers, in order. */
  function MenuRun(style: map<string, string>, evs: seq<MenuEvent>): map<string, string>
    decreases |evs|
  {
    if evs == [] then style else MenuRun(MenuStep(style, evs[0]), evs[1..])
  }

  /** Once the menu has been opened it stays displayed: no handler resets `display`. */
  lemma {:induction false} OnceOpenedStaysFlex(style: map<string, string>, evs: seq<MenuEvent>)
    requires StyleOf(style, "display") == "flex"
    ensures StyleOf(MenuRun(style, evs), "display") == "flex"
    decreases |evs|
  {
    if evs != [] {
      OnceOpenedStaysFlex(MenuStep(style, evs[0]), evs[1..]);
    }
  }

  /** A menu never opened is never displayed, whatever else happens. */
  lemma {:induction false} NeverOpenedNeverShown(style: map<string, string>, evs: seq<MenuEvent>)
    requires OpenClicked !in evs
    ensures StyleOf(MenuRun(style, evs), "display") == StyleOf(style, "display")
    decreases |evs|
  {
    if evs != [] {
      NeverOpenedNeverShown(MenuStep(style, evs[0]), evs[1..]);
    }
  }

  /** After the menu is opened, Escape slides it out, on any window width. */
  lemma OpenThenEscape(style: map<string, string>)
    ensures var r := MenuRun(style, [OpenClicked, KeyDown("Escape")]);
            StyleOf(r, "display") == "flex" && StyleOf(r, "right") == "-60%"
  {
    var shown := MenuStep(style, OpenClicked);
    assert MenuRun(style, [OpenClicked, KeyDown("Escape")]) == MenuRun(shown, [KeyDown("Escape")]);
    assert MenuRun(shown, [KeyDown("Escape")]) == MenuStep(shown, KeyDown("Escape"));
  }

  /**
   * One menu handler on the menu element. The nav-link close runs 150 ms
   * later; it is applied here in its place in the sequence of events.
   */
  method HandleMenuEvent(menu: Element, ev: MenuEvent)
    modifies menu`style
    ensures menu.style == MenuStep(old(menu.style), ev)
  {
    match ev
    case OpenClicked =>
      menu.style := menu.style["display" := "flex"];
      menu.style := menu.style["right" := "0"];
    case _ =>
      if Closes(menu.style, ev) {
        menu.style := menu.style["right" := "-60%"];
      }
  }

  /** The first name field, or 'Member' when it is empty. */
  function FirstNameOrMember(firstName: string): (name: string)
    ensures name != ""
    ensures firstName != "" ==> name == firstName
  {
    if firstName == "" then "Member" else firstName
  }

  /**
   * The registration form's submit: the success message is displayed,
   * the login flag and member name are set, and the bookings, workouts,
   * photos and goals are reset to empty lists. No other key is written.
   */
  method Register(storage: LocalStorage, successMessage: Element, firstName: string)
    modifies storage`strings, storage`bookings, storage`workouts, storage`photos, storage`goals
    modifies successMessage`style
    ensures successMessage.style == old(successMessage.style)["display" := "block"]
    ensures storage.strings == old(storage.strings)["userLoggedIn" := "true"]["memberName" := FirstNameOrMember(firstName)]
    ensures storage.LoggedIn() && storage.MemberName() == FirstNameOrMember(firstName)
    ensures storage.bookings == [] && storage.workouts == [] && storage.photos == [] && storage.goals == []
  {
    successMessage.style := successMessage.style["display" := "block"];
    var name := FirstNameOrMember(firstName);
    storage.SetItem("userLoggedIn", "true");
    storage.bookings := [];
    storage.SetItem("memberName", name);
    storage.workouts := [];
    storage.photos := [];
    storage.goals := [];
    assert storage.strings["userLoggedIn"] == "true" by {
      assert |"memberName"| != |"userLoggedIn"|;
    }
  }

  /** The home page's booking question. */
  function HomeBookMessage(classTitle: string): string {
    "Book \"" + classTitle + "\" class?\n\nThis will reserve your spot for the next available session."
  }

  /**
   * A click on a home-page booking button: a login prompt when logged
   * out, otherwise the booking question. Storage is only read.
   */
  method HomeBookClick(storage: LocalStorage, toasts: Toast.ToastNotification, classTitle: string) returns (d: nat)
    requires toasts.Valid()
    modifies toasts`dialogs, toasts`keydownHandlers, toasts`timers
    ensures toasts.Valid()
    ensures d == |old(toasts.dialogs)|
    ensures !storage.LoggedIn() ==>
              toasts.State() == Toast.WithDialog(old(toasts.State()), Classes.LoginTitle, Classes.LoginMessage,
                                                 "Register Now", "Cancel")
    ensures storage.LoggedIn() ==>
              toasts.State() == Toast.WithDialog(old(toasts.State()), "Book Class", HomeBookMessage(classTitle),
                                                 "Book Now", "Cancel")
    ensures !storage.LoggedIn() ==>
              toasts.dialogs == old(toasts.dialogs) + [Toast.Dialog(Classes.LoginTitle, Classes.LoginMessage,
                                                                    "Register Now", "Cancel", false, true, Toast.Pending)]
    ensures storage.LoggedIn() ==>
              toasts.dialogs == old(toasts.dialogs) + [Toast.Dialog("Book Class", HomeBookMessage(classTitle),
                                                                    "Book Now", "Cancel", false, true, Toast.Pending)]
  {
    if !storage.LoggedIn() {
      d := toasts.Confirm(Classes.LoginTitle, Classes.LoginMessage, Some("Register Now"), Some("Cancel"));
    } else {
      d := toasts.Confirm("Book Class", HomeBookMessage(classTitle), Some("Book Now"), Some("Cancel"));
    }
  }

  /** `showBookingSuccess`: a success toast that stays 4 seconds. */
  method ShowBookingSuccess(toasts: Toast.ToastNotification, className: string) returns (id: nat)
    requires toasts.Valid()
    modifies toasts`toasts, toasts`container, toasts`timers
    ensures toasts.Valid()
    ensures id == |old(toasts.toasts)|
    ensures toasts.toasts == old(toasts.toasts) + [Toast.Toast(Toast.Success, "Class Booked!",
                                                               "Successfully booked \"" + className + "\" class!",
                                                               4000, toasts.now, false, false)]
    ensures toasts.State() == Toast.WithToast(old(toasts.State()), Toast.Success, "Class Booked!",
                                              "Successfully booked \"" + className + "\" class!", 4000)
  {
    id := toasts.ShowKind(Toast.Success, "Class Booked!", "Successfully booked \"" + className + "\" class!", Some(4000));
  }

  /**
   * The answer to the home page's booking question. A confirmed booking
   * marks the button and lowers the counter, and stores nothing.
   */
  method HomeBookingAnswered(toasts: Toast.ToastNotification, button: Element, spots: Element?, classTitle: string, d: nat)
    requires toasts.Valid() && d < |toasts.dialogs| && toasts.dialogs[d].outcome.Resolved?
    requires spots != button
    modifies toasts`toasts, toasts`container, toasts`timers, button, spots
    ensures toasts.Valid()
    ensures !old(toasts.dialogs[d].outcome.confirmed) ==> toasts.State() == old(toasts.State())
    ensures old(toasts.dialogs[d].outcome.confirmed) ==>
              toasts.State() == Toast.WithToast(old(toasts.State()), Toast.Success, "Class Booked!",
                                                "Successfully booked \"" + classTitle + "\" class!", 4000)
    ensures !old(toasts.dialogs[d].outcome.confirmed) ==>
              toasts.toasts == old(toasts.toasts) && button.State() == old(button.State())
              && (spots != null ==> spots.State() == old(spots.State()))
    ensures old(toasts.dialogs[d].outcome.confirmed) ==>
              && button.State() == Classes.BookedButton(old(button.State()))
              && toasts.toasts == old(toasts.toasts) + [Toast.Toast(Toast.Success, "Class Booked!",
                                                                    "Successfully booked \"" + classTitle + "\" class!",
                                                                    4000, toasts.now, false, false)]
              && (spots != null ==> spots.State() == Spots.AfterBooking(old(spots.State()), "spots available",
                                                                        " spots available"))
  {
    if !toasts.dialogs[d].outcome.confirmed {
      return;
    }
    button.innerHTML := "Booked!";
    button.style := button.style["backgroundColor" := Classes.BookedColor];
    button.style := button.style["borderColor" := Classes.BookedColor];
    button.disabled := true;
    var _ := ShowBookingSuccess(toasts, classTitle);
    Spots.UpdateAvailableSpots(spots, "spots available", " spots available");
  }

  /**
   * The home card's counter: a text holding "c/t spots available", with
   * no match before it, becomes "(c-1)/t spots available", the total unchanged.
   */
  lemma HomeCounterDecrements(e: ElementState, prefix: string, current: nat, total: nat, rest: string)
    requires current != 1
    requires e.TextContent() == prefix + Spots.CounterText(current, total, " spots available") + rest
    requires Spots.NoMatchBefore(e.TextContent(), " spots available", |prefix|)
    ensures Spots.AfterBooking(e, "spots available", " spots available").innerHTML
            == Spots.CounterText(current - 1, total, " spots available")
  {
    assert " spots available" == " " + "spots available";
    Spots.AfterWordCounter(e, prefix, current, total, "spots available", rest);
  }

  /** The last booking on a card with one spot left fills the class. */
  lemma LastSpotFillsClass(e: ElementState, prefix: string, total: nat, rest: string)
    requires e.TextContent() == prefix + Spots.CounterText(1, total, " spots available") + rest
    requires Spots.NoMatchBefore(e.TextContent(), " spots available", |prefix|)
    ensures var r := Spots.AfterBooking(e, "spots available", " spots available");
            r.innerHTML == Spots.FullText && r.style == e.style["color" := Spots.FullColor]
  {
    assert " spots available" == " " + "spots available";
    Spots.AfterWordCounter(e, prefix, 1, total, "spots available", rest);
  }
}
