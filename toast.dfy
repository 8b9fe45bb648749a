/**
 * The toast notification system: a container of toasts, each mounted,
 * then shown, then hiding, then removed; a promise-based confirm dialog;
 * and the replacements of the native `alert` and `confirm`.
 *
 * The browser's timers are an explicit queue of (due time, action)
 * pairs. `RunNextTimer` is the event loop firing the earliest one, so
 * the order of events and the instants at which they happen are part of
 * the model, while the animations themselves are not.
 */
module Toast {
  import opened Wrappers

  /** The `type` of a toast; it selects the look and the icon. */
  datatype Kind = Success | Error | Warning | Info

  /** Delay before the `show` class is added (the slide-in). */
  const MountDelayMs: int := 100
  /** Delay between `hide` and removal from the DOM (the slide-out). */
  const ExitDelayMs: int := 300
  /** `show`'s own default duration. */
  const ShowDefaultMs: int := 5000

  /** Default duration of each kind's shorthand (`success`, `error`, ...). */
  function KindDefaultMs(k: Kind): (ms: int)
    ensures ms > 0
  {
    match k
    case Success => 5000
    case Error => 7000
    case Warning => 6000
    case Info => 5000
  }

  /**
   * A toast element. `duration` 0 (or less) means it persists; `shown`
   * and `hiding` are its `show` and `hide` classes.
   */
  datatype Toast = Toast(kind: Kind, title: string, message: string, duration: int,
                         createdAt: int, shown: bool, hiding: bool)

  /** The state of a confirm dialog's promise. */
  datatype Resolution = Pending | Resolved(confirmed: bool)

  /** A confirm overlay and the promise it settles. */
  datatype Dialog = Dialog(title: string, message: string, confirmText: string, cancelText: string,
                           shown: bool, inBody: bool, outcome: Resolution)

  /** Where a click on an open overlay lands. */
  datatype ClickTarget = ConfirmButton | CancelButton | Backdrop | DialogBox

  /** What a pending `setTimeout` callback does when it fires. */
  datatype Action =
    | AddShow(toast: nat)
    | AutoHide(toast: nat)
    | RemoveToast(toast: nat)
    | ShowOverlay(dialog: nat)
    | RemoveOverlay(dialog: nat)

  datatype Timer = Timer(due: int, action: Action)

  /** A value returned to a caller of `confirm`: the native boolean or the replacement's promise. */
  datatype Value = Boolean(b: bool) | PromiseOf(dialog: nat) {
    /** JavaScript truthiness: every object, a pending promise included, is truthy. */
    predicate Truthy() {
      match this
      case Boolean(b) => b
      case PromiseOf(_) => true
    }
  }

  /** The notifier when a page has one, as a set a frame can name. */
  function Present(t: ToastNotification?): set<ToastNotification>
  {
    if t == null then {} else {t}
  }

  /** Everything a notifier holds at one instant, as one value. */
  datatype Notices = Notices(toasts: seq<Toast>, container: seq<nat>, dialogs: seq<Dialog>,
                             keydownHandlers: seq<nat>, timers: seq<Timer>, now: int)

  /**
   * The notifier after `show(type, title, message, duration)`: the toast
   * is appended and put at the end of the container, its mount is
   * scheduled 100 ms on, its automatic hide `duration` ms on when that is
   * positive, and nothing else changes.
   */
  function WithToast(s: Notices, kind: Kind, title: string, message: string, duration: int): (r: Notices)
    ensures r.dialogs == s.dialogs && r.keydownHandlers == s.keydownHandlers && r.now == s.now
    ensures |r.toasts| == |s.toasts| + 1 && r.toasts[..|s.toasts|] == s.toasts
    ensures r.container == s.container + [|s.toasts|]
    ensures |r.timers| == |s.timers| + (if duration > 0 then 2 else 1)
    ensures r.timers[..|s.timers|] == s.timers
  {
    var id := |s.toasts|;
    s.(toasts := s.toasts + [Toast(kind, title, message, duration, s.now, false, false)],
       container := s.container + [id],
       timers := s.timers + [Timer(s.now + MountDelayMs, AddShow(id))]
                 + (if duration > 0 then [Timer(s.now + duration, AutoHide(id))] else []))
  }

  /**
   * The notifier after `confirm(title, message, confirmText, cancelText)`:
   * a pending overlay is added, its Escape handler registered and its
   * mount scheduled 100 ms on; the toasts and their container are untouched.
   */
  function WithDialog(s: Notices, title: string, message: string, confirmText: string, cancelText: string): (r: Notices)
    ensures r.toasts == s.toasts && r.container == s.container && r.now == s.now
    ensures |r.dialogs| == |s.dialogs| + 1 && r.dialogs[..|s.dialogs|] == s.dialogs
    ensures r.dialogs[|s.dialogs|].outcome == Pending && r.dialogs[|s.dialogs|].inBody
    ensures r.keydownHandlers == s.keydownHandlers + [|s.dialogs|]
    ensures r.timers == s.timers + [Timer(s.now + MountDelayMs, ShowOverlay(|s.dialogs|))]
  {
    var d := |s.dialogs|;
    s.(dialogs := s.dialogs + [Dialog(title, message, confirmText, cancelText, false, true, Pending)],
       keydownHandlers := s.keydownHandlers + [d],
       timers := s.timers + [Timer(s.now + MountDelayMs, ShowOverlay(d))])
  }

  /**
   * Index of the timer the event loop fires next: the earliest due time,
   * and among equal due times the one registered first.
   */
  method FindEarliest(timers: seq<Timer>) returns (k: nat)
    requires timers != []
    ensures k < |timers|
    ensures forall j :: 0 <= j < |timers| ==> timers[k].due <= timers[j].due
    ensures forall j :: 0 <= j < k ==> timers[j].due > timers[k].due
  {
    k := 0;
    var i := 1;
    while i < |timers|
      invariant 1 <= i <= |timers|
      invariant k < i
      invariant forall j :: 0 <= j < i ==> timers[k].due <= timers[j].due
      invariant forall j :: 0 <= j < k ==> timers[j].due > timers[k].due
    {
      if timers[i].due < timers[k].due {
        k := i;
      }
      i := i + 1;
    }
  }

  class ToastNotification {
    /** Number of `.toast-container` elements in the document. */
    var containerCount: nat
    /** Every toast element created so far; `show` returns the index. */
    var toasts: seq<Toast>
    /** The toasts attached to the container, in DOM order. */
    var container: seq<nat>
    /** Every confirm overlay created so far; its index names its promise. */
    var dialogs: seq<Dialog>
    /** Dialogs whose Escape handler is still registered on the document, in registration order. */
    var keydownHandlers: seq<nat>
    /** Pending `setTimeout` callbacks. */
    var timers: seq<Timer>
    /** The clock, in milliseconds. */
    var now: int

    /** The notifier's state as a value. */
    function State(): Notices
      reads this
    {
      Notices(toasts, container, dialogs, keydownHandlers, timers, now)
    }

    ghost predicate TimerOk(t: Timer)
      reads this
    {
      t.due >= now &&
      match t.action
      case AddShow(id) => id < |toasts| && t.due == toasts[id].createdAt + MountDelayMs
      case AutoHide(id) =>
        id < |toasts| && toasts[id].duration > 0 && t.due == toasts[id].createdAt + toasts[id].duration
      case RemoveToast(id) => id < |toasts| && toasts[id].hiding
      case ShowOverlay(d) => d < |dialogs|
      case RemoveOverlay(d) => d < |dialogs| && dialogs[d].outcome != Pending
    }

    ghost predicate Valid()
      reads this
    {
      && AllBelow(container, |toasts|)
      && Distinct(container)
      && (forall i :: 0 <= i < |keydownHandlers| ==> keydownHandlers[i] < |dialogs|)
      && (forall i :: 0 <= i < |toasts| ==> toasts[i].createdAt <= now)
      && (forall k :: 0 <= k < |timers| ==> TimerOk(timers[k]))
    }

    /** `new ToastNotification()` at instant `start`, in a document with `existing` toast containers. */
    constructor (existing: nat, start: int)
      ensures Valid()
      ensures containerCount == if existing == 0 then 1 else existing
      ensures toasts == [] && container == [] && dialogs == [] && keydownHandlers == []
      ensures timers == [] && now == start
    {
      containerCount := existing;
      toasts, container, dialogs, keydownHandlers, timers := [], [], [], [], [];
      now := start;
      new;
      Init();
    }

    /** `init`: creates a toast container only when the document has none. */
    method Init()
      modifies this`containerCount
      ensures containerCount == if old(containerCount) == 0 then 1 else old(containerCount)
    {
      if containerCount == 0 {
        containerCount := 1;
      }
    }

    /**
     * `show`: appends one toast at the end of the container and returns
     * it; schedules the `show` class and, for a positive duration, the
     * automatic hide at `duration` milliseconds.
     */
    method Show(kind: Kind, title: string, message: string, duration: int) returns (id: nat)
      requires Valid()
      modifies this`toasts, this`container, this`timers
      ensures Valid()
      ensures id == |old(toasts)|
      ensures toasts == old(toasts) + [Toast(kind, title, message, duration, now, false, false)]
      ensures container == old(container) + [id]
      ensures timers == old(timers) + [Timer(now + MountDelayMs, AddShow(id))]
                        + (if duration > 0 then [Timer(now + duration, AutoHide(id))] else [])
      ensures State() == WithToast(old(State()), kind, title, message, duration)
    {
      id := |toasts|;
      assert id !in container;
      toasts := toasts + [Toast(kind, title, message, duration, now, false, false)];
      container := container + [id];
      var scheduled := [Timer(now + MountDelayMs, AddShow(id))];
      if duration > 0 {
        scheduled := scheduled + [Timer(now + duration, AutoHide(id))];
      }
      timers := timers + scheduled;
      assert forall k :: 0 <= k < |old(timers)| ==> timers[k] == old(timers)[k];
    }

    /** `success`, `error`, `warning`, `info`: `show` with the kind's default when no duration is passed. */
    method ShowKind(kind: Kind, title: string, message: string, duration: Option<int>) returns (id: nat)
      requires Valid()
      modifies this`toasts, this`container, this`timers
      ensures Valid()
      ensures id == |old(toasts)| && container == old(container) + [id]
      ensures toasts == old(toasts) + [Toast(kind, title, message, duration.GetOr(KindDefaultMs(kind)), now, false, false)]
      ensures var d := duration.GetOr(KindDefaultMs(kind));
              timers == old(timers) + [Timer(now + MountDelayMs, AddShow(id))]
                        + (if d > 0 then [Timer(now + d, AutoHide(id))] else [])
      ensures duration == None ==>
                timers == old(timers) + [Timer(now + MountDelayMs, AddShow(id)), Timer(now + KindDefaultMs(kind), AutoHide(id))]
      ensures State() == WithToast(old(State()), kind, title, message, duration.GetOr(KindDefaultMs(kind)))
    {
      id := Show(kind, title, message, duration.GetOr(KindDefaultMs(kind)));
    }

    /** `loading`: an info toast that persists until cleared or closed. */
    method Loading(title: string, message: string) returns (id: nat)
      requires Valid()
      modifies this`toasts, this`container, this`timers
      ensures Valid()
      ensures id == |old(toasts)| && container == old(container) + [id]
      ensures toasts == old(toasts) + [Toast(Info, title, message, 0, now, false, false)]
      ensures timers == old(timers) + [Timer(now + MountDelayMs, AddShow(id))]
      ensures State() == WithToast(old(State()), Info, title, message, 0)
    {
      id := Show(Info, title, message, 0);
    }

    /** The window's `alert` replacement: an info toast titled 'Notice'. */
    method Alert(message: string) returns (id: nat)
      requires Valid()
      modifies this`toasts, this`container, this`timers
      ensures Valid()
      ensures id == |old(toasts)| && container == old(container) + [id]
      ensures toasts == old(toasts) + [Toast(Info, "Notice", message, 5000, now, false, false)]
      ensures timers == old(timers) + [Timer(now + MountDelayMs, AddShow(id)), Timer(now + 5000, AutoHide(id))]
      ensures State() == WithToast(old(State()), Info, "Notice", message, 5000)
    {
      id := ShowKind(Info, "Notice", message, None);
    }

    /** The toast's close button: `this.parentElement.remove()`. */
    method CloseClicked(id: nat)
      requires Valid()
      requires id in container
      modifies this`container
      ensures Valid()
      ensures container == RemoveId(old(container), id)
    {
      container := RemoveId(container, id);
    }

    /** Adding `hide` to a toast and scheduling its removal after the slide-out. */
    method Hide(id: nat)
      requires Valid() && id < |toasts|
      modifies this`toasts, this`timers
      ensures Valid()
      ensures toasts == old(toasts)[id := old(toasts)[id].(hiding := true)]
      ensures timers == old(timers) + [Timer(now + ExitDelayMs, RemoveToast(id))]
    {
      toasts := toasts[id := toasts[id].(hiding := true)];
      timers := timers + [Timer(now + ExitDelayMs, RemoveToast(id))];
    }

    /**
     * `clear`: every toast now in the container gets `hide`, and the
     * removal of each is scheduled, in container order.
     */
    method Clear()
      requires Valid()
      modifies this`toasts, this`timers
      ensures Valid()
      ensures toasts == HideAll(old(toasts), container)
      ensures timers == old(timers) + RemovalTimers(container, now + ExitDelayMs)
    {
      ghost var ts0, timers0, due := toasts, timers, now + ExitDelayMs;
      var ids := container;
      var n := 0;
      while n < |ids|
        invariant n <= |ids| && ids == container && due == now + ExitDelayMs
        invariant toasts == HideAll(ts0, ids[..n])
        invariant timers == timers0 + RemovalTimers(ids[..n], due)
        invariant Valid()
      {
        var id := ids[n];
        ghost var done := ids[..n + 1];
        ghost var before := timers;
        Hide(id);
        assert toasts == HideAll(ts0, done) by {
          HideAllStep(ts0, ids, n);
        }
        assert timers == timers0 + RemovalTimers(done, due) by {
          RemovalTimersStep(ids, n, due);
        }
        n := n + 1;
      }
      assert ids[..n] == ids;
    }

    /**
     * `confirm`: puts an overlay in the body, registers its Escape
     * handler on the document and returns its pending promise.
     */
    method Confirm(title: string, message: string, confirmText: Option<string>, cancelText: Option<string>)
      returns (d: nat)
      requires Valid()
      modifies this`dialogs, this`keydownHandlers, this`timers
      ensures Valid()
      ensures d == |old(dialogs)|
      ensures dialogs == old(dialogs) + [Dialog(title, message, confirmText.GetOr("Confirm"),
                                                cancelText.GetOr("Cancel"), false, true, Pending)]
      ensures keydownHandlers == old(keydownHandlers) + [d]
      ensures timers == old(timers) + [Timer(now + MountDelayMs, ShowOverlay(d))]
      ensures State() == WithDialog(old(State()), title, message, confirmText.GetOr("Confirm"), cancelText.GetOr("Cancel"))
    {
      d := |dialogs|;
      dialogs := dialogs + [Dialog(title, message, confirmText.GetOr("Confirm"),
                                   cancelText.GetOr("Cancel"), false, true, Pending)];
      keydownHandlers := keydownHandlers + [d];
      timers := timers + [Timer(now + MountDelayMs, ShowOverlay(d))];
    }

    /** The window's `confirm` replacement: hands back the pending promise, not a boolean. */
    method ConfirmOverride(message: string) returns (v: Value)
      requires Valid()
      modifies this`dialogs, this`keydownHandlers, this`timers
      ensures Valid()
      ensures v == PromiseOf(|old(dialogs)|) && v.Truthy()
      ensures dialogs == old(dialogs) + [Dialog("Confirmation", message, "Confirm", "Cancel", false, true, Pending)]
      ensures keydownHandlers == old(keydownHandlers) + [|old(dialogs)|]
      ensures State() == WithDialog(old(State()), "Confirmation", message, "Confirm", "Cancel")
    {
      var d := Confirm("Confirmation", message, None, None);
      v := PromiseOf(d);
    }

    /** `cleanup` then `resolve(answer)`: a settled promise keeps its first answer. */
    method Settle(d: nat, answer: bool)
      requires Valid() && d < |dialogs|
      modifies this`dialogs, this`timers
      ensures Valid()
      ensures |dialogs| == |old(dialogs)|
      ensures dialogs == old(dialogs)[d := Answered(old(dialogs)[d], answer)]
      ensures timers == old(timers) + [Timer(now + ExitDelayMs, RemoveOverlay(d))]
    {
      dialogs := dialogs[d := Answered(dialogs[d], answer)];
      timers := timers + [Timer(now + ExitDelayMs, RemoveOverlay(d))];
    }

    /**
     * A click on an overlay in the body. The confirm button answers true;
     * the cancel button and the backdrop itself answer false; a click
     * inside the dialog box does nothing. The Escape handler stays
     * registered whatever the click does.
     */
    method Click(d: nat, target: ClickTarget)
      requires Valid() && d < |dialogs| && dialogs[d].inBody
      modifies this`dialogs, this`timers
      ensures Valid()
      ensures keydownHandlers == old(keydownHandlers)
      ensures target == DialogBox ==> dialogs == old(dialogs) && timers == old(timers)
      ensures target != DialogBox ==>
                && dialogs == old(dialogs)[d := Answered(old(dialogs)[d], target == ConfirmButton)]
                && timers == old(timers) + [Timer(now + ExitDelayMs, RemoveOverlay(d))]
    {
      match target
      case ConfirmButton => Settle(d, true);
      case CancelButton => Settle(d, false);
      case Backdrop => Settle(d, false);
      case DialogBox =>
    }

    /**
     * A key press on the document. Every registered Escape handler runs:
     * each settles its dialog to false (if still pending), schedules its
     * overlay's removal and unregisters itself. Other keys change nothing.
     */
    method KeyDown(key: string)
      requires Valid()
      modifies this`dialogs, this`keydownHandlers, this`timers
      ensures Valid()
      ensures key != "Escape" ==> dialogs == old(dialogs) && keydownHandlers == old(keydownHandlers)
                                  && timers == old(timers)
      ensures key == "Escape" ==> keydownHandlers == []
      ensures |dialogs| == |old(dialogs)|
      ensures forall d :: 0 <= d < |dialogs| ==>
                dialogs[d] == if key == "Escape" && d in old(keydownHandlers)
                              then Answered(old(dialogs)[d], false) else old(dialogs)[d]
      ensures key == "Escape" ==> timers == old(timers) + OverlayRemovals(old(keydownHandlers), now + ExitDelayMs)
    {
      if key != "Escape" {
        return;
      }
      var handlers := keydownHandlers;
      var n := 0;
      while n < |handlers|
        invariant n <= |handlers|
        invariant Valid()
        invariant keydownHandlers == handlers[n..]
        invariant |dialogs| == |old(dialogs)|
        invariant forall d :: 0 <= d < |dialogs| ==>
                    dialogs[d] == if d in handlers[..n] then Answered(old(dialogs)[d], false) else old(dialogs)[d]
        invariant timers == old(timers) + OverlayRemovals(handlers[..n], now + ExitDelayMs)
      {
        RunEscapeHandler(handlers, n, old(dialogs), old(timers));
        n := n + 1;
      }
      assert handlers[..n] == handlers;
    }

    /** The `n`-th registered Escape handler runs: its dialog is answered false and it unregisters itself. */
    method RunEscapeHandler(handlers: seq<nat>, n: nat, ghost before: seq<Dialog>, ghost queued: seq<Timer>)
      requires Valid()
      requires n < |handlers| && keydownHandlers == handlers[n..]
      requires |dialogs| == |before|
      requires forall d :: 0 <= d < |dialogs| ==>
                 dialogs[d] == if d in handlers[..n] then Answered(before[d], false) else before[d]
      requires timers == queued + OverlayRemovals(handlers[..n], now + ExitDelayMs)
      modifies this`dialogs, this`keydownHandlers, this`timers
      ensures Valid()
      ensures keydownHandlers == handlers[n + 1..]
      ensures |dialogs| == |before|
      ensures forall d :: 0 <= d < |dialogs| ==>
                dialogs[d] == if d in handlers[..n + 1] then Answered(before[d], false) else before[d]
      ensures timers == queued + OverlayRemovals(handlers[..n + 1], now + ExitDelayMs)
    {
      var d := handlers[n];
      OverlayRemovalsStep(handlers, n, now);
      EscapeStep(before, dialogs, handlers, n);
      Settle(d, false);
      keydownHandlers := keydownHandlers[1..];
    }

    /** The clock moves to `t`; no pending timer is overtaken. */
    method Wait(t: int)
      requires Valid()
      requires now <= t
      requires forall k :: 0 <= k < |timers| ==> t <= timers[k].due
      modifies this`now
      ensures Valid() && now == t
    {
      now := t;
    }

    /**
     * The event loop fires the earliest pending timer: the clock moves to
     * its due time and its callback runs.
     */
    method RunNextTimer() returns (fired: Option<Timer>)
      requires Valid()
      modifies this
      ensures Valid()
      ensures old(timers) == [] ==> fired == None && timers == [] && now == old(now)
      ensures old(timers) != [] ==> fired.Some? && fired.value in old(timers) && now == fired.value.due
      ensures forall j :: 0 <= j < |old(timers)| ==> now <= old(timers)[j].due
      ensures old(now) <= now
      ensures containerCount == old(containerCount) && keydownHandlers == old(keydownHandlers)
      ensures old(timers) != [] ==>
                exists k :: 0 <= k < |old(timers)| && fired.value == old(timers)[k]
                  && (forall j :: 0 <= j < k ==> old(timers)[j].due > old(timers)[k].due)
                  && timers == old(timers)[..k] + old(timers)[k + 1..] + ScheduledBy(old(timers)[k].action, now)
      ensures old(timers) != [] ==>
                && toasts == ToastsAfter(old(toasts), fired.value.action)
                && container == ContainerAfter(old(container), fired.value.action)
                && dialogs == DialogsAfter(old(dialogs), fired.value.action)
      ensures Stable(old(toasts), toasts, old(dialogs), dialogs)
      ensures forall id :: 0 <= id < |toasts| && !old(toasts)[id].hiding && toasts[id].hiding ==>
                toasts[id].duration > 0 && now == toasts[id].createdAt + toasts[id].duration
      ensures forall id :: id in old(container) && id !in container ==> old(toasts)[id].hiding
      ensures forall d :: 0 <= d < |dialogs| && old(dialogs)[d].inBody && !dialogs[d].inBody ==>
                old(dialogs)[d].outcome != Pending
    {
      if timers == [] {
        return None;
      }
      var k := FindEarliest(timers);
      var t := timers[k];
      fired := Some(t);
      Dequeue(k);
      Fire(t.action);
    }

    /** Takes timer `k`, the earliest, off the queue and moves the clock to its due time. */
    method Dequeue(k: nat)
      requires Valid() && k < |timers|
      requires forall j :: 0 <= j < |timers| ==> timers[k].due <= timers[j].due
      modifies this`timers, this`now
      ensures timers == old(timers)[..k] + old(timers)[k + 1..]
      ensures now == old(timers)[k].due
      ensures Valid()
      ensures TimerOk(old(timers)[k])
    {
      var t := timers[k];
      assert TimerOk(t);
      timers := timers[..k] + timers[k + 1..];
      now := t.due;
      assert forall j :: 0 <= j < |timers| ==> timers[j] in old(timers);
    }

    /** The callback of a timer that is due now. */
    method Fire(a: Action)
      requires Valid() && TimerOk(Timer(now, a))
      modifies this`toasts, this`container, this`dialogs, this`timers
      ensures Valid()
      ensures toasts == ToastsAfter(old(toasts), a)
      ensures container == ContainerAfter(old(container), a)
      ensures dialogs == DialogsAfter(old(dialogs), a)
      ensures timers == old(timers) + ScheduledBy(a, now)
      ensures Stable(old(toasts), toasts, old(dialogs), dialogs)
      ensures forall id :: 0 <= id < |toasts| && !old(toasts)[id].hiding && toasts[id].hiding ==>
                toasts[id].duration > 0 && now == toasts[id].createdAt + toasts[id].duration
      ensures forall id :: id in old(container) && id !in container ==> old(toasts)[id].hiding
      ensures forall d :: 0 <= d < |dialogs| && old(dialogs)[d].inBody && !dialogs[d].inBody ==>
                old(dialogs)[d].outcome != Pending
    {
      match a
      case AddShow(id) =>
        MarkShown(id);
      case AutoHide(id) =>
        Hide(id);
      case RemoveToast(id) =>
        container := RemoveId(container, id);
      case ShowOverlay(d) =>
        SetDialog(d, dialogs[d].(shown := true));
      case RemoveOverlay(d) =>
        SetDialog(d, dialogs[d].(inBody := false));
    }

    /** The `show` class added to a mounted toast. */
    method MarkShown(id: nat)
      requires Valid() && id < |toasts|
      modifies this`toasts
      ensures Valid()
      ensures toasts == old(toasts)[id := old(toasts)[id].(shown := true)]
    {
      toasts := toasts[id := toasts[id].(shown := true)];
      assert forall k :: 0 <= k < |toasts| ==>
               toasts[k].(shown := false) == old(toasts)[k].(shown := false);
    }

    /** A dialog's overlay changed in a way that keeps its outcome. */
    method SetDialog(d: nat, dialog: Dialog)
      requires Valid() && d < |dialogs| && dialog.outcome == dialogs[d].outcome
      modifies this`dialogs
      ensures Valid()
      ensures dialogs == old(dialogs)[d := dialog]
    {
      dialogs := dialogs[d := dialog];
    }
  }

  /**
   * A dialog after `cleanup` and `resolve(answer)`: the overlay loses
   * `show`, and a promise already settled keeps its first answer.
   */
  function Answered(dialog: Dialog, answer: bool): (r: Dialog)
    ensures !r.shown && r.outcome != Pending
    ensures dialog.outcome != Pending ==> r.outcome == dialog.outcome
    ensures dialog.outcome == Pending ==> r.outcome == Resolved(answer)
    ensures r.(shown := dialog.shown, outcome := dialog.outcome) == dialog
  {
    dialog.(shown := false, outcome := if dialog.outcome == Pending then Resolved(answer) else dialog.outcome)
  }

  /** One overlay removal per dialog, in order, all due at `due`. */
  function OverlayRemovals(ds: seq<nat>, due: int): (r: seq<Timer>)
    ensures |r| == |ds|
  {
    seq(|ds|, i requires 0 <= i < |ds| => Timer(due, RemoveOverlay(ds[i])))
  }

  /** Answering the next handler's dialog extends the answered prefix by one handler. */
  lemma EscapeStep(before: seq<Dialog>, current: seq<Dialog>, handlers: seq<nat>, n: nat)
    requires n < |handlers| && handlers[n] < |current| == |before|
    requires forall d :: 0 <= d < |current| ==>
               current[d] == if d in handlers[..n] then Answered(before[d], false) else before[d]
    ensures forall d :: 0 <= d < |current| ==>
              current[handlers[n] := Answered(current[handlers[n]], false)][d]
              == if d in handlers[..n + 1] then Answered(before[d], false) else before[d]
  {
    assert handlers[..n + 1] == handlers[..n] + [handlers[n]];
  }

  lemma OverlayRemovalsStep(ds: seq<nat>, n: nat, now: int)
    requires n < |ds|
    ensures OverlayRemovals(ds[..n + 1], now + ExitDelayMs)
            == OverlayRemovals(ds[..n], now + ExitDelayMs) + [Timer(now + ExitDelayMs, RemoveOverlay(ds[n]))]
  {
  }

  /** The toasts after the callback of `a`: `show` added by the mount timer, `hide` by the auto-hide timer. */
  function ToastsAfter(ts: seq<Toast>, a: Action): (r: seq<Toast>)
    ensures |r| == |ts|
  {
    match a
    case AddShow(id) => if id < |ts| then ts[id := ts[id].(shown := true)] else ts
    case AutoHide(id) => if id < |ts| then ts[id := ts[id].(hiding := true)] else ts
    case _ => ts
  }

  /** The container after the callback of `a`: only the removal timer takes a toast out. */
  function ContainerAfter(c: seq<nat>, a: Action): seq<nat> {
    match a
    case RemoveToast(id) => RemoveId(c, id)
    case _ => c
  }

  /** The dialogs after the callback of `a`: `show` added to the overlay, or the overlay taken out of the body. */
  function DialogsAfter(ds: seq<Dialog>, a: Action): (r: seq<Dialog>)
    ensures |r| == |ds|
  {
    match a
    case ShowOverlay(d) => if d < |ds| then ds[d := ds[d].(shown := true)] else ds
    case RemoveOverlay(d) => if d < |ds| then ds[d := ds[d].(inBody := false)] else ds
    case _ => ds
  }

  /** The timers the callback of `a` registers at instant `now`: the auto-hide schedules the removal. */
  function ScheduledBy(a: Action, now: int): seq<Timer> {
    match a
    case AutoHide(id) => [Timer(now + ExitDelayMs, RemoveToast(id))]
    case _ => []
  }

  /**
   * A toast's three callbacks in order: it is shown, then hiding, and the
   * removal the auto-hide schedules takes it out of the container.
   */
  lemma ToastLifecycle(ts: seq<Toast>, c: seq<nat>, id: nat, now: int)
    requires id < |ts|
    ensures var after := ToastsAfter(ToastsAfter(ts, AddShow(id)), AutoHide(id));
            after[id] == ts[id].(shown := true, hiding := true)
            && (forall j :: 0 <= j < |ts| && j != id ==> after[j] == ts[j])
    ensures ScheduledBy(AutoHide(id), now) == [Timer(now + ExitDelayMs, RemoveToast(id))]
    ensures id !in ContainerAfter(c, ScheduledBy(AutoHide(id), now)[0].action)
    ensures forall x :: x in c && x != id ==> x in ContainerAfter(c, RemoveToast(id))
  {
  }

  /** What no timer changes: which toasts and dialogs exist, their contents and their promises. */
  ghost predicate Stable(toasts: seq<Toast>, toasts': seq<Toast>, dialogs: seq<Dialog>, dialogs': seq<Dialog>) {
    && |toasts'| == |toasts| && |dialogs'| == |dialogs|
    && (forall id :: 0 <= id < |toasts| ==>
          toasts'[id].(shown := false, hiding := false) == toasts[id].(shown := false, hiding := false))
    && (forall d :: 0 <= d < |dialogs| ==>
          dialogs'[d].(shown := false, inBody := false) == dialogs[d].(shown := false, inBody := false))
  }

  /** `element.remove()` on a child of the container: the others keep their order. */
  function RemoveId(s: seq<nat>, id: nat): (r: seq<nat>)
    ensures forall x :: x in r <==> x in s && x != id
    ensures |r| <= |s|
    ensures Distinct(s) ==> Distinct(r)
    ensures forall n :: AllBelow(s, n) ==> AllBelow(r, n)
  {
    if s == [] then []
    else
      var rest := RemoveId(s[1..], id);
      var r := (if s[0] == id then [] else [s[0]]) + rest;
      assert Distinct(s) ==> Distinct(r) by {
        if Distinct(s) {
          forall k | 0 <= k < |s| - 1
            ensures s[1..][k] != s[0]
          {
            assert s[1..][k] == s[k + 1];
          }
          assert Distinct(s[1..]) by {
            forall i, j | 0 <= i < j < |s| - 1
              ensures s[1..][i] != s[1..][j]
            {
              assert s[1..][i] == s[i + 1] && s[1..][j] == s[j + 1];
            }
          }
          DistinctCons(s[0], rest);
        }
      }
      assert forall n :: AllBelow(s, n) ==> AllBelow(r, n) by {
        forall n | AllBelow(s, n)
          ensures AllBelow(r, n)
        {
          forall k | 0 <= k < |r|
            ensures r[k] < n
          {
            if s[0] != id && k == 0 {
              assert r[k] == s[0];
            } else {
              var j := if s[0] == id then k else k - 1;
              assert r[k] == rest[j] && rest[j] in s[1..];
            }
          }
        }
      }
      r
  }

  lemma DistinctCons(x: nat, s: seq<nat>)
    ensures x !in s && Distinct(s) ==> Distinct([x] + s)
  {
    if x !in s && Distinct(s) {
      forall i, j | 0 <= i < j < |[x] + s|
        ensures ([x] + s)[i] != ([x] + s)[j]
      {
        if i > 0 {
          assert ([x] + s)[i] == s[i - 1] && ([x] + s)[j] == s[j - 1];
        } else {
          assert ([x] + s)[j] == s[j - 1];
        }
      }
    }
  }

  /** Every handle in `s` names one of the first `n` elements. */
  ghost predicate AllBelow(s: seq<nat>, n: nat) {
    forall k :: 0 <= k < |s| ==> s[k] < n
  }

  lemma AllBelowPrefix(s: seq<nat>, n: nat, m: nat)
    requires AllBelow(s, n) && m <= |s|
    ensures AllBelow(s[..m], n)
  {
  }

  ghost predicate Distinct(s: seq<nat>) {
    forall i, j :: 0 <= i < j < |s| ==> s[i] != s[j]
  }

  /** The toasts after `hide` is added to each of `ids`, in order. */
  function HideAll(ts: seq<Toast>, ids: seq<nat>): (r: seq<Toast>)
    ensures |r| == |ts|
  {
    if ids == [] then ts
    else
      var r := HideAll(ts, ids[..|ids| - 1]);
      var id := ids[|ids| - 1];
      if id < |r| then r[id := r[id].(hiding := true)] else r
  }

  lemma HideAllStep(ts: seq<Toast>, ids: seq<nat>, n: nat)
    requires n < |ids|
    ensures HideAll(ts, ids[..n + 1]) ==
            var r := HideAll(ts, ids[..n]);
            if ids[n] < |r| then r[ids[n] := r[ids[n]].(hiding := true)] else r
  {
    assert ids[..n + 1][..n] == ids[..n];
  }

  lemma RemovalTimersStep(ids: seq<nat>, n: nat, due: int)
    requires n < |ids|
    ensures RemovalTimers(ids[..n + 1], due) == RemovalTimers(ids[..n], due) + [Timer(due, RemoveToast(ids[n]))]
  {
    assert ids[..n + 1][..n] == ids[..n];
  }

  /** `clear` hides exactly the toasts it found in the container and leaves the rest as they were. */
  lemma {:induction false} HideAllMarks(ts: seq<Toast>, ids: seq<nat>)
    requires AllBelow(ids, |ts|)
    ensures forall i :: 0 <= i < |ts| ==>
              HideAll(ts, ids)[i] == if i in ids then ts[i].(hiding := true) else ts[i]
  {
    if ids != [] {
      var init := ids[..|ids| - 1];
      assert forall i :: i in ids <==> i in init || i == ids[|ids| - 1];
      HideAllMarks(ts, init);
    }
  }

  /** One removal timer per toast, all due at `due`, in the given order. */
  function RemovalTimers(ids: seq<nat>, due: int): (r: seq<Timer>)
    ensures |r| == |ids|
    ensures forall i :: 0 <= i < |ids| ==> r[i] == Timer(due, RemoveToast(ids[i]))
  {
    if ids == [] then [] else RemovalTimers(ids[..|ids| - 1], due) + [Timer(due, RemoveToast(ids[|ids| - 1]))]
  }
}
