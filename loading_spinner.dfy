/**
 * The loading spinner system: one page-wide spinner overlay created on
 * first use, and spinners that replace the content of a button or of any
 * element, saving what they replace in the element's `dataset`.
 */
module LoadingSpinner {
  import opened Wrappers
  import opened Strings
  import opened Dom
  import Toast

  const ContainerClass: string := "loading-spinner-container"
  const DefaultMessage: string := "Loading..."
  const DefaultErrorMessage: string := "An error occurred"
  const ProcessingText: string := "Processing..."
  /** The class an element carries while an inline spinner is in it. */
  const HasSpinner: string := "has-spinner"
  /** The class a button carries while its spinner is shown. */
  const Loading: string := "loading"

  /** The `dataset` keys under which a button's content and flag are saved. */
  const OriginalText: string := "originalText"
  const OriginalDisabled: string := "originalDisabled"

  /**
   * The page spinner as the scripts see it: whether the singleton
   * container exists, its classes, the text of its label, and the body's
   * `overflow` style.
   */
  datatype Page = Page(hasContainer: bool, classes: set<string>, text: string, bodyOverflow: string)

  /** `spinner-<size>` or `spinner-<type>` for a non-empty option; nothing for a missing one. */
  function OptionClass(option: string): set<string> {
    if option == "" then {} else {"spinner-" + option}
  }

  /** The page after `createSpinnerContainer`. */
  function Created(p: Page): (r: Page)
    ensures r.hasContainer
    ensures p.hasContainer ==> r == p
  {
    if p.hasContainer then p else p.(hasContainer := true, classes := {ContainerClass}, text := DefaultMessage)
  }

  /** The page after `showSpinner(message, {size, type})`. */
  function Shown(p: Page, message: string, size: string, kind: string): (r: Page)
    ensures r.hasContainer && r.text == message && "active" in r.classes && r.bodyOverflow == "hidden"
    ensures Created(p).classes <= r.classes
    ensures r.classes == Created(p).classes + OptionClass(size) + OptionClass(kind) + {"active"}
  {
    var c := Created(p);
    c.(text := message, classes := c.classes + OptionClass(size) + OptionClass(kind) + {"active"},
       bodyOverflow := "hidden")
  }

  /** The page after `hideSpinner`. */
  function Hidden(p: Page): (r: Page)
    ensures !p.hasContainer ==> r == p
    ensures p.hasContainer ==> r.hasContainer && r.classes == {ContainerClass} && r.bodyOverflow == ""
                               && r.text == p.text
  {
    if !p.hasContainer then p else p.(classes := {ContainerClass}, bodyOverflow := "")
  }

  /** `hideSpinner` twice leaves the page as once. */
  lemma HideIdempotent(p: Page)
    ensures Hidden(Hidden(p)) == Hidden(p)
  {
  }

  /** A second `showSpinner` replaces the label and keeps the classes of the first. */
  lemma ShowTwice(p: Page, m1: string, s1: string, k1: string, m2: string, s2: string, k2: string)
    ensures Shown(Shown(p, m1, s1, k1), m2, s2, k2).text == m2
    ensures OptionClass(s1) + OptionClass(k1) + OptionClass(s2) + OptionClass(k2)
            <= Shown(Shown(p, m1, s1, k1), m2, s2, k2).classes
  {
  }

  /** The markup a button spinner puts in the button; the label only when a text is given. */
  function ButtonSpinnerHtml(text: Option<string>): string {
    ButtonSpinnerRing
    + match text
      case None => ""
      case Some(t) => ButtonSpinnerTextOpen + t + "</span>"
  }

  const ButtonSpinnerRing: string := "<span class=\"button-spinner\"><span class=\"button-spinner-ring\"></span></span>"
  const ButtonSpinnerTextOpen: string := "<span class=\"button-spinner-text\">"

  /** The markup an inline spinner puts in its element. */
  function InlineSpinnerHtml(message: string): string {
    InlineSpinnerOpen + message + InlineSpinnerClose
  }

  const InlineSpinnerOpen: string :=
    "<div class=\"inline-spinner\"><div class=\"inline-spinner-ring\"></div><span class=\"inline-spinner-text\">"
  const InlineSpinnerClose: string := "</span></div>"

  /** `String(b)` of a boolean, as stored in `dataset`. */
  function BoolString(b: bool): (r: string)
    ensures r == "true" <==> b
  {
    if b then "true" else (assert |"false"| != |"true"|; "false")
  }

  /** A button after `showButtonSpinner(button, text)`. */
  function ShowButton(e: ElementState, text: Option<string>): (r: ElementState)
    ensures r.disabled && Loading in r.classes
    ensures OriginalText in r.dataset && r.dataset[OriginalText] == e.innerHTML
    ensures OriginalDisabled in r.dataset && (r.dataset[OriginalDisabled] == "true" <==> e.disabled)
    ensures r.innerHTML == ButtonSpinnerHtml(text)
    ensures r.attributes == e.attributes && r.style == e.style
  {
    assert |OriginalText| != |OriginalDisabled|;
    e.(disabled := true,
       dataset := e.dataset[OriginalText := e.innerHTML][OriginalDisabled := BoolString(e.disabled)],
       innerHTML := ButtonSpinnerHtml(text),
       classes := e.classes + {Loading})
  }

  /**
   * A button after `hideButtonSpinner(button)`: the saved content, or the
   * current text when none is saved (or the saved one is empty); the
   * saved flag, or enabled when none is saved.
   */
  function HideButton(e: ElementState): (r: ElementState)
    ensures OriginalText !in r.dataset && OriginalDisabled !in r.dataset && Loading !in r.classes
    ensures r.disabled <==> OriginalDisabled in e.dataset && e.dataset[OriginalDisabled] == "true"
    ensures r.innerHTML == if OriginalText in e.dataset && e.dataset[OriginalText] != ""
                           then e.dataset[OriginalText] else e.TextContent()
    ensures r.attributes == e.attributes && r.style == e.style
  {
    var original := if OriginalText in e.dataset && e.dataset[OriginalText] != ""
                    then e.dataset[OriginalText] else e.TextContent();
    e.(innerHTML := original,
       disabled := OriginalDisabled in e.dataset && e.dataset[OriginalDisabled] == "true",
       classes := e.classes - {Loading},
       dataset := e.dataset - {OriginalText, OriginalDisabled})
  }

  /**
   * Show then hide gives the button back its content and its `disabled`
   * flag, without the `loading` class and the saved fields, provided it
   * had some content.
   */
  lemma ShowThenHideRestores(e: ElementState, text: Option<string>)
    requires e.innerHTML != ""
    ensures HideButton(ShowButton(e, text)) ==
            e.(classes := e.classes - {Loading}, dataset := e.dataset - {OriginalText, OriginalDisabled})
  {
    var r := HideButton(ShowButton(e, text));
    assert r.dataset == e.dataset - {OriginalText, OriginalDisabled};
  }

  /**
   * A second hide finds nothing saved: the content becomes its own text
   * and the button is enabled, whatever it was before.
   */
  lemma SecondHide(e: ElementState, text: Option<string>)
    ensures var once := HideButton(ShowButton(e, text));
            var twice := HideButton(once);
            twice.innerHTML == once.TextContent() && !twice.disabled
  {
  }

  /** So a second hide is not a no-op: a disabled button comes back enabled. */
  lemma SecondHideEnables()
    ensures var e := ElementState("Save", true, {}, map[], map[], map[]);
            var once := HideButton(ShowButton(e, None));
            once.disabled && HideButton(once) != once
  {
    var e := ElementState("Save", true, {}, map[], map[], map[]);
    assert ShowButton(e, None).dataset[OriginalDisabled] == "true";
    assert !HideButton(HideButton(ShowButton(e, None))).disabled;
  }

  /** An element after `showInlineSpinner(element, message)`. */
  function ShowInline(e: ElementState, message: string): (r: ElementState)
    ensures r.innerHTML == InlineSpinnerHtml(message) && HasSpinner in r.classes
  {
    e.(innerHTML := InlineSpinnerHtml(message), classes := e.classes + {HasSpinner})
  }

  /** An element after `hideInlineSpinner(element)`: only the class goes. */
  function HideInline(e: ElementState): (r: ElementState)
    ensures forall c :: c in r.classes <==> c in e.classes && c != HasSpinner
    ensures r.innerHTML == e.innerHTML && r.disabled == e.disabled
    ensures r.dataset == e.dataset && r.attributes == e.attributes && r.style == e.style
  {
    e.(classes := e.classes - {HasSpinner})
  }

  /** Hiding an inline spinner does not bring the element's content back. */
  lemma InlineHideKeepsSpinner(e: ElementState, message: string)
    ensures HideInline(ShowInline(e, message)).innerHTML == InlineSpinnerHtml(message)
    ensures HasSpinner !in HideInline(ShowInline(e, message)).classes
  {
  }

  /** How the wrapped asynchronous function settles. */
  datatype Outcome = Returned(value: string) | Threw(message: string)

  /** The error toast's message: `error.message`, or the default when it is missing or empty. */
  function ErrorText(message: string): (r: string)
    ensures r != ""
    ensures message != "" ==> r == message
  {
    if message == "" then DefaultErrorMessage else message
  }

  /** The module's state: the page spinner singleton. */
  class Spinners {
    var hasContainer: bool
    /** Number of spinner containers appended to the body. */
    var appended: nat
    var classes: set<string>
    var text: string
    var bodyOverflow: string

    function State(): Page
      reads this
    {
      Page(hasContainer, classes, text, bodyOverflow)
    }

    ghost predicate Valid()
      reads this
    {
      appended == if hasContainer then 1 else 0
    }

    constructor (overflow: string)
      ensures Valid() && !hasContainer && bodyOverflow == overflow
    {
      hasContainer := false;
      appended := 0;
      classes := {};
      text := "";
      bodyOverflow := overflow;
    }

    /** `createSpinnerContainer`: the first call creates and appends it, later ones return it. */
    method CreateContainer()
      requires Valid()
      modifies this
      ensures Valid() && appended == 1
      ensures State() == Created(old(State()))
    {
      if hasContainer {
        return;
      }
      hasContainer := true;
      appended := appended + 1;
      classes := {ContainerClass};
      text := DefaultMessage;
    }

    /** `showSpinner(message, {size, type})`; an absent message is 'Loading...'. */
    method Show(message: Option<string>, size: string, kind: string)
      requires Valid()
      modifies this
      ensures Valid() && appended == 1
      ensures State() == Shown(old(State()), message.GetOr(DefaultMessage), size, kind)
    {
      CreateContainer();
      text := message.GetOr(DefaultMessage);
      classes := classes + OptionClass(size);
      classes := classes + OptionClass(kind);
      classes := classes + {"active"};
      bodyOverflow := "hidden";
    }

    /** `hideSpinner`: nothing before the first show. */
    method Hide()
      requires Valid()
      modifies this
      ensures Valid() && appended == old(appended)
      ensures State() == Hidden(old(State()))
    {
      if !hasContainer {
        return;
      }
      classes := classes - {"active"};
      bodyOverflow := "";
      classes := {ContainerClass};
    }

    /**
     * `withSpinner(work, message, options)`: the spinner is up while the
     * work runs and hidden however it settles; its outcome is passed on
     * unchanged, so an exception still reaches the caller.
     */
    method WithSpinner(work: Outcome, message: Option<string>, size: string, kind: string) returns (r: Outcome)
      requires Valid()
      modifies this
      ensures Valid()
      ensures r == work
      ensures State() == Hidden(Shown(old(State()), message.GetOr(DefaultMessage), size, kind))
    {
      Show(message, size, kind);
      r := work;
      Hide();
    }
  }

  /** `showButtonSpinner(button, text)`: null for a missing button, else its hide handle. */
  method ShowButtonSpinner(button: Element?, text: Option<string>) returns (handle: Option<Element>)
    modifies button
    ensures button == null ==> handle == None
    ensures button != null ==> handle == Some(button) && button.State() == ShowButton(old(button.State()), text)
  {
    if button == null {
      return None;
    }
    var originalText := button.innerHTML;
    var originalDisabled := button.disabled;
    button.disabled := true;
    button.dataset := button.dataset[OriginalText := originalText];
    button.dataset := button.dataset[OriginalDisabled := BoolString(originalDisabled)];
    button.innerHTML := ButtonSpinnerHtml(text);
    button.classes := button.classes + {Loading};
    handle := Some(button);
  }

  /** `hideButtonSpinner(button)`; nothing for a missing button. */
  method HideButtonSpinner(button: Element?)
    modifies button
    ensures button != null ==> button.State() == HideButton(old(button.State()))
  {
    if button == null {
      return;
    }
    var originalText := if OriginalText in button.dataset && button.dataset[OriginalText] != ""
                        then button.dataset[OriginalText] else button.TextContent();
    var originalDisabled := OriginalDisabled in button.dataset && button.dataset[OriginalDisabled] == "true";
    button.innerHTML := originalText;
    button.disabled := originalDisabled;
    button.classes := button.classes - {Loading};
    button.dataset := button.dataset - {OriginalText};
    button.dataset := button.dataset - {OriginalDisabled};
  }

  /** `showInlineSpinner(element, message)`: null for a missing element; an absent message is 'Loading...'. */
  method ShowInlineSpinner(element: Element?, message: Option<string>) returns (handle: Option<Element>)
    modifies element
    ensures element == null ==> handle == None
    ensures element != null ==>
              handle == Some(element) && element.State() == ShowInline(old(element.State()), message.GetOr(DefaultMessage))
  {
    if element == null {
      return None;
    }
    element.innerHTML := InlineSpinnerHtml(message.GetOr(DefaultMessage));
    element.classes := element.classes + {HasSpinner};
    handle := Some(element);
  }

  /** `hideInlineSpinner(element)`; nothing for a missing element. */
  method HideInlineSpinner(element: Element?)
    modifies element
    ensures element != null ==> element.State() == HideInline(old(element.State()))
  {
    if element != null {
      element.classes := element.classes - {HasSpinner};
    }
  }

  /**
   * One click on a button set up by `wrapButtonClick(button, work,
   * loadingText)`: the button spinner is shown, the work runs, a failure
   * becomes an error toast when the toast system is loaded, and the
   * button spinner is hidden in every case.
   */
  method WrappedClick(button: Element, work: Outcome, loadingText: Option<string>, toasts: Toast.ToastNotification?)
    requires toasts != null ==> toasts.Valid()
    modifies button, Toast.Present(toasts)`toasts, Toast.Present(toasts)`container, Toast.Present(toasts)`timers
    ensures button.State() == HideButton(ShowButton(old(button.State()), loadingText))
    ensures toasts != null ==> toasts.Valid()
    ensures toasts != null && work.Threw? ==>
              toasts.toasts == old(toasts.toasts) + [Toast.Toast(Toast.Error, "Error", ErrorText(work.message),
                                                                 Toast.KindDefaultMs(Toast.Error), old(toasts.now), false, false)]
    ensures toasts != null && work.Returned? ==> toasts.toasts == old(toasts.toasts)
    ensures toasts != null && work.Threw? ==>
              toasts.State() == Toast.WithToast(old(toasts.State()), Toast.Error, "Error", ErrorText(work.message), 7000)
    ensures toasts != null && work.Returned? ==> toasts.State() == old(toasts.State())
  {
    var handle := ShowButtonSpinner(button, loadingText);
    if work.Threw? && toasts != null {
      var _ := toasts.ShowKind(Toast.Error, "Error", ErrorText(work.message), None);
    }
    HideButtonSpinner(handle.value);
  }

  /** Whether a form opted in to the automatic spinner: `data-spinner="true"` or the `auto-spinner` class. */
  predicate AutoSpinner(spinnerFlag: Option<string>, formClasses: set<string>) {
    spinnerFlag == Some("true") || "auto-spinner" in formClasses
  }

  /**
   * The submit of a form wired on page load: an opted-in form shows
   * 'Processing...' on its submit button, or on the page spinner when it
   * has none; nothing hides it again. Other forms are left alone.
   */
  method FormSubmitted(spinners: Spinners, spinnerFlag: Option<string>, formClasses: set<string>, submitButton: Element?)
    requires spinners.Valid()
    modifies spinners, submitButton
    ensures spinners.Valid()
    ensures !AutoSpinner(spinnerFlag, formClasses) ==>
              spinners.State() == old(spinners.State()) && (submitButton != null ==> submitButton.State() == old(submitButton.State()))
    ensures AutoSpinner(spinnerFlag, formClasses) && submitButton != null ==>
              submitButton.State() == ShowButton(old(submitButton.State()), Some(ProcessingText))
              && spinners.State() == old(spinners.State())
    ensures AutoSpinner(spinnerFlag, formClasses) && submitButton == null ==>
              spinners.State() == Shown(old(spinners.State()), ProcessingText, "", "")
  {
    if !AutoSpinner(spinnerFlag, formClasses) {
      return;
    }
    if submitButton != null {
      var _ := ShowButtonSpinner(submitButton, Some(ProcessingText));
    } else {
      spinners.Show(Some(ProcessingText), "", "");
    }
  }
}
