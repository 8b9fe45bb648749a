/**
 * The theme switcher: a stored preference cycling auto, light, dark; the
 * effective theme it gives under the system's colour-scheme preference;
 * the classes and attributes of the root element; and the switcher button.
 */
module DarkMode {
  import opened Wrappers
  import opened Storage
  import opened Dom
  import Toast

  const StorageKey: string := "gymsite-theme"
  const Light: string := "light"
  const Dark: string := "dark"
  const Auto: string := "auto"

  /** The three values `setTheme` accepts. */
  predicate IsPreference(t: string) {
    t == Light || t == Dark || t == Auto
  }

  /** The stored preference: `getItem(key) || 'auto'`. */
  function StoredOrAuto(stored: Option<string>): (t: string)
    ensures t != ""
    ensures stored.Some? && stored.value != "" ==> t == stored.value
    ensures stored.None? || stored.value == "" ==> t == Auto
  {
    if stored.Some? && stored.value != "" then stored.value else Auto
  }

  /** The preference after a toggle: auto, light, dark, auto; anything else goes to auto. */
  function NextTheme(t: string): (n: string)
    ensures IsPreference(n)
    ensures n == Light <==> t == Auto
    ensures n == Dark <==> t == Light
    ensures n == Auto <==> t != Auto && t != Light
  {
    if t == Auto then Light
    else if t == Light then Dark
    else Auto
  }

  /** Three toggles from a valid preference come back to it. */
  lemma ThreeTogglesCycle(t: string)
    requires IsPreference(t)
    ensures NextTheme(NextTheme(NextTheme(t))) == t
  {
  }

  /** The theme `applyTheme` shows: auto follows the system, any other value is shown as it is. */
  function Effective(theme: string, systemDark: bool): (e: string)
    ensures theme != Auto ==> e == theme
    ensures IsPreference(theme) ==> (e == Light || e == Dark)
    ensures IsPreference(theme) ==> (e == Dark <==> theme == Dark || (theme == Auto && systemDark))
  {
    if theme != Auto then theme
    else if systemDark then Dark
    else Light
  }

  /** The root's classes after `applyTheme`: the light and dark classes replaced by the effective one. */
  function ThemedClasses(classes: set<string>, theme: string, systemDark: bool): (r: set<string>)
    ensures Effective(theme, systemDark) in r
    ensures IsPreference(theme) ==> (Light in r <==> Dark !in r)
    ensures forall c :: c in classes && c != Light && c != Dark ==> c in r
  {
    classes - {Light, Dark} + {Effective(theme, systemDark)}
  }

  /** The switcher button's icon for a preference. */
  function IconFor(preference: string): (icon: string)
    ensures preference == Dark ==> icon == "fas fa-sun"
    ensures preference == Light ==> icon == "fas fa-moon"
    ensures preference != Dark && preference != Light ==> icon == "fas fa-adjust"
  {
    if preference == Dark then "fas fa-sun"
    else if preference == Light then "fas fa-moon"
    else "fas fa-adjust"
  }

  /** The switcher button's tooltip for a preference. */
  function TitleFor(preference: string): string {
    if preference == Dark then "Switch to light mode"
    else if preference == Light then "Switch to dark mode"
    else "Theme: Auto (follows system)"
  }

  /** The name the confirmation toast gives a preference. */
  function ThemeName(t: string): string {
    if t == Auto then "Auto (System)"
    else if t == Light then "Light"
    else "Dark"
  }

  /** The page's theme state: storage, the root element, the system preference and the switcher. */
  class ThemeManager {
    const storage: LocalStorage
    const root: Element
    /** `matchMedia('(prefers-color-scheme: dark)').matches`. */
    var systemDark: bool
    /** Whether the page has a `nav` to put the switcher in. */
    const hasNav: bool
    /** Number of `#theme-switcher` elements in the document. */
    var switchers: nat
    /** The switcher button's icon class and tooltip, once the button is in the document. */
    var icon: string
    var title: Option<string>

    ghost predicate Valid()
      reads this
    {
      switchers <= 1
    }

    constructor (storage: LocalStorage, root: Element, systemDark: bool, hasNav: bool)
      ensures Valid() && this.storage == storage && this.root == root
      ensures this.systemDark == systemDark && this.hasNav == hasNav && switchers == 0
    {
      this.storage := storage;
      this.root := root;
      this.systemDark := systemDark;
      this.hasNav := hasNav;
      switchers := 0;
      icon := "";
      title := None;
    }

    /** `getTheme`. */
    function Preference(): string
      reads this, storage
    {
      StoredOrAuto(storage.GetItem(StorageKey))
    }

    /** `getEffectiveTheme`: the root's `data-theme`, or light when it is missing or empty. */
    function EffectiveTheme(): (t: string)
      reads this, root
      ensures t != ""
    {
      match root.Attribute("data-theme")
      case Some(v) => if v == "" then Light else v
      case None => Light
    }

    /** `updateThemeSwitcherButton`: nothing while the button is not in the document. */
    method UpdateButton(preference: string)
      modifies this`icon, this`title
      ensures switchers > 0 ==> icon == IconFor(preference) && title == Some(TitleFor(preference))
      ensures switchers == 0 ==> icon == old(icon) && title == old(title)
    {
      if switchers == 0 {
        return;
      }
      icon := IconFor(preference);
      title := Some(TitleFor(preference));
    }

    /** `applyTheme(theme)`. */
    method ApplyTheme(theme: string)
      requires Valid()
      modifies root`classes, root`attributes, this`icon, this`title
      ensures Valid()
      ensures root.classes == ThemedClasses(old(root.classes), theme, systemDark)
      ensures root.attributes == old(root.attributes)["data-theme" := Effective(theme, systemDark)]
                                                     ["data-theme-preference" := theme]
      ensures IsPreference(theme) ==> EffectiveTheme() == Effective(theme, systemDark)
      ensures switchers > 0 ==> icon == IconFor(theme) && title == Some(TitleFor(theme))
      ensures switchers == 0 ==> icon == old(icon) && title == old(title)
    {
      var effective := Effective(theme, systemDark);
      root.classes := root.classes - {Light, Dark};
      root.classes := root.classes + {effective};
      root.attributes := root.attributes["data-theme" := effective];
      root.attributes := root.attributes["data-theme-preference" := theme];
      UpdateButton(theme);
    }

    /**
     * `createThemeSwitcher`: nothing when a switcher exists or there is no
     * `nav`. The button is updated before it is inserted, so that update
     * finds nothing and the new button shows the moon whatever the preference.
     */
    method CreateSwitcher()
      requires Valid()
      modifies this`switchers, this`icon, this`title
      ensures Valid()
      ensures old(switchers) > 0 || !hasNav ==> switchers == old(switchers) && icon == old(icon) && title == old(title)
      ensures old(switchers) == 0 && hasNav ==> switchers == 1 && icon == "fas fa-moon" && title == None
    {
      if switchers > 0 || !hasNav {
        return;
      }
      var preference := Preference();
      UpdateButton(preference);
      switchers := 1;
      icon := "fas fa-moon";
      title := None;
    }

    /** `initTheme`: applies the stored preference, then creates the switcher. */
    method Init()
      requires Valid()
      modifies root`classes, root`attributes, this`switchers, this`icon, this`title
      ensures Valid()
      ensures root.classes == ThemedClasses(old(root.classes), Preference(), systemDark)
      ensures root.Attribute("data-theme") == Some(Effective(Preference(), systemDark))
      ensures root.attributes == old(root.attributes)["data-theme" := Effective(Preference(), systemDark)]
                                                     ["data-theme-preference" := Preference()]
      ensures old(switchers) > 0 ==>
                switchers == old(switchers) && icon == IconFor(Preference()) && title == Some(TitleFor(Preference()))
      ensures old(switchers) == 0 && hasNav ==> switchers == 1 && icon == "fas fa-moon"
      ensures old(switchers) == 0 && hasNav ==> title == None
      ensures old(switchers) == 0 && !hasNav ==> switchers == 0 && icon == old(icon) && title == old(title)
    {
      ApplyTheme(Preference());
      CreateSwitcher();
    }

    /** `toggleTheme`: stores and applies the next preference, then confirms it with an info toast. */
    method Toggle(toasts: Toast.ToastNotification?)
      requires Valid()
      requires toasts != null ==> toasts.Valid()
      modifies storage`strings, root`classes, root`attributes, this`icon, this`title
      modifies Toast.Present(toasts)`toasts, Toast.Present(toasts)`container, Toast.Present(toasts)`timers
      ensures Valid()
      ensures storage.strings == old(storage.strings)[StorageKey := NextTheme(old(Preference()))]
      ensures Preference() == NextTheme(old(Preference()))
      ensures root.classes == ThemedClasses(old(root.classes), Preference(), systemDark)
      ensures root.Attribute("data-theme-preference") == Some(Preference())
      ensures root.attributes == old(root.attributes)["data-theme" := Effective(Preference(), systemDark)]
                                                     ["data-theme-preference" := Preference()]
      ensures switchers > 0 ==> icon == IconFor(Preference()) && title == Some(TitleFor(Preference()))
      ensures switchers == 0 ==> icon == old(icon) && title == old(title)
      ensures toasts != null ==> toasts.Valid()
      ensures toasts != null ==>
                var id := |old(toasts.toasts)|;
                toasts.timers == old(toasts.timers) + [Toast.Timer(old(toasts.now) + Toast.MountDelayMs, Toast.AddShow(id)),
                                                       Toast.Timer(old(toasts.now) + Toast.KindDefaultMs(Toast.Info), Toast.AutoHide(id))]
      ensures toasts != null ==>
                toasts.toasts == old(toasts.toasts)
                                 + [Toast.Toast(Toast.Info, "Theme Changed", "Switched to " + ThemeName(Preference()) + " theme",
                                                Toast.KindDefaultMs(Toast.Info), old(toasts.now), false, false)]
      ensures toasts != null ==>
                toasts.State() == Toast.WithToast(old(toasts.State()), Toast.Info, "Theme Changed",
                                                  "Switched to " + ThemeName(Preference()) + " theme", 5000)
    {
      var next := NextTheme(Preference());
      storage.SetItem(StorageKey, next);
      ApplyTheme(next);
      if toasts != null {
        var _ := toasts.ShowKind(Toast.Info, "Theme Changed", "Switched to " + ThemeName(next) + " theme", None);
      }
    }

    /** `themeManager.setTheme(theme)`: only the three preferences are stored and applied. */
    method SetTheme(theme: string)
      requires Valid()
      modifies storage`strings, root`classes, root`attributes, this`icon, this`title
      ensures Valid()
      ensures !IsPreference(theme) ==>
                storage.strings == old(storage.strings) && root.classes == old(root.classes)
                && root.attributes == old(root.attributes) && icon == old(icon) && title == old(title)
      ensures IsPreference(theme) ==>
                storage.strings == old(storage.strings)[StorageKey := theme] && Preference() == theme
                && root.classes == ThemedClasses(old(root.classes), theme, systemDark)
                && root.Attribute("data-theme") == Some(Effective(theme, systemDark))
      ensures IsPreference(theme) ==>
                root.attributes == old(root.attributes)["data-theme" := Effective(theme, systemDark)]
                                                       ["data-theme-preference" := theme]
      ensures IsPreference(theme) && switchers > 0 ==> icon == IconFor(theme) && title == Some(TitleFor(theme))
      ensures IsPreference(theme) && switchers == 0 ==> icon == old(icon) && title == old(title)
    {
      if IsPreference(theme) {
        storage.SetItem(StorageKey, theme);
        ApplyTheme(theme);
      }
    }

    /** The system preference changes: only an auto preference is re-applied. */
    method SystemPreferenceChanged(dark: bool)
      requires Valid()
      modifies this`systemDark, root`classes, root`attributes, this`icon, this`title
      ensures Valid() && systemDark == dark
      ensures Preference() == Auto ==> root.classes == ThemedClasses(old(root.classes), Auto, dark)
      ensures Preference() == Auto ==>
                root.attributes == old(root.attributes)["data-theme" := Effective(Auto, dark)]
                                                       ["data-theme-preference" := Auto]
      ensures Preference() == Auto && switchers > 0 ==> icon == IconFor(Auto) && title == Some(TitleFor(Auto))
      ensures Preference() != Auto ==> root.classes == old(root.classes) && root.attributes == old(root.attributes)
      ensures Preference() != Auto || switchers == 0 ==> icon == old(icon) && title == old(title)
    {
      systemDark := dark;
      if Preference() == Auto {
        ApplyTheme(Auto);
      }
    }
  }
}
