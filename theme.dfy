/**
 * The light/dark theme switch: one flag on the page body, its icon, and the
 * string it persists so that the next visit starts in the same mode.
 */
module Theme {
  import opened Wrappers

  /** The toggle button's icon: a sun in dark mode, a crescent moon in light mode. */
  datatype Glyph = Sun | Moon {
    function Text(): string
    {
      match this
      case Sun => "\U{2600}\U{FE0F}"
      case Moon => "\U{1F319}"
    }
  }

  /** The string stored under the key "theme" for a mode. */
  function Encode(dark: bool): string
  {
    if dark then "dark" else "light"
  }

  /** `localStorage.getItem("theme") || "light"`: a missing or empty entry reads as "light". */
  function SavedMode(stored: Option<string>): string
  {
    if stored.None? || stored.value == "" then "light" else stored.value
  }

  /** The page starts in dark mode only when the saved mode is exactly "dark". */
  predicate StartsDark(stored: Option<string>)
  {
    SavedMode(stored) == "dark"
  }

  /** Exactly a stored "dark" starts the page dark; a missing, empty or unknown entry starts it light. */
  lemma StartsDarkIff(stored: Option<string>)
    ensures StartsDark(stored) <==> stored == Some("dark")
    ensures stored.None? || stored == Some("") ==> SavedMode(stored) == "light"
  {
  }

  /** Reloading after a toggle restores the mode the toggle left. */
  lemma ReloadRestoresMode(dark: bool)
    ensures StartsDark(Some(Encode(dark))) == dark
  {
  }

  /** The welcome message announcing the new mode. */
  function Announcement(dark: bool): string
  {
    if dark then "Dark mode activated! \U{1F319}" else "Light mode activated! \U{2600}\U{FE0F}"
  }

  /** The mode of the page body, the icon shown, and the persisted entry. */
  class ThemeController {
    var dark: bool
    var icon: Glyph
    var stored: Option<string>

    /**
     * `initializeThemeToggle`: dark exactly when the saved mode is "dark", in
     * which case the icon becomes the sun; otherwise the icon the markup has.
     */
    constructor (saved: Option<string>, markupIcon: Glyph)
      ensures dark <==> saved == Some("dark")
      ensures icon == if dark then Sun else markupIcon
      ensures stored == saved
    {
      StartsDarkIff(saved);
      dark := StartsDark(saved);
      icon := if StartsDark(saved) then Sun else markupIcon;
      stored := saved;
    }

    /** The click handler: flip the mode, set the icon, persist the mode and announce it. */
    method Toggle() returns (message: string)
      modifies this
      ensures dark == !old(dark)
      ensures icon == if dark then Sun else Moon
      ensures stored == Some(Encode(dark)) && StartsDark(stored) == dark
      ensures message == Announcement(dark)
    {
      dark := !dark;
      if dark {
        icon := Sun;
        stored := Some("dark");
        message := "Dark mode activated! \U{1F319}";
      } else {
        icon := Moon;
        stored := Some("light");
        message := "Light mode activated! \U{2600}\U{FE0F}";
      }
      ReloadRestoresMode(dark);
    }
  }
}
