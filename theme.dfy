/** The theme preference of js/themeManager.js: whether the dark theme is on
    (the `dark-theme` class on the body) and the value stored under the
    `dark-theme-enabled` key, absent until something writes it. */
module Theme {
  import opened Common

  datatype Theme = Theme(dark: bool, stored: Option<string>)

  /** The stored preference agrees with the theme shown. */
  predicate Consistent(t: Theme) {
    t.stored == Some(if t.dark then "true" else "false")
  }

  /** `enableDarkTheme`: the class is added and "true" stored. */
  function EnableDark(): (t: Theme)
    ensures t.dark && Consistent(t)
  {
    Theme(true, Some("true"))
  }

  /** `enableLightTheme`: the class is removed and "false" stored. */
  function EnableLight(): (t: Theme)
    ensures !t.dark && Consistent(t)
  {
    Theme(false, Some("false"))
  }

  /** `init`: dark when "true" was saved, or when nothing was saved and the system prefers dark. */
  function Init(saved: Option<string>, systemPrefersDark: bool): (t: Theme)
    ensures t.dark <==> saved == Some("true") || (saved.None? && systemPrefersDark)
    ensures Consistent(t)
  {
    if saved == Some("true") || (saved.None? && systemPrefersDark) then EnableDark() else EnableLight()
  }

  /** `toggleTheme`: branches on the class currently on the body. */
  function Toggle(t: Theme): (r: Theme)
    ensures r.dark == !t.dark && Consistent(r)
  {
    if t.dark then EnableLight() else EnableDark()
  }

  /** The `change` listener on the colour-scheme query: only without a stored preference. */
  function SystemChange(t: Theme, matches: bool): (r: Theme)
    ensures t.stored.None? ==> r.dark == matches && Consistent(r)
    ensures t.stored.Some? ==> r == t
  {
    if t.stored.None? then (if matches then EnableDark() else EnableLight()) else t
  }

  /** Toggling twice restores a consistent state. */
  lemma ToggleTwice(t: Theme)
    requires Consistent(t)
    ensures Toggle(Toggle(t)) == t
  {
  }

  /** What can happen after `init`: a click on the toggle button or a system colour-scheme change. */
  datatype Event = Click | SystemSwitch(matches: bool)

  /** The state after the events, in order. */
  function Run(t: Theme, events: seq<Event>): Theme
    decreases |events|
  {
    if events == [] then t
    else
      var prev := Run(t, events[..|events| - 1]);
      match events[|events| - 1]
      case Click => Toggle(prev)
      case SystemSwitch(m) => SystemChange(prev, m)
  }

  /** The number of clicks among the events. */
  function ClickCount(events: seq<Event>): (n: nat)
    ensures n <= |events|
    decreases |events|
  {
    if events == [] then 0
    else ClickCount(events[..|events| - 1]) + (if events[|events| - 1] == Click then 1 else 0)
  }

  /** Every state reachable from a consistent one is consistent, and system changes
      leave it alone: the theme flips once per click and only then. */
  lemma {:induction false} RunConsistent(t: Theme, events: seq<Event>)
    requires Consistent(t)
    ensures Consistent(Run(t, events))
    ensures Run(t, events).dark == (if ClickCount(events) % 2 == 0 then t.dark else !t.dark)
    decreases |events|
  {
    if events != [] {
      RunConsistent(t, events[..|events| - 1]);
    }
  }

  /** After `init`, whatever happens, the stored preference is present and agrees with the
      theme, so a system colour-scheme change never has an effect. */
  lemma SystemChangeAfterInitIgnored(saved: Option<string>, prefers: bool, events: seq<Event>, matches: bool)
    ensures Consistent(Run(Init(saved, prefers), events))
    ensures SystemChange(Run(Init(saved, prefers), events), matches) == Run(Init(saved, prefers), events)
  {
    RunConsistent(Init(saved, prefers), events);
  }

  /** The theme manager with its two pieces of state. */
  class ThemeManager {
    var dark: bool
    var stored: Option<string>

    function State(): Theme
      reads this
    {
      Theme(dark, stored)
    }

    /** `new ThemeManager()`, which runs `init` with what storage holds and the system signal. */
    constructor (saved: Option<string>, systemPrefersDark: bool)
      ensures State() == Init(saved, systemPrefersDark)
    {
      dark := false;
      stored := saved;
      new;
      if saved == Some("true") || (saved.None? && systemPrefersDark) {
        EnableDarkTheme();
      } else {
        EnableLightTheme();
      }
    }

    method EnableDarkTheme()
      modifies this
      ensures State() == EnableDark()
    {
      dark := true;
      stored := Some("true");
    }

    method EnableLightTheme()
      modifies this
      ensures State() == EnableLight()
    {
      dark := false;
      stored := Some("false");
    }

    method ToggleTheme()
      modifies this
      ensures State() == Toggle(old(State()))
    {
      if dark {
        EnableLightTheme();
      } else {
        EnableDarkTheme();
      }
    }

    /** The listener for a system colour-scheme change. */
    method OnSystemChange(matches: bool)
      modifies this
      ensures State() == SystemChange(old(State()), matches)
    {
      if stored.None? {
        if matches {
          EnableDarkTheme();
        } else {
          EnableLightTheme();
        }
      }
    }
  }
}
