/**
  The two colour themes of the page, the theme chosen from the hour at start-up,
  the toggle between them, and the icon written on the toggle button.
*/
module Themes {
  datatype Theme = Dark | Light

  /** The crescent moon shown on the toggle button. */
  const Moon: string := "\U{1F319}"
  /** The sun (with emoji presentation selector) shown on the toggle button. */
  const Sun: string := "\U{2600}\U{FE0F}"

  /** `setThemeByTime`: the dark theme during the day, from 6:00 up to but not including 18:00; light otherwise. */
  function ThemeForHour(hour: int): (t: Theme)
    ensures t.Dark? <==> 6 <= hour < 18
    ensures t.Light? <==> hour < 6 || hour >= 18
  {
    if hour >= 6 && hour < 18 then Dark else Light
  }

  /** `toggleTheme`: the other theme. */
  function Toggled(t: Theme): (r: Theme)
    ensures r != t
  {
    if t == Dark then Light else Dark
  }

  /** Toggling twice returns to the theme one started from. */
  lemma ToggleTwice(t: Theme)
    ensures Toggled(Toggled(t)) == t
  {
  }

  /** The icon `setThemeByTime` writes: the moon for the dark theme, the sun for the light one. */
  function Icon(t: Theme): (i: string)
    ensures i == Moon <==> t.Dark?
    ensures i == Sun <==> t.Light?
  {
    assert |Moon| == 1 && |Sun| == 2;
    if t == Dark then Moon else Sun
  }

  /** The icon shows which theme is on: two themes with the same icon are the same theme. */
  lemma IconShowsTheme(a: Theme, b: Theme)
    requires Icon(a) == Icon(b)
    ensures a == b
  {
  }

  /** The icon `toggleTheme` writes as the code stands: the sun for the dark theme, the moon for the light one. */
  function ToggleIconAsWritten(t: Theme): (i: string)
    ensures i == Sun <==> t.Dark?
    ensures i == Moon <==> t.Light?
  {
    assert |Moon| == 1 && |Sun| == 2;
    if t == Dark then Sun else Moon
  }

  /** The two code paths disagree: for every theme the toggle writes the icon start-up does not. */
  lemma ToggleIconDisagrees(t: Theme)
    ensures ToggleIconAsWritten(t) != Icon(t)
  {
  }

  /** Starting in the dark theme and toggling twice shows the sun, though start-up showed the moon. */
  lemma ToggleIconAfterTwoToggles(hour: int)
    requires 6 <= hour < 18
    ensures Toggled(Toggled(ThemeForHour(hour))) == ThemeForHour(hour)
    ensures ToggleIconAsWritten(Toggled(Toggled(ThemeForHour(hour)))) != Icon(ThemeForHour(hour))
  {
  }
}
