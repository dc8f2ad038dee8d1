/**
 The light/dark theme flag of the paged catalogue: the value applied at start-up
 from the stored preference, and the toggle.
 */
module Theme {
  import opened Resources

  const Light := "light"
  const Dark := "dark"

  /**
   `localStorage.getItem('theme') || 'light'`: the stored value when there is a
   non-empty one, "light" otherwise.
   */
  function InitialTheme(saved: Option<string>): (t: string)
    ensures t != ""
    ensures saved == None ==> t == Light
    ensures saved.Some? && saved.value != "" ==> t == saved.value
    ensures saved == Some("") ==> t == Light
    ensures t == Light || saved == Some(t)
  {
    if saved.Some? && saved.value != "" then saved.value else Light
  }

  /** `toggleTheme`: "dark" turns into "light", anything else into "dark". */
  function Toggle(current: string): (t: string)
    ensures t == Light || t == Dark
    ensures t != current
    ensures t == Light <==> current == Dark
  {
    if current == Dark then Light else Dark
  }

  /** Toggling twice returns to the starting theme once it is light or dark. */
  lemma ToggleTwice(t: string)
    requires t == Light || t == Dark
    ensures Toggle(Toggle(t)) == t
  {
  }

  /** The toggled theme is written to storage, so the next start-up applies it again. */
  lemma ToggledThemeSurvivesReload(t: string)
    ensures InitialTheme(Some(Toggle(t))) == Toggle(t)
  {
  }
}
