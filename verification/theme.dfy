/** The editor theme switch shared by every page with a theme toggle. */
module Theme {
  const Dark: string := "vs-dark"
  const Light: string := "vs-light"

  /** `toggleTheme`: dark becomes light, and anything else becomes dark. */
  function Toggle(theme: string): (r: string)
    ensures r == Dark || r == Light
    ensures r == Light <==> theme == Dark
  {
    if theme == Dark then Light else Dark
  }

  /** Toggling twice returns to the starting theme when it is one of the two. */
  lemma ToggleTwice(theme: string)
    requires theme == Dark || theme == Light
    ensures Toggle(Toggle(theme)) == theme
    ensures Toggle(theme) != theme
  {
  }
}
