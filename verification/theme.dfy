/** The theme toggle's click listener, on the `data-theme` attribute of the document element. */
module Theme {

  const Dark: string := "dark"
  const Light: string := "light"

  /** `dark` becomes `light`; any other value, missing or unknown, becomes `dark`. */
  function Toggle(theme: string): (next: string)
    ensures next == Dark || next == Light
    ensures next != theme
    ensures next == Light <==> theme == Dark
  {
    if theme == Dark then Light else Dark
  }

  /**
    Toggling twice restores `dark` and `light`; any other starting value
    ends at `light`.
   */
  lemma ToggleTwice(theme: string)
    ensures theme == Dark || theme == Light ==> Toggle(Toggle(theme)) == theme
    ensures theme != Dark && theme != Light ==> Toggle(Toggle(theme)) == Light
  {
  }
}
