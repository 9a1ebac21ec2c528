/**
 The two start/pause buttons as the timer logic sees them: a label text, a set of
 CSS classes and a disabled flag, rewritten by `updateButton` and
 `updateButtonColor`.
 */
module ButtonStyle {

  /** The colour classes `updateButtonColor` strips before adding a new one. */
  const Palette: set<string> :=
    {"bg-green-500", "bg-blue-500", "bg-orange-500", "bg-red-500",
     "bg-yellow-500", "bg-purple-500", "bg-pink-500"}

  /** Colour of a button that reads "Start". */
  const StartColor: string := "bg-green-500"

  /** Colour of a button that reads "Pause"; note it is not in `Palette`. */
  const PauseColor: string := "bg-yellow-600"

  datatype Button = Button(text: string, classes: set<string>, disabled: bool)

  /** Removes every palette class, then adds `color`. */
  function UpdateButtonColor(classes: set<string>, color: string): (r: set<string>)
    ensures color in r
    ensures forall c :: c in r && c != color ==> c in classes && c !in Palette
    ensures forall c :: c in classes && c !in Palette ==> c in r
  {
    (classes - Palette) + {color}
  }

  /** Sets the label when `newText` is non-empty and recolours when `color` is
      non-empty; an empty string leaves that field as it was. */
  function UpdateButton(b: Button, newText: string, color: string): (r: Button)
    ensures r.disabled == b.disabled
    ensures newText != "" ==> r.text == newText
    ensures newText == "" ==> r.text == b.text
    ensures color == "" ==> r.classes == b.classes
    ensures color != "" ==> r.classes == UpdateButtonColor(b.classes, color)
  {
    Button(if newText != "" then newText else b.text,
           if color != "" then UpdateButtonColor(b.classes, color) else b.classes,
           b.disabled)
  }

  /** Recolouring twice with palette colours leaves only the last colour's
      effect: the earlier colour is stripped again. */
  lemma LastPaletteColorWins(classes: set<string>, first: string, second: string)
    requires first in Palette
    ensures UpdateButtonColor(UpdateButtonColor(classes, first), second)
         == UpdateButtonColor(classes, second)
  {
  }

  /** A colour outside the palette is never stripped by a later recolouring. */
  lemma ForeignColorSurvives(classes: set<string>, color: string, later: string)
    requires color in classes && color !in Palette
    ensures color in UpdateButtonColor(classes, later)
  {
  }

  /** Recolouring is idempotent. */
  lemma UpdateButtonColorIdempotent(classes: set<string>, color: string)
    ensures UpdateButtonColor(UpdateButtonColor(classes, color), color)
         == UpdateButtonColor(classes, color)
  {
  }

  /** After a "Start" recolouring exactly one palette class remains, the
      green one. */
  lemma StartColorIsOnlyPaletteClass(classes: set<string>)
    ensures UpdateButtonColor(classes, StartColor) * Palette == {StartColor}
  {
  }

  /** The pause colour accumulates: once a button has paused, a later "Start"
      recolouring leaves both the green and the yellow-600 class on it. */
  lemma PauseColorLingers(b: Button)
    ensures var paused := UpdateButton(b, "Pause", PauseColor);
            var started := UpdateButton(paused, "Start", StartColor);
            started.text == "Start" && PauseColor in started.classes && StartColor in started.classes
  {
  }
}
