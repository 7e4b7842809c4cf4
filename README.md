# Digital incident map: grid cells and pin registry

A model, in Dafny, of the logic inside the single-page map tool `app.py`:
an emergency-response map image on which users place circular "pins"
(ambulances, patient transport, foot patrols, other units), name them, and
read off each pin's coarse grid cell ("C3") for radio dispatch.

Three pieces of the page are modelled and proved:

- **Grid mapping** (`grid.dfy`, module `Grid`): a pixel position on a
  `w` × `h` image is named by one of 8 columns `A`..`H` and 4 rows `1`..`4`,
  row 1 at the top. Both indices are truncated toward zero and clamped, so
  every position, even one off the image, gets a valid label. Coordinates are
  exact reals.
- **Pin synchronisation** (`pin_registry.dfy`, module `PinRegistry`): on
  every run the page rebuilds its pin list from the canvas's object list,
  which carries no identity. Only circles become pins. A pin's centre is
  `left + radius`, `top + radius`, with a missing radius taken as 8 and a
  missing `left` or `top` as 0. A missing or empty fill becomes black. A pin
  keeps the id and name of the old pin at the same position. Each pin past
  the old list's end gets the next id in turn. The session state is the class
  `Registry` with fields `pins` and `nextId`. Its invariant `Valid()` says that
  ids are distinct, at least 1 and below `nextId`. The "clear all pins" button
  resets that state.
- **Colour-to-type lookup** (`pin_colors.dfy`, module `PinColors`): the first
  declared pin type whose hex code starts the pin's colour, ignoring case, or
  `"Unbekannt"`.

`wrappers.dfy` holds an `Option` type for dictionary keys that may be missing.

## Model

| member | source | states |
|---|---|---|
| `Grid.Trunc` | app.py:39-40 | the integer conversion truncates toward zero: for `t >= 0` it is the floor, for `t < 0` the least integer not below `t`, never positive |
| `Grid.Clamp` | app.py:42-43 | `max(0, min(i, hi))` lies in `0..hi`, is `i` when `i` is in range, 0 below and `hi` above |
| `Grid.CellIndex` | app.py:39-43 | the clamped band index is always below the number of bands, for any coordinate; its argument `Scaled` is `v / extent * cells` as at app.py:39-40 |
| `Grid.ColIndex` | app.py:39-42 | the column index is always a valid index into `A`..`H` |
| `Grid.RowIndex` | app.py:40-43 | the row index is always a valid index into rows 1..4 |
| `Grid.DigitText` | app.py:45 | the text of a one-digit number is the single digit character standing for it |
| `Grid.CellLabel` | app.py:45 | a label is two characters: the column's own letter `GridCols[c]` (the `c`-th after `A`), then the digit of its row number `GridRows[r]` (the `r`-th after `1`) |
| `Grid.XyToGrid` | app.py:37-45 | for every position, including positions off the image, the label is a column letter `A`..`H` followed by a row digit `1`..`4` |
| `Grid.XyToGridInImage` | app.py:37-45 | on the image the label's letter is the `floor(8x/w)`-th after `A` and its digit the `floor(4y/h)`-th after `1`; e.g. `(400, 200)` on 800×400 is `E3` |
| `Grid.CellLabelInjective` | app.py:15-16 | distinct cells have distinct labels, so the label loses nothing of the cell |
| `Grid.CellIndexInside` | app.py:39-43 | for `0 <= v < extent` the index is `floor(cells * v / extent)`: no clamping happens on the image |
| `Grid.CellIndexBeyond` | app.py:42-43 | a coordinate at or past the far edge clamps to the last column H or row 4 |
| `Grid.CellIndexBefore` | app.py:42-43 | a negative coordinate clamps to the first column A or row 1 |
| `Grid.CellIndexBand` | app.py:39-43 | band `k` holds exactly the coordinates in `[k·extent/cells, (k+1)·extent/cells)`, with no lower limit for the first band and no upper limit for the last (if and only if) |
| `Grid.CellIndexMonotone` | app.py:39-43 | a larger coordinate never gets a smaller index |
| `Grid.OriginIsA1` | app.py:37-45 | `(0, 0)` is cell `A1` on every image |
| `Grid.FarCornerIsH4` | app.py:37-45 | every point within one cell of the bottom right corner, or past it, is `H4`; in particular `(w-ε, h-δ)` for `0 < ε <= w/8` and `0 < δ <= h/4` |
| `Grid.XyToGridMonotone` | app.py:37-45 | moving right never decreases the column letter and moving down never decreases the row digit, so row 1 is the top |
| `PinColors.Lower` | app.py:151 | lower-casing keeps the length, leaves no capital letter, keeps every other character, and moves each character by 0 or by the distance from `A` to `a` |
| `PinColors.LowerIdempotent` | app.py:151 | lower-casing an already lower-cased colour changes nothing |
| `PinColors.LowerChar` | app.py:151 | a lowered character is never an ASCII capital, a non-capital is unchanged, and the character moves by 0 or 32 |
| `PinColors.FirstMatch` | app.py:150-153 | the found entry's hex code (tested by `StartsWithIgnoringCase`: the lower-cased colour, cut to the code's length, equals the lower-cased code) starts the colour ignoring case and no earlier entry's does; no entry is found exactly when none matches |
| `PinColors.ColorToType` | app.py:149-153 | the result is `"Unbekannt"` exactly when no declared hex code starts the colour; otherwise it is the key of the first declared type, in declaration order, whose hex code does |
| `PinColors.DeclaredHexCodesDiffer` | app.py:18-23 | the four declared hex codes differ pairwise even ignoring case |
| `PinColors.ColorOfTypeIsThatType` | app.py:18-23 | a colour starting with a declared type's hex code (any case, any suffix) is reported as that very type |
| `PinColors.DeclaredColorRoundTrip` | app.py:64-65 | the fill colour of each sidebar pin type maps back to that type |
| `PinColors.ColorToTypeIgnoresCase` | app.py:151 | a colour and its lower-cased form have the same type |
| `PinColors.ColorWithoutHashIsUnknown` | app.py:149-151 | every colour that does not start with `#`, the empty colour included, is of type `"Unbekannt"` |
| `PinRegistry.FillOf` | app.py:124 | a pin's colour is never empty: the object's fill when present and non-empty, black otherwise |
| `PinRegistry.PinOf` | app.py:121-125 | an observed pin has id 0 and no name; its colour is the object's fill, black when missing or empty; its centre is `(left + r, top + r)`, with a missing radius counting as 8 and a missing `left` or `top` as 0 |
| `PinRegistry.Observed` | app.py:115-125 | exactly one pin per circle, never more than there are objects, each with id 0, no name and a non-empty colour |
| `PinRegistry.Circles` | app.py:117-119 | the kept objects are circles (`IsCircle`: `type` present and equal to `"circle"`, so a missing `type` is not a circle) taken from the input, no more of them than objects |
| `PinRegistry.CirclesAppend` | app.py:117-119 | keeping the circles commutes with concatenation, so the pins keep the objects' relative order |
| `PinRegistry.CirclesCount` | app.py:117-119 | each circle is kept exactly as often as it occurs; every other object is dropped |
| `PinRegistry.ObservedSnoc` | app.py:117-125 | one more object appends its pin exactly when it is a circle |
| `PinRegistry.ObservedPins` | app.py:121-125 | the pin at position `i` has centre `(left + r, top + r)` of the circle at position `i`, with `r` 8 when missing and `left`, `top` 0 when missing, and that circle's fill (black when missing or empty) |
| `PinRegistry.Registry.constructor` | app.py:55-58 | a new session has no pins and next id 1, and satisfies the id invariant |
| `PinRegistry.Registry.Clear` | app.py:67-69 | afterwards there are no pins and the next id is 1 whatever the state before, so clearing twice is clearing once |
| `PinRegistry.Registry.Sync` | app.py:115-136 | one pin per circle in order, placed and coloured as observed; below the old length id and name come from the old pin at that index; beyond it ids are consecutive from the old next id with no name; the next id grows by the number of added pins and never decreases; old pins past the new length are dropped; distinct ids below the next id stay so |

## Left out

- Page layout, sidebar, title, captions, `st.rerun` and the deletion of the canvas widget state (app.py:51-76, 87-104, 138-195) are calls into the page framework.
- Loading the map image and the drawing canvas itself: the image size is the pair of positive integers `w`, `h` and the canvas result is the object list given to `Sync` (app.py:81-82, 93-109).
- The table display and the JSON and CSV export buttons (app.py:162-193) are library rendering and serialisation; the file has no importer, so there is no round trip to state.
- Renaming pins through the text inputs (app.py:167-169) is a widget side effect.
- The colour lookup's result is unused in the page (app.py:149-153); it is modelled as the standalone function `PinColors.ColorToType`.
- Coordinates are exact reals, not IEEE doubles, so rounding in `x / w * 8` and `round(p.x, 1)` is not modelled.
- `PinColors.Lower` lowers ASCII letters only, whereas `str.lower` also lowers other letters; the hex codes are ASCII and no non-ASCII character lowers onto `#`, a digit or `a`..`f`, so the lookup's result is the same.
- `PinRegistry.CanvasObject` models a key as present or absent; a key present with a non-numeric or null value, which makes `float()` raise, is not modelled, and neither is a non-string fill.
- A pin's colour is always a string in the model, so the `p.color or ""` guard for a missing colour (app.py:151) is only reflected by `PinColors.ColorWithoutHashIsUnknown`, which covers the empty colour it produces.
- Pins are values in a sequence; the source mutates fresh `Pin` objects of the new list in place, which no other list shares, so nothing observable is lost.
- Configurable padding, y-inversion, grid size or label format, deletion policies, import from JSON and creation timestamps do not exist in app.py and are not modelled.
