# DSFSecureTextField, modelled in Dafny

DSFSecureTextField is an AppKit password field. It can optionally show its
password in plain text and can embed an "eye" button that toggles between the
two. The field has no drawing code of its own. Each time its policy or its
visibility changes, it throws away its text-field cell and installs a new one:

- a masking (secure) cell or a plain cell;
- padded on the trailing side for the button, or unpadded.

It then copies the old cell's cosmetic attributes and its text onto the new
cell.

This project models that core:

- **Observers.** The property observers of `allowPasswordInPlainText`,
  `displayToggleButton`, `visibility` and `isEnabled`.
- **Private operations.** `configureButtonForVisibility`, `setup`,
  `visibilityChanged` and `updateForPasswordVisibility`, the cell swap.
- **Frame adjustment.** `__tweak`/`__rightPadding`, which the padded cells
  apply to every frame they edit, select or draw in.
- **The four cell classes.** They appear as a tag on the cell
  (`Cells.CellKind`).

Modules:

- `Options`: the `Option` datatype.
- `Geometry`: points, sizes and rectangles over `real`, layout direction, and
  the 32-point trailing padding (`Tweak`).
- `Cells`: the cell kinds and the cell's attribute record. It also holds the
  frame each kind hands to the toolkit (`ContentFrame`) and the
  attribute-by-attribute copy (`CopyAttributes`).
- `FieldSpec`: the whole field as a value `State`, one function per observer
  chain, and sequences of calls (`Run`). It also holds the lemmas about the
  field:
  - the policy invariant over any call sequence;
  - text and attributes surviving any call sequence;
  - click round trips;
  - the behaviours of the code that a reader might not expect (see below).
- `TextField`: the field and its button as classes. Each setter is a method.
  Each method is proved to move `State()` to the matching `FieldSpec` function
  of the state before the call.

The field's `isEnabled` is kept in its active cell, as NSControl does, so it is
the cell attribute `enabled`.

"The field's editor is the window's first responder" is a boolean (`focused`).

The effects that cannot be seen as state are recorded in a ghost log, in the
order they happen (`FieldSpec.Event`):

- editing is abandoned;
- a cell of a given kind is installed;
- the button is removed;
- the button is added.

Where a reader would expect clamping, a no-op check or a synchronised button,
the model follows what the code does:

- **No clamping.** Assigning `visibility` neither clamps PlainText to Secure
  when plain text is disallowed nor skips an unchanged value. It always rebuilds
  the cell. `FieldSpec.VisibilitySetterBypassesPolicy` shows a policy breach when
  the host asks for PlainText. `FieldSpec.RepeatedSecureSwapsTwice` shows that
  assigning Secure twice installs two cells. The policy invariant is therefore
  proved for call sequences that assign PlainText only while plain text is
  allowed (`FieldSpec.PolicyRespected`); the host's show and hide on an allowed
  field is such a sequence (`FieldSpec.ShowHideKeepsInvariant`).
- **No button update on display change.** Assigning `displayToggleButton` runs
  the cell swap only. It does not add or remove the button
  (`FieldSpec.DisplaySetterLeavesButtonStale`).
- **Visibility alone decides without a button.** With `displayToggleButton`
  false, the cell is chosen by `visibility` alone. `allowPasswordInPlainText`
  plays no part (`FieldSpec.SelectCellKind`).
- **A new button is not synced.** A new button starts enabled and off, as a
  fresh NSButton does, whatever the field's `isEnabled` and `visibility` are
  (`FieldSpec.NewButtonIgnoresFieldEnabled`,
  `FieldSpec.NewButtonIgnoresVisibility`).

## Model

| member | source | states |
|---|---|---|
| Geometry.Tweak | Sources/DSFSecureTextField/DSFSecureTextField.swift:231-237 | The width shrinks by the 32-point padding while y and height stay. x moves exactly in right-to-left layout. The leading edge stays fixed and the trailing edge moves inward by the padding in either direction. |
| Cells.ContentFrame | Sources/DSFSecureTextField/DSFSecureTextField.swift:239-268 | The two padded cell kinds hand the toolkit a frame narrowed by the padding on the trailing side. The two plain kinds hand the frame unchanged. The leading edge, y and height are kept in every case. |
| Cells.CopyAttributes | Sources/DSFSecureTextField/DSFSecureTextField.swift:202-217 | Copying the attributes one by one, in the source's order and with its repeated assignments, leaves the new cell with exactly the old cell's values of the 14 copied attributes. None of the new cell's own defaults for those survive. |
| FieldSpec.SelectCellKind | Sources/DSFSecureTextField/DSFSecureTextField.swift:170-190 | The chosen cell is padded exactly when the button is displayed and plain text is allowed. It masks exactly when the visibility is secure, or when the button is displayed but plain text is disallowed. |
| FieldSpec.UpdateForPasswordVisibility | Sources/DSFSecureTextField/DSFSecureTextField.swift:159-226 | The swap installs the selected kind and keeps each of the 14 copied attributes and the text. It leaves the policy flags, visibility and button alone and ends with the field unfocused. Editing is aborted first only if the field was focused. Constraints, layout and display are marked dirty. |
| FieldSpec.ConfigureButtonForVisibility | Sources/DSFSecureTextField/DSFSecureTextField.swift:92-140 | A button exists afterwards exactly when plain text is allowed and the button is displayed. It is a new button wired to send visibilityChanged. A previous button is removed first. Beyond the constraints flag and the log, nothing else changes. |
| FieldSpec.SetAllowPasswordInPlainText | Sources/DSFSecureTextField/DSFSecureTextField.swift:39-47 | Clearing the flag forces Secure and leaves no button. A masked cell is installed twice, with the button removal between the two. Setting it keeps the visibility and adds a wired button when the button is displayed. The cell keeps its attributes and text, and constraints, layout and display are marked dirty. The policy invariant holds afterwards from any state. |
| FieldSpec.SetDisplayToggleButton | Sources/DSFSecureTextField/DSFSecureTextField.swift:50-54 | The flag takes the new value and the cell is re-selected with its attributes and text. The button is left exactly as it was. Constraints, layout and display are marked dirty. The invariant is preserved. |
| FieldSpec.SetVisibility | Sources/DSFSecureTextField/DSFSecureTextField.swift:57-61 | The visibility takes the value as given, without clamping. The cell is re-selected with its attributes and text, one swap is logged, and constraints, layout and display are marked dirty. The invariant is preserved when the value is Secure or plain text is allowed. |
| FieldSpec.SetEnabled | Sources/DSFSecureTextField/DSFSecureTextField.swift:63-67 | The field's enabled flag takes the value. A present button gets the same value and nothing else changes. The invariant is preserved. |
| FieldSpec.VisibilityChanged | Sources/DSFSecureTextField/DSFSecureTextField.swift:155-157 | The sender's on state yields PlainText and any other state yields Secure. The policy, button, attributes and text are untouched. The invariant is preserved while a button exists. |
| FieldSpec.Setup | Sources/DSFSecureTextField/DSFSecureTextField.swift:142-150 | The visibility becomes Secure and a button exists exactly when the policy asks for one. The log holds the swap, the button events, then the second swap. Constraints, layout and display are marked dirty. The invariant holds afterwards from any state. |
| FieldSpec.Click | Sources/DSFSecureTextField/DSFSecureTextField.swift:155-157 | Without a button, or with a disabled one, a click changes nothing. Otherwise the button's state flips and the visibility follows the new state. Attributes and text are kept and the invariant is preserved. |
| FieldSpec.BeginEditing | Sources/DSFSecureTextField/DSFSecureTextField.swift:162 | The user focusing the field makes it the first responder and changes nothing else. |
| FieldSpec.StepPreservesInvariant | Sources/DSFSecureTextField/DSFSecureTextField.swift:39-67 | Every single call preserves the policy invariant, except a PlainText assignment made while plain text is disallowed. |
| FieldSpec.RunPreservesInvariant | Sources/DSFSecureTextField/DSFSecureTextField.swift:39-67 | Any sequence of setter calls, window moves, clicks and focus changes that assigns PlainText only while plain text is allowed keeps the invariant. Under the invariant a button implies plain text is allowed and is wired, no plain text allowed implies Secure, and the cell is the selected one. |
| FieldSpec.InvariantAtEveryPoint | Sources/DSFSecureTextField/DSFSecureTextField.swift:39-67 | The invariant holds after every prefix of such a sequence, not only at its end. |
| FieldSpec.PolicyRespectedPrefix | Sources/DSFSecureTextField/DSFSecureTextField.swift:57-61 | A sequence that assigns PlainText only while plain text is allowed does so in each of its prefixes. |
| FieldSpec.ShowHideKeepsInvariant | Sources/DSFSecureTextField/DSFSecureTextField.swift:57-61 | On a consistent field that allows plain text, assigning PlainText and then Secure respects the policy and keeps the invariant. |
| FieldSpec.RunPreservesContent | Sources/DSFSecureTextField/DSFSecureTextField.swift:202-220 | No call sequence ever changes the text. None of the 14 copied attributes other than `enabled` ever changes. |
| FieldSpec.VisibilitySetterBypassesPolicy | Sources/DSFSecureTextField/DSFSecureTextField.swift:57-61 | With plain text disallowed and the button hidden, assigning PlainText still installs an unmasked plain cell. |
| FieldSpec.DisplaySetterLeavesButtonStale | Sources/DSFSecureTextField/DSFSecureTextField.swift:50-54 | Hiding the button through `displayToggleButton` leaves the existing button in place. |
| FieldSpec.NewButtonIgnoresFieldEnabled | Sources/DSFSecureTextField/DSFSecureTextField.swift:97-103 | A button made while the field is disabled is enabled. |
| FieldSpec.NewButtonIgnoresVisibility | Sources/DSFSecureTextField/DSFSecureTextField.swift:97-103 | A button made while plain text is showing starts in the off state. |
| FieldSpec.ClickTwiceRestores | Sources/DSFSecureTextField/DSFSecureTextField.swift:155-157 | Start with an enabled button whose state matches the visibility. Two clicks restore the button, the visibility and the whole cell (kind, attributes, text). |
| FieldSpec.ToggleRoundTrip | Sources/DSFSecureTextField/DSFSecureTextField.swift:159-220 | Secure, then PlainText, then Secure gives back exactly the original cell, text and attributes included, under the same policy. |
| FieldSpec.VisibilitySetterAlwaysSwaps | Sources/DSFSecureTextField/DSFSecureTextField.swift:57-61 | Every assignment to `visibility` installs exactly one new cell, whether or not the value changed. |
| FieldSpec.RepeatedSecureSwapsTwice | Sources/DSFSecureTextField/DSFSecureTextField.swift:57-61 | Assigning Secure twice installs two cells, although the second yields the same cell value as the first. |
| TextField.PasswordButton.constructor | Sources/DSFSecureTextField/DSFSecureTextField.swift:98 | A new button is enabled and off, and has no action or target yet. |
| TextField.SecureTextField.constructor | Sources/DSFSecureTextField/DSFSecureTextField.swift:69-72 | A field made with a frame starts from the defaults and a secure cell, then runs `setup`. |
| TextField.SecureTextField.SetAllowPasswordInPlainText | Sources/DSFSecureTextField/DSFSecureTextField.swift:39-47 | The observer chain moves the field's state as FieldSpec.SetAllowPasswordInPlainText does. A present button is newly made. |
| TextField.SecureTextField.SetDisplayToggleButton | Sources/DSFSecureTextField/DSFSecureTextField.swift:50-54 | The state moves as FieldSpec.SetDisplayToggleButton does, and the same button object stays. |
| TextField.SecureTextField.SetVisibility | Sources/DSFSecureTextField/DSFSecureTextField.swift:57-61 | The state moves as FieldSpec.SetVisibility does, and the same button object stays. |
| TextField.SecureTextField.SetEnabled | Sources/DSFSecureTextField/DSFSecureTextField.swift:63-67 | The state moves as FieldSpec.SetEnabled does. Only the cell and the button object are written. |
| TextField.SecureTextField.ConfigureButtonForVisibility | Sources/DSFSecureTextField/DSFSecureTextField.swift:92-140 | The state moves as FieldSpec.ConfigureButtonForVisibility does. A present button is new and targets this field. |
| TextField.SecureTextField.Setup | Sources/DSFSecureTextField/DSFSecureTextField.swift:142-150 | The state moves as FieldSpec.Setup does. |
| TextField.SecureTextField.VisibilityChanged | Sources/DSFSecureTextField/DSFSecureTextField.swift:155-157 | The state moves as FieldSpec.VisibilityChanged does with the sender's state. |
| TextField.SecureTextField.Click | Sources/DSFSecureTextField/DSFSecureTextField.swift:155-157 | The state moves as FieldSpec.Click does: the button's state flips, then its action runs. |
| TextField.SecureTextField.NewCellForVisibility | Sources/DSFSecureTextField/DSFSecureTextField.swift:170-190 | The nested branches make a fresh cell of the kind SelectCellKind picks. |
| TextField.SecureTextField.AbortEditing | Sources/DSFSecureTextField/DSFSecureTextField.swift:162-165 | Editing is abandoned: the field is no longer focused and the abort is logged. |
| TextField.SecureTextField.UpdateForPasswordVisibility | Sources/DSFSecureTextField/DSFSecureTextField.swift:159-226 | The swap moves the state as FieldSpec.UpdateForPasswordVisibility does. The text is read before editing is abandoned and written back last. |

## Left out

- The drawing of the padded cells is not modelled. This covers drawInterior's
  background fill and the toolkit's text masking, because it is pixel output.
  Only the frame the cells hand on (`Cells.ContentFrame`) is modelled.
- The embedded button's drawing, cursor changes, tracking areas, tooltip and
  bezier paths (DSFPasswordButton.swift) are not modelled, because they are
  presentation only.
- Click: the toolkit's own click handling of the button is an assumption of the
  model. It ignores disabled buttons, flips the state and sends the action.
  None of that is code of this component.
- The Auto Layout constraints are not modelled. This covers the button's aspect
  ratio, the centring, the trailing inset of 4 and the height of 24, because
  layout solving is the toolkit's. Only the needsUpdateConstraints flag is kept.
- `visibilityButton?.needsLayout`, `removeFromSuperview`/`addSubview` and
  `window?.recalculateKeyViewLoop()` are each left out or logged as one event.
  They are view-hierarchy and window effects outside the field's state.
- `translatesAutoresizingMaskIntoConstraints = false` in `setup` is not
  modelled, because it is a layout setting.
- Initialisation from a coder (`init?(coder:)`) and `viewDidMoveToWindow` are
  not modelled as archiving or windows. Archived properties are not modelled.
  Moving to a window is the `MoveToWindow` step, which runs `setup`.
- `abortEditing` is modelled only as losing focus. The toolkit's handling of the
  edit session (discarding uncommitted editor text) is not modelled.
- The case where the field has no window and no editor is not modelled. There
  `firstResponder == currentEditor()` compares nil with nil and calls
  `abortEditing` with nothing to abort. The model treats it as not focused and
  logs nothing.
- The force cast of the old cell to NSTextFieldCell and the `?? ""` fallback
  are not modelled. They cannot fail here, because the field's cell is always
  one of the four text-field cells.
- The toolkit's identity of cell objects is not modelled. The source installs
  the new cell before it fills it in. The model installs the filled-in cell
  value, because nothing observes the field in between.
- The formatter is not modelled. Writing stringValue through a cell with a
  formatter may reformat the text; the model treats the formatter as an opaque
  reference and the text as copied verbatim.
- The attributes of a freshly made AppKit cell are not modelled. They are
  represented by one fixed record (`Cells.DefaultAttributes`). Each of the 14
  attributes in it is overwritten by the copy.
- The model's cell holds only the 14 attributes the swap copies, plus its text.
  Any other state of the old cell is not modelled: text colour, line-break
  mode and wrapping, layout direction, and the target and action NSControl
  keeps in its cell. The source does not copy these; each swap resets them to
  the fresh cell's defaults.
- The layout direction of a cell is a parameter of `Geometry.Tweak` and
  `Cells.ContentFrame`. The model does not derive it from the view.
- Interface Builder attributes (`@IBDesignable`, `@IBInspectable`) and
  Objective-C names are not modelled. They are declaration metadata.
- The demo view controller is not modelled. It is a host application, not the
  component.
