/**
 * The secure text field and its embedded button as objects. Every property
 * observer is an explicit setter method; each method is proved to take the
 * field from State() to the FieldSpec function of that state.
 */
module TextField {
  import opened Options
  import opened Cells
  import opened FieldSpec

  /** The embedded toggle button: only its enabled flag, state and wiring are modelled. */
  class PasswordButton {
    var enabled: bool
    var state: ButtonValue
    var action: Action
    var target: object?

    function Value(): Button
      reads this
    {
      Button(enabled, state, action)
    }

    /** A new button carries the toolkit's defaults: enabled, off, not wired. */
    constructor ()
      ensures enabled && state == Off && action == NoAction && target == null
    {
      enabled, state, action, target := true, Off, NoAction, null;
    }
  }

  class SecureTextField {
    var allowPasswordInPlainText: bool
    var displayToggleButton: bool
    var visibility: Visibility
    var visibilityButton: PasswordButton?
    var cell: CellValue
    /** The field's editor is the window's first responder; the toolkit sets it. */
    var focused: bool
    var needsUpdateConstraints: bool
    var needsLayout: bool
    var needsDisplay: bool
    ghost var log: seq<Event>

    /** A present button sends its action to this field. */
    ghost predicate Valid()
      reads this, visibilityButton
    {
      visibilityButton != null ==> visibilityButton.target == this
    }

    ghost function State(): State
      reads this, visibilityButton
    {
      FieldSpec.State(
        allowPasswordInPlainText, displayToggleButton, visibility,
        if visibilityButton == null then None else Some(visibilityButton.Value()),
        cell, focused, needsUpdateConstraints, needsLayout, needsDisplay, log)
    }

    /** Making a field with a frame: the defaults, the toolkit's secure cell, then `setup`. */
    constructor ()
      ensures Valid() && State() == FieldSpec.Setup(InitialState)
    {
      allowPasswordInPlainText, displayToggleButton, visibility := false, true, Secure;
      visibilityButton := null;
      cell := NewCell(Masked);
      focused, needsUpdateConstraints, needsLayout, needsDisplay := false, false, false, false;
      log := [];
      new;
      Setup();
    }

    method SetAllowPasswordInPlainText(v: bool)
      requires Valid()
      modifies this
      ensures Valid() && State() == FieldSpec.SetAllowPasswordInPlainText(old(State()), v)
      ensures visibilityButton != null ==> fresh(visibilityButton)
    {
      allowPasswordInPlainText := v;
      if !allowPasswordInPlainText {
        SetVisibility(Secure);
      }
      ConfigureButtonForVisibility();
      UpdateForPasswordVisibility();
    }

    method SetDisplayToggleButton(v: bool)
      requires Valid()
      modifies this
      ensures Valid() && State() == FieldSpec.SetDisplayToggleButton(old(State()), v)
      ensures visibilityButton == old(visibilityButton)
    {
      displayToggleButton := v;
      UpdateForPasswordVisibility();
    }

    method SetVisibility(v: Visibility)
      requires Valid()
      modifies this
      ensures Valid() && State() == FieldSpec.SetVisibility(old(State()), v)
      ensures visibilityButton == old(visibilityButton)
    {
      visibility := v;
      UpdateForPasswordVisibility();
    }

    /** Assigning isEnabled: the inherited setter stores it in the cell, the observer copies it to the button. */
    method SetEnabled(v: bool)
      requires Valid()
      modifies this`cell, visibilityButton
      ensures Valid() && State() == FieldSpec.SetEnabled(old(State()), v)
    {
      cell := cell.(attrs := cell.attrs.(enabled := v));
      if visibilityButton != null {
        visibilityButton.enabled := cell.attrs.enabled;
      }
    }

    method ConfigureButtonForVisibility()
      requires Valid()
      modifies this`visibilityButton, this`log, this`needsUpdateConstraints
      ensures Valid() && State() == FieldSpec.ConfigureButtonForVisibility(old(State()))
      ensures visibilityButton != null ==> fresh(visibilityButton)
    {
      if visibilityButton != null {
        log := log + [ButtonRemoved];
      }
      visibilityButton := null;

      if allowPasswordInPlainText && displayToggleButton {
        var button := new PasswordButton();
        visibilityButton := button;
        button.action := SendVisibilityChanged;
        button.target := this;
        log := log + [ButtonAdded];
      }
      needsUpdateConstraints := true;
    }

    method Setup()
      requires Valid()
      modifies this
      ensures Valid() && State() == FieldSpec.Setup(old(State()))
    {
      SetVisibility(Secure);
      ConfigureButtonForVisibility();
      UpdateForPasswordVisibility();
    }

    /** The button's action: its state decides the visibility. */
    method VisibilityChanged(sender: PasswordButton)
      requires Valid()
      modifies this
      ensures Valid() && State() == FieldSpec.VisibilityChanged(old(State()), sender.state)
      ensures visibilityButton == old(visibilityButton)
    {
      SetVisibility(if sender.state == On then PlainText else Secure);
    }

    /** A user click: the toolkit's button ignores it when disabled, else flips its state and sends its action. */
    method Click()
      requires Valid()
      modifies this, visibilityButton
      ensures Valid() && State() == FieldSpec.Click(old(State()))
    {
      if visibilityButton != null && visibilityButton.enabled {
        visibilityButton.state := if visibilityButton.state == On then Off else On;
        VisibilityChanged(visibilityButton);
      }
    }

    /** The branch of the swap that picks the class of the new cell. */
    method NewCellForVisibility() returns (newCell: CellValue)
      ensures newCell == NewCell(SelectCellKind(allowPasswordInPlainText, displayToggleButton, visibility))
    {
      if displayToggleButton {
        if allowPasswordInPlainText {
          newCell := NewCell(if visibility == PlainText then PlainPadded else MaskedPadded);
        } else {
          newCell := NewCell(Masked);
        }
      } else {
        if visibility == PlainText {
          newCell := NewCell(Plain);
        } else {
          newCell := NewCell(Masked);
        }
      }
    }

    /** Abandon the edit session without committing it. */
    method AbortEditing()
      modifies this`focused, this`log
      ensures !focused && log == old(log) + [EditingAborted]
    {
      focused := false;
      log := log + [EditingAborted];
    }

    /**
     * The cell swap. The text is read before editing is abandoned; the new
     * cell is chosen, given the old cell's attributes one by one and the old
     * cell's text, then the saved text is written last. (The source installs
     * the new cell object before filling it in; nothing observes the field in
     * between, so here the filled-in value is installed.)
     */
    method UpdateForPasswordVisibility()
      requires Valid()
      modifies this`cell, this`focused, this`log, this`needsUpdateConstraints, this`needsLayout, this`needsDisplay
      ensures Valid() && State() == FieldSpec.UpdateForPasswordVisibility(old(State()))
    {
      ghost var before := State();
      var str := cell.stringValue;

      if focused {
        AbortEditing();
      }

      var oldCell := cell;
      var newCell := NewCellForVisibility();
      log := log + [CellInstalled(newCell.kind)];
      assert log == before.log + SwapEvents(before.focused, newCell.kind);

      var attrs := CopyAttributes(oldCell.attrs, newCell.attrs);
      newCell := newCell.(attrs := attrs);
      newCell := newCell.(stringValue := oldCell.stringValue);

      newCell := newCell.(stringValue := str);
      assert newCell == CellValue(newCell.kind, oldCell.attrs, oldCell.stringValue);
      cell := newCell;

      needsUpdateConstraints := true;
      needsLayout := true;
      needsDisplay := true;
    }
  }
}
