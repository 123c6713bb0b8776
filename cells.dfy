/**
 * The text cells a secure text field can install. A cell is the field's
 * rendering and editing strategy; the field replaces it with a new cell
 * whenever visibility or policy changes. Cells are values here: a class tag,
 * the cosmetic attributes and the text.
 */
module Cells {
  import opened Options
  import opened Geometry

  /** The four cell classes the swap chooses between. */
  datatype CellKind =
    | Masked        // the toolkit's secure text cell
    | MaskedPadded  // secure cell that keeps the trailing padding free
    | Plain         // the toolkit's plain text cell
    | PlainPadded   // plain cell that keeps the trailing padding free

  /** Does a cell of this kind draw mask glyphs instead of the text? */
  predicate IsMasked(k: CellKind) { k == Masked || k == MaskedPadded }

  /** Does a cell of this kind reserve the trailing padding for the button? */
  predicate IsPadded(k: CellKind) { k == MaskedPadded || k == PlainPadded }

  datatype BackgroundStyle = Normal | Emphasized | Raised | Lowered
  datatype BezelStyle = SquareBezel | RoundedBezel
  datatype TextAlignment = Left | Right | Center | Justified | Natural
  datatype Font = Font(name: string, pointSize: real)
  /** A formatter is shared by reference: only its identity is modelled. */
  datatype FormatterRef = FormatterRef(id: nat)

  /** The cosmetic attributes the swap copies from the old cell to the new one. */
  datatype CellAttributes = CellAttributes(
    editable: bool,
    enabled: bool,
    selectable: bool,
    placeholder: Option<string>,
    scrollable: bool,
    continuous: bool,
    font: Option<Font>,
    bordered: bool,
    bezeled: bool,
    backgroundStyle: BackgroundStyle,
    bezelStyle: BezelStyle,
    drawsBackground: bool,
    alignment: TextAlignment,
    formatter: Option<FormatterRef>)

  /** A cell as a value: its class, its cosmetic attributes and its text. */
  datatype CellValue = CellValue(kind: CellKind, attrs: CellAttributes, stringValue: string)

  /**
   * The attributes a freshly made cell carries in this model. The toolkit's own
   * defaults are not part of the model; the swap overwrites every one of them.
   */
  const DefaultAttributes: CellAttributes :=
    CellAttributes(true, true, true, None, true, false, None, true, true,
                   Normal, SquareBezel, true, Natural, None)

  /**
   * The frame a cell of kind k passes on to the toolkit when it edits, selects
   * or draws its interior in `rect`: the padded kinds apply Tweak, the others
   * pass the frame through.
   */
  function ContentFrame(k: CellKind, dir: LayoutDirection, rect: Rect): (r: Rect)
    ensures LeadingEdge(r, dir) == LeadingEdge(rect, dir)
    ensures r.size.width == rect.size.width - (if IsPadded(k) then RightPadding else 0.0)
    ensures r.origin.y == rect.origin.y && r.size.height == rect.size.height
  {
    if IsPadded(k) then Tweak(dir, rect) else rect
  }

  /** A freshly made cell of the given class. */
  function NewCell(kind: CellKind): CellValue {
    CellValue(kind, DefaultAttributes, "")
  }

  /**
   * The swap's attribute copy, one assignment per attribute in the order the
   * swap writes them (editable and alignment are written twice). Whatever the
   * new cell started with, every attribute ends up equal to the old cell's.
   */
  method CopyAttributes(from: CellAttributes, onto: CellAttributes) returns (r: CellAttributes)
    ensures r == from
  {
    r := onto;
    r := r.(editable := from.editable);
    r := r.(enabled := from.enabled);
    r := r.(editable := from.editable);
    r := r.(selectable := from.selectable);
    r := r.(placeholder := from.placeholder);
    r := r.(scrollable := from.scrollable);
    r := r.(continuous := from.continuous);
    r := r.(font := from.font);
    r := r.(bordered := from.bordered);
    r := r.(bezeled := from.bezeled);
    r := r.(backgroundStyle := from.backgroundStyle);
    r := r.(bezelStyle := from.bezelStyle);
    r := r.(drawsBackground := from.drawsBackground);
    r := r.(alignment := from.alignment);
    r := r.(formatter := from.formatter);
    r := r.(alignment := from.alignment);
  }
}
