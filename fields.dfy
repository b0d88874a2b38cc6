/**
 * The text fields placed on a certificate page: their record, the editing
 * operations on a page's field list, how a field's text and drawing position are
 * resolved for one spreadsheet row, the canvas hit test, and the small toolbar
 * adjustments (style toggles, font-size buttons, preview navigation).
 *
 * Text widths come from the canvas (`measureText`) and are an input here: a
 * `Measure` gives the width of a text drawn in a CSS font.
 */
module Fields {
  import opened Wrappers
  import opened JsText
  import opened Cells

  datatype Field = Field(
    id: int,
    x: real,
    y: real,                  // the text baseline
    columnIndex: int,
    customText: string,
    fontSize: int,
    color: string,
    fontFamily: string,
    fontWeight: string,       // "normal" or "bold"
    fontStyle: string,        // "normal" or "italic"
    textDecoration: string,   // "none" or "underline"
    textAlign: string,        // "left", "center" or "right"
    fieldType: string)        // "data" or "static"

  /** The CSS font the canvas is set to, `${style} ${weight} ${size}px ${family}`, kept
   *  as its four parts. */
  datatype FontSpec = FontSpec(style: string, weight: string, size: int, family: string)

  /** `ctx.measureText(text).width` once `ctx.font` is set to `font`. */
  type Measure = (FontSpec, string) -> real

  /** `s || fallback` for a string. */
  function OrElse(s: string, fallback: string): (r: string)
    ensures r != "" <==> s != "" || fallback != ""
    ensures s != "" ==> r == s
  {
    if s != "" then s else fallback
  }

  /** The font the canvas is given before measuring and drawing a field: the style,
   *  weight and family default to "normal", "normal" and "Arial" when empty. */
  function Font(f: Field): (spec: FontSpec)
    ensures spec.size == f.fontSize
    ensures spec.style != "" && spec.weight != "" && spec.family != ""
    ensures f.fontWeight != "" ==> spec.weight == f.fontWeight
    ensures f.fontStyle != "" ==> spec.style == f.fontStyle
    ensures f.fontFamily != "" ==> spec.family == f.fontFamily
  {
    FontSpec(OrElse(f.fontStyle, "normal"), OrElse(f.fontWeight, "normal"), f.fontSize, OrElse(f.fontFamily, "Arial"))
  }

  // ---------------------------------------------------------------------------
  // Alignment and printed text

  datatype Alignment = Left | Center | Right

  /** `field.textAlign || 'left'`, where anything but "center" and "right" draws from the left. */
  function AlignmentOf(f: Field): Alignment {
    var a := OrElse(f.textAlign, "left");
    if a == "center" then Center else if a == "right" then Right else Left
  }

  /** The x at which the text starts: the field's x is the left end, the middle or
   *  the right end of the drawn run, by alignment. */
  function DrawX(f: Field, width: real): (left: real)
    ensures AlignmentOf(f) == Left ==> left == f.x
    ensures AlignmentOf(f) == Center ==> left + width / 2.0 == f.x
    ensures AlignmentOf(f) == Right ==> left + width == f.x
  {
    match AlignmentOf(f)
    case Left => f.x
    case Center => f.x - width / 2.0
    case Right => f.x - width
  }

  /** Whatever the alignment, a run of non-negative width covers the field's anchor x. */
  lemma AnchorWithinRun(f: Field, width: real)
    requires width >= 0.0
    ensures DrawX(f, width) <= f.x <= DrawX(f, width) + width
  {
  }

  /** The text printed for a field on a row (`field.customText || rowData[field.columnIndex] || ''`). */
  function PrintedText(f: Field, row: seq<Cell>): (t: string)
    ensures f.customText != "" ==> t == f.customText
  {
    if f.customText != "" then f.customText
    else
      var c := CellAt(row, f.columnIndex);
      if Truthy(c) then ToJsString(c) else ""
  }

  /** A field prints nothing exactly when it has no custom text and its cell is
   *  falsy; a missing column never prints as "undefined". */
  lemma PrintedTextEmpty(f: Field, row: seq<Cell>)
    ensures PrintedText(f, row) == "" <==> f.customText == "" && !Truthy(CellAt(row, f.columnIndex))
    ensures f.customText == "" && !(0 <= f.columnIndex < |row|) ==> PrintedText(f, row) == ""
  {
  }

  /** With no custom text, a field prints its cell as `String(cell)` whenever that cell is truthy. */
  lemma PrintedTextFromCell(f: Field, row: seq<Cell>)
    requires f.customText == "" && Truthy(CellAt(row, f.columnIndex))
    ensures PrintedText(f, row) == ToJsString(CellAt(row, f.columnIndex)) != ""
  {
  }

  /** One `fillText` call (and, when underlined, the line under it). */
  datatype TextRun = TextRun(text: string, x: real, y: real, font: FontSpec, color: string, underlined: bool)

  function RunOf(f: Field, row: seq<Cell>, measure: Measure): (run: TextRun)
    ensures run.text == PrintedText(f, row) && run.y == f.y && run.font == Font(f)
    ensures run.x == DrawX(f, measure(Font(f), run.text))
    ensures run.underlined <==> f.textDecoration == "underline"
  {
    var text := PrintedText(f, row);
    TextRun(text, DrawX(f, measure(Font(f), text)), f.y, Font(f), f.color, f.textDecoration == "underline")
  }

  /** drawFieldsOnCanvas: the fields' runs in list order, which is paint order. */
  function DrawFields(fs: seq<Field>, row: seq<Cell>, measure: Measure): (runs: seq<TextRun>)
    ensures |runs| == |fs|
    ensures forall i :: 0 <= i < |fs| ==> runs[i] == RunOf(fs[i], row, measure)
  {
    seq(|fs|, i requires 0 <= i < |fs| => RunOf(fs[i], row, measure))
  }

  // ---------------------------------------------------------------------------
  // Editing a page's field list

  /** addFieldFromModal: a new field centred on the canvas, with default styling. */
  function NewField(now: int, canvasWidth: int, canvasHeight: int, kind: string,
                    columnIndex: int, staticText: string, align: string): (f: Field)
    ensures f.id == now && f.fontSize == 32 && f.textAlign == align && f.fieldType == kind
    ensures f.x == canvasWidth as real / 2.0 && f.y == canvasHeight as real / 2.0
    ensures f.fontWeight == "normal" && f.fontStyle == "normal" && f.textDecoration == "none"
    ensures f.customText == (if kind == "static" then staticText else "")
    ensures f.columnIndex == (if kind == "data" then columnIndex else 0)
    ensures f.color == "#000000" && f.fontFamily == "Arial"
  {
    Field(now, canvasWidth as real / 2.0, canvasHeight as real / 2.0,
          if kind == "data" then columnIndex else 0,
          if kind == "static" then staticText else "",
          32, "#000000", "Arial", "normal", "normal", "none", align, kind)
  }

  /** A data field added from the modal prints its chosen column of each row; a
   *  static one prints its text whatever the row. */
  lemma NewFieldPrints(now: int, w: int, h: int, kind: string, col: int, text: string, align: string, row: seq<Cell>)
    ensures var f := NewField(now, w, h, kind, col, text, align);
      (kind == "data" ==> PrintedText(f, row) == (if Truthy(CellAt(row, col)) then ToJsString(CellAt(row, col)) else ""))
      && (kind == "static" && text != "" ==> PrintedText(f, row) == text)
  {
  }

  /** The properties an update may set (`{ ...field, ...updates }`): never the id. */
  datatype Patch = Patch(
    x: Option<real>, y: Option<real>, fontSize: Option<int>, color: Option<string>,
    fontFamily: Option<string>, fontWeight: Option<string>, fontStyle: Option<string>,
    textDecoration: Option<string>, textAlign: Option<string>)

  const NoChange: Patch := Patch(None, None, None, None, None, None, None, None, None)

  function Apply(f: Field, p: Patch): (g: Field)
    ensures g.id == f.id && g.columnIndex == f.columnIndex && g.customText == f.customText
    ensures g.fieldType == f.fieldType
    ensures p == NoChange ==> g == f
    ensures p.x.Some? ==> g.x == p.x.value
    ensures p.x.None? ==> g.x == f.x
    ensures p.y.Some? ==> g.y == p.y.value
    ensures p.y.None? ==> g.y == f.y
    ensures p.fontSize.Some? ==> g.fontSize == p.fontSize.value
    ensures p.fontSize.None? ==> g.fontSize == f.fontSize
    ensures p.color.Some? ==> g.color == p.color.value
    ensures p.color.None? ==> g.color == f.color
    ensures p.fontFamily.Some? ==> g.fontFamily == p.fontFamily.value
    ensures p.fontFamily.None? ==> g.fontFamily == f.fontFamily
    ensures p.fontWeight.Some? ==> g.fontWeight == p.fontWeight.value
    ensures p.fontWeight.None? ==> g.fontWeight == f.fontWeight
    ensures p.fontStyle.Some? ==> g.fontStyle == p.fontStyle.value
    ensures p.fontStyle.None? ==> g.fontStyle == f.fontStyle
    ensures p.textDecoration.Some? ==> g.textDecoration == p.textDecoration.value
    ensures p.textDecoration.None? ==> g.textDecoration == f.textDecoration
    ensures p.textAlign.Some? ==> g.textAlign == p.textAlign.value
    ensures p.textAlign.None? ==> g.textAlign == f.textAlign
  {
    f.(x := p.x.GetOr(f.x), y := p.y.GetOr(f.y), fontSize := p.fontSize.GetOr(f.fontSize),
       color := p.color.GetOr(f.color), fontFamily := p.fontFamily.GetOr(f.fontFamily),
       fontWeight := p.fontWeight.GetOr(f.fontWeight), fontStyle := p.fontStyle.GetOr(f.fontStyle),
       textDecoration := p.textDecoration.GetOr(f.textDecoration), textAlign := p.textAlign.GetOr(f.textAlign))
  }

  /** deleteField on a list: `fields.filter(f => f.id !== id)`. */
  function DeleteField(fs: seq<Field>, id: int): (r: seq<Field>)
    ensures |r| <= |fs|
    ensures forall f :: f in r <==> f in fs && f.id != id
  {
    if fs == [] then []
    else (if fs[0].id != id then [fs[0]] else []) + DeleteField(fs[1..], id)
  }

  /** Deleting keeps the other fields in their order: it distributes over concatenation. */
  lemma {:induction false} DeleteFieldAppend(a: seq<Field>, b: seq<Field>, id: int)
    ensures DeleteField(a + b, id) == DeleteField(a, id) + DeleteField(b, id)
  {
    if a == [] {
      assert a + b == b;
    } else {
      assert (a + b)[1..] == a[1..] + b;
      DeleteFieldAppend(a[1..], b, id);
    }
  }

  /** Deleting an id nobody carries changes nothing. */
  lemma {:induction false} DeleteAbsentField(fs: seq<Field>, id: int)
    requires forall i :: 0 <= i < |fs| ==> fs[i].id != id
    ensures DeleteField(fs, id) == fs
  {
    if fs != [] {
      DeleteAbsentField(fs[1..], id);
      assert [fs[0]] + fs[1..] == fs;
    }
  }

  /** updateField on a list: `fields.map(f => f.id === id ? { ...f, ...updates } : f)`. */
  function UpdateField(fs: seq<Field>, id: int, p: Patch): (r: seq<Field>)
    ensures |r| == |fs|
    ensures forall i :: 0 <= i < |fs| ==> r[i] == (if fs[i].id == id then Apply(fs[i], p) else fs[i])
  {
    seq(|fs|, i requires 0 <= i < |fs| => if fs[i].id == id then Apply(fs[i], p) else fs[i])
  }

  function Ids(fs: seq<Field>): (ids: seq<int>)
    ensures |ids| == |fs| && forall i :: 0 <= i < |fs| ==> ids[i] == fs[i].id
  {
    seq(|fs|, i requires 0 <= i < |fs| => fs[i].id)
  }

  /** An update keeps every field in its place under its id. */
  lemma UpdateKeepsIds(fs: seq<Field>, id: int, p: Patch)
    ensures Ids(UpdateField(fs, id, p)) == Ids(fs)
  {
  }

  /** Updating a field and then deleting it is the same as deleting it. */
  lemma {:induction false} DeleteAfterUpdate(fs: seq<Field>, id: int, p: Patch)
    ensures DeleteField(UpdateField(fs, id, p), id) == DeleteField(fs, id)
  {
    if fs != [] {
      var u := UpdateField(fs, id, p);
      assert u[1..] == UpdateField(fs[1..], id, p);
      DeleteAfterUpdate(fs[1..], id, p);
    }
  }

  // ---------------------------------------------------------------------------
  // Hit test (handleCanvasMouseDown)

  /** The text the editor measures for a field: its custom text, else the first
   *  row's cell as `String(cell)`, else "Campo" when no rows are loaded. */
  function HitText(f: Field, data: seq<seq<Cell>>): (t: string)
    ensures f.customText != "" ==> t == f.customText
    ensures f.customText == "" && data == [] ==> t == "Campo"
  {
    if f.customText != "" then f.customText
    else if |data| > 0 then ToJsString(CellAt(data[0], f.columnIndex))
    else "Campo"
  }

  /** The point lies in the field's text box `[left, left + width] × [y − fontSize, y]`. */
  predicate InTextBox(f: Field, width: real, mx: real, my: real) {
    var left := DrawX(f, width);
    left <= mx <= left + width && f.y - f.fontSize as real <= my <= f.y
  }

  predicate Hits(f: Field, data: seq<seq<Cell>>, measure: Measure, mx: real, my: real) {
    InTextBox(f, measure(Font(f), HitText(f, data)), mx, my)
  }

  /** Field `i` is under the point and no field painted after it is. */
  predicate TopmostAt(fs: seq<Field>, data: seq<seq<Cell>>, measure: Measure, mx: real, my: real, i: nat) {
    && i < |fs| && Hits(fs[i], data, measure, mx, my)
    && forall j :: i < j < |fs| ==> !Hits(fs[j], data, measure, mx, my)
  }

  /** No field is under the point. */
  predicate NoHit(fs: seq<Field>, data: seq<seq<Cell>>, measure: Measure, mx: real, my: real) {
    forall j :: 0 <= j < |fs| ==> !Hits(fs[j], data, measure, mx, my)
  }

  /** The scan from the last field to the first: the field painted last (topmost)
   *  among those under the point, or none. */
  method TopmostHit(fs: seq<Field>, data: seq<seq<Cell>>, measure: Measure, mx: real, my: real)
    returns (hit: Option<nat>)
    ensures hit.Some? ==> TopmostAt(fs, data, measure, mx, my, hit.value)
    ensures hit.None? <==> NoHit(fs, data, measure, mx, my)
  {
    var i := |fs|;
    while i > 0
      invariant 0 <= i <= |fs|
      invariant forall j :: i <= j < |fs| ==> !Hits(fs[j], data, measure, mx, my)
    {
      i := i - 1;
      var field := fs[i];
      var text := HitText(field, data);
      var textWidth := measure(Font(field), text);
      var textHeight := field.fontSize as real;
      var textX := DrawX(field, textWidth);
      if textX <= mx <= textX + textWidth && field.y - textHeight <= my <= field.y {
        return Some(i);
      }
    }
    return None;
  }

  // ---------------------------------------------------------------------------
  // Toolbar adjustments

  function ToggleBold(weight: string): string {
    if weight == "bold" then "normal" else "bold"
  }

  function ToggleItalic(style: string): string {
    if style == "italic" then "normal" else "italic"
  }

  function ToggleUnderline(decoration: string): string {
    if decoration == "underline" then "none" else "underline"
  }

  /** Each toggle undoes itself on the values it produces; from any other value the
   *  first press lands on one of them. */
  lemma TogglesUndoThemselves(w: string, s: string, d: string)
    ensures (w == "normal" || w == "bold") ==> ToggleBold(ToggleBold(w)) == w
    ensures (s == "normal" || s == "italic") ==> ToggleItalic(ToggleItalic(s)) == s
    ensures (d == "none" || d == "underline") ==> ToggleUnderline(ToggleUnderline(d)) == d
    ensures ToggleBold(ToggleBold(ToggleBold(w))) == ToggleBold(w)
    ensures ToggleItalic(ToggleItalic(ToggleItalic(s))) == ToggleItalic(s)
    ensures ToggleUnderline(ToggleUnderline(ToggleUnderline(d))) == ToggleUnderline(d)
  {
  }

  /** The − button: two pixels smaller, never below 8. */
  function SmallerFont(size: int): (r: int)
    ensures r >= 8 && r >= size - 2
    ensures size >= 10 ==> r == size - 2
  {
    if size - 2 > 8 then size - 2 else 8
  }

  /** The + button: two pixels larger, never above 200. */
  function LargerFont(size: int): (r: int)
    ensures r <= 200 && r <= size + 2
    ensures size <= 198 ==> r == size + 2
  {
    if size + 2 < 200 then size + 2 else 200
  }

  /** The size box: `parseInt(value) || 12`, where `None` is a value that does not parse. */
  function FontSizeFromInput(parsed: Option<int>): (r: int)
    ensures r != 0
    ensures parsed.Some? && parsed.value != 0 ==> r == parsed.value
    ensures !(parsed.Some? && parsed.value != 0) ==> r == 12
  {
    match parsed
    case Some(n) => if n != 0 then n else 12
    case None => 12
  }

  /** The two buttons keep a size inside [8, 200]. */
  lemma FontButtonsKeepRange(size: int)
    requires 8 <= size <= 200
    ensures 8 <= SmallerFont(size) <= 200 && 8 <= LargerFont(size) <= 200
  {
  }

  /** The previous-certificate button. */
  function PreviousPreview(index: int): (r: int)
    ensures r >= 0 && r >= index - 1
    ensures index >= 1 ==> r == index - 1
    ensures index < 1 ==> r == 0
  {
    if index - 1 > 0 then index - 1 else 0
  }

  /** The next-certificate button, with `count` loaded rows. */
  function NextPreview(index: int, count: int): (r: int)
    ensures r <= count - 1 && r <= index + 1
    ensures index + 1 <= count - 1 ==> r == index + 1
    ensures index + 1 > count - 1 ==> r == count - 1
  {
    if index + 1 < count - 1 then index + 1 else count - 1
  }

  /** With at least one row, both buttons keep the preview index on a row. */
  lemma PreviewStaysOnARow(index: int, count: int)
    requires count >= 1 && 0 <= index < count
    ensures 0 <= PreviousPreview(index) < count && 0 <= NextPreview(index, count) < count
  {
  }
}
