/**
 * The certificate generator's editor state and its event handlers. The component
 * keeps its state in React hooks; here that state is the fields of one `Studio`
 * object, and each handler is a method that changes exactly the hooks it sets.
 * Everything a handler computes is one of the functions of `Sheet`, `Fields`,
 * `FileNames` and `Certificates`, whose properties are proved there.
 */
module Studio {
  import opened Wrappers
  import opened Cells
  import opened Sheet
  import opened Fields
  import opened Certificates
  import opened FileNames

  /** `fields.find(f => f.id === id)`: the first field carrying `id`. */
  function FindField(fs: seq<Field>, id: int): (r: Option<Field>)
    ensures r.Some? ==> r.value in fs && r.value.id == id
    ensures r.None? <==> forall i :: 0 <= i < |fs| ==> fs[i].id != id
  {
    if fs == [] then None
    else if fs[0].id == id then Some(fs[0])
    else FindField(fs[1..], id)
  }

  /** The first match of `find` comes before every other field with that id. */
  lemma {:induction false} FindFieldIsFirst(fs: seq<Field>, id: int, i: nat)
    requires i < |fs| && fs[i].id == id
    ensures FindField(fs, id).Some?
    ensures exists k :: 0 <= k <= i && FindField(fs, id) == Some(fs[k]) && forall j :: 0 <= j < k ==> fs[j].id != id
  {
    if fs[0].id != id {
      FindFieldIsFirst(fs[1..], id, i - 1);
      var k :| 0 <= k <= i - 1 && FindField(fs[1..], id) == Some(fs[1..][k])
                 && forall j :: 0 <= j < k ==> fs[1..][j].id != id;
      assert FindField(fs, id) == Some(fs[k + 1]);
      assert forall j :: 0 <= j < k + 1 ==> fs[j].id != id by {
        forall j | 0 <= j < k + 1
          ensures fs[j].id != id
        {
          if j > 0 {
            assert fs[j] == fs[1..][j - 1];
          }
        }
      }
    }
  }

  /** The controls of the floating toolbar over the selected field. */
  datatype ToolbarControl =
    | BoldButton | ItalicButton | UnderlineButton
    | AlignButton(align: string)          // "left", "center" or "right"
    | FontSelect(family: string)
    | SmallerButton | LargerButton
    | SizeInput(parsed: Option<int>)      // `parseInt` of the box's text; None when it does not parse
    | ColorInput(color: string)

  /** The update each control sends for the selected field `f`. */
  function ToolbarPatch(c: ToolbarControl, f: Field): (p: Patch)
    ensures c.BoldButton? ==> p == NoChange.(fontWeight := Some(ToggleBold(f.fontWeight)))
    ensures c.SmallerButton? ==> p == NoChange.(fontSize := Some(SmallerFont(f.fontSize)))
    ensures c.LargerButton? ==> p == NoChange.(fontSize := Some(LargerFont(f.fontSize)))
    ensures c.ItalicButton? ==> p == NoChange.(fontStyle := Some(ToggleItalic(f.fontStyle)))
    ensures c.UnderlineButton? ==> p == NoChange.(textDecoration := Some(ToggleUnderline(f.textDecoration)))
    ensures c.AlignButton? ==> p == NoChange.(textAlign := Some(c.align))
    ensures c.FontSelect? ==> p == NoChange.(fontFamily := Some(c.family))
    ensures c.SizeInput? ==> p == NoChange.(fontSize := Some(FontSizeFromInput(c.parsed)))
    ensures c.ColorInput? ==> p == NoChange.(color := Some(c.color))
    ensures p.x.None? && p.y.None?
  {
    match c
    case BoldButton => NoChange.(fontWeight := Some(ToggleBold(f.fontWeight)))
    case ItalicButton => NoChange.(fontStyle := Some(ToggleItalic(f.fontStyle)))
    case UnderlineButton => NoChange.(textDecoration := Some(ToggleUnderline(f.textDecoration)))
    case AlignButton(a) => NoChange.(textAlign := Some(a))
    case FontSelect(family) => NoChange.(fontFamily := Some(family))
    case SmallerButton => NoChange.(fontSize := Some(SmallerFont(f.fontSize)))
    case LargerButton => NoChange.(fontSize := Some(LargerFont(f.fontSize)))
    case SizeInput(parsed) => NoChange.(fontSize := Some(FontSizeFromInput(parsed)))
    case ColorInput(color) => NoChange.(color := Some(color))
  }

  /** The toolbar never moves a field: only its styling changes. */
  lemma ToolbarKeepsPosition(fs: seq<Field>, id: int, c: ToolbarControl, f: Field)
    ensures forall i :: 0 <= i < |fs| ==>
      UpdateField(fs, id, ToolbarPatch(c, f))[i].x == fs[i].x && UpdateField(fs, id, ToolbarPatch(c, f))[i].y == fs[i].y
  {
  }

  /** Pressing bold, italic or underline twice on a field whose style is one of the
   *  two values the button produces gives back the field as it was. */
  lemma ToggleButtonTwice(f: Field, c: ToolbarControl)
    requires c.BoldButton? || c.ItalicButton? || c.UnderlineButton?
    requires c.BoldButton? ==> f.fontWeight == "normal" || f.fontWeight == "bold"
    requires c.ItalicButton? ==> f.fontStyle == "normal" || f.fontStyle == "italic"
    requires c.UnderlineButton? ==> f.textDecoration == "none" || f.textDecoration == "underline"
    ensures var g := Apply(f, ToolbarPatch(c, f)); g != f && Apply(g, ToolbarPatch(c, g)) == f
  {
    TogglesUndoThemselves(f.fontWeight, f.fontStyle, f.textDecoration);
  }

  /** The update a drag sends: the field's new top-left is the pointer less the grab offset. */
  function DragPatch(mx: real, my: real, offset: (real, real)): (p: Patch)
    ensures p.x == Some(mx - offset.0) && p.y == Some(my - offset.1)
    ensures p.(x := None, y := None) == NoChange
  {
    NoChange.(x := Some(mx - offset.0), y := Some(my - offset.1))
  }

  /** Grabbing a field at (gx, gy) and moving the pointer to (mx, my) moves the field
   *  by exactly the pointer's displacement, and leaves its styling alone. */
  lemma DragFollowsPointer(f: Field, gx: real, gy: real, mx: real, my: real)
    ensures var g := Apply(f, DragPatch(mx, my, (gx - f.x, gy - f.y)));
      && g.x == f.x + (mx - gx) && g.y == f.y + (my - gy)
      && g == f.(x := g.x, y := g.y)
  {
  }

  /** Which alert or notice a handler ends with. */
  datatype Notice =
    | Quiet
    | EmptySheetAlert | WrongFormatAlert | ParticipantsLoaded(count: nat)
    | PdfLoaded | PdfError | ImageLoaded
    | FieldAdded | FieldDeleted
    | Generated(count: nat) | GenerationFailed

  class Studio {
    var backgroundImages: seq<PageImage>
    var backgroundImage: Option<string>
    var currentPageIndex: int
    var canvasWidth: int
    var canvasHeight: int
    var excelHeaders: seq<Cell>
    var excelData: seq<seq<Cell>>
    var fields: seq<Field>          // page 1 (front)
    var fieldsPage2: seq<Field>     // page 2 (back)
    var selectedFieldId: Option<int>
    var draggedField: Option<int>
    var dragOffset: (real, real)
    var previewIndex: int
    var isGenerating: bool
    var generationProgress: nat
    var showAddFieldModal: bool
    var newFieldType: string
    var newFieldColumnIndex: int
    var newFieldStaticText: string
    var newFieldAlign: string
    var notice: Notice

    /** The hooks' initial values. */
    constructor ()
      ensures backgroundImages == [] && backgroundImage == None && currentPageIndex == 0
      ensures canvasWidth == 2000 && canvasHeight == 1414
      ensures excelHeaders == [] && excelData == [] && fields == [] && fieldsPage2 == []
      ensures selectedFieldId == None && draggedField == None && dragOffset == (0.0, 0.0)
      ensures previewIndex == 0 && !isGenerating && generationProgress == 0
      ensures !showAddFieldModal && newFieldType == "data" && newFieldColumnIndex == 0
      ensures newFieldStaticText == "" && newFieldAlign == "left" && notice == Quiet
    {
      backgroundImages, backgroundImage, currentPageIndex := [], None, 0;
      canvasWidth, canvasHeight := 2000, 1414;
      excelHeaders, excelData, fields, fieldsPage2 := [], [], [], [];
      selectedFieldId, draggedField, dragOffset := None, None, (0.0, 0.0);
      previewIndex, isGenerating, generationProgress := 0, false, 0;
      showAddFieldModal, newFieldType, newFieldColumnIndex := false, "data", 0;
      newFieldStaticText, newFieldAlign, notice := "", "left", Quiet;
    }

    /** getCurrentFields: page 1's list when the first page is shown, page 2's otherwise. */
    function CurrentFields(): seq<Field>
      reads this`currentPageIndex, this`fields, this`fieldsPage2
    {
      if currentPageIndex == 0 then fields else fieldsPage2
    }

    /** The list of the page not being edited. */
    function OtherFields(): seq<Field>
      reads this`currentPageIndex, this`fields, this`fieldsPage2
    {
      if currentPageIndex == 0 then fieldsPage2 else fields
    }

    /** setCurrentFields: replaces the shown page's list and leaves the other page's alone. */
    method SetCurrentFields(fs: seq<Field>)
      modifies this`fields, this`fieldsPage2
      ensures CurrentFields() == fs && OtherFields() == old(OtherFields())
    {
      if currentPageIndex == 0 {
        fields := fs;
      } else {
        fieldsPage2 := fs;
      }
    }

    /** processSheet on one worksheet: the participants and headers change only when
     *  the sheet is accepted. */
    method LoadSheet(sheet: seq<seq<Cell>>)
      modifies this`excelHeaders, this`excelData, this`notice
      ensures ProcessSheet(sheet).Loaded? ==>
        excelHeaders == sheet[0] && excelData == DataRows(sheet[1..]) && notice == ParticipantsLoaded(|excelData|)
      ensures !ProcessSheet(sheet).Loaded? ==> excelHeaders == old(excelHeaders) && excelData == old(excelData)
      ensures ProcessSheet(sheet).EmptySheet? ==> notice == EmptySheetAlert
      ensures ProcessSheet(sheet).WrongFormat? ==> notice == WrongFormatAlert
    {
      match ProcessSheet(sheet)
      case EmptySheet =>
        notice := EmptySheetAlert;
      case WrongFormat =>
        notice := WrongFormatAlert;
      case Loaded(headers, rows) =>
        excelHeaders := headers;
        excelData := rows;
        notice := ParticipantsLoaded(|rows|);
    }

    /** handleImageUpload for a PDF: the first page sets the canvas size and becomes
     *  the background; a PDF without pages fails on reading its first page. */
    method LoadPdfBackground(numPages: nat, rasterize: Rasterizer)
      modifies this`canvasWidth, this`canvasHeight, this`backgroundImage, this`backgroundImages
      modifies this`currentPageIndex, this`notice
      ensures numPages == 0 ==> notice == PdfError && unchanged(this`canvasWidth, this`canvasHeight)
      ensures numPages == 0 ==> unchanged(this`backgroundImage, this`backgroundImages, this`currentPageIndex)
      ensures numPages > 0 ==>
        && |backgroundImages| == (if numPages < 2 then 1 else 2)
        && (forall k :: 0 <= k < |backgroundImages| ==>
              backgroundImages[k] == PageImage(rasterize(k + 1).0, rasterize(k + 1).1, rasterize(k + 1).2, k + 1))
        && canvasWidth == backgroundImages[0].width && canvasHeight == backgroundImages[0].height
        && backgroundImage == Some(backgroundImages[0].imageData)
        && currentPageIndex == 0 && notice == PdfLoaded
    {
      var pages, totalPages := ConvertPdfToImages(numPages, rasterize);
      if |pages| == 0 {
        notice := PdfError;
        return;
      }
      var firstPage := pages[0];
      canvasWidth, canvasHeight := firstPage.width, firstPage.height;
      backgroundImage := Some(firstPage.imageData);
      backgroundImages := pages;
      currentPageIndex := 0;
      notice := PdfLoaded;
    }

    /** handleImageUpload for a picture: a single background page at the picture's size. */
    method LoadImageBackground(imageData: string, width: int, height: int)
      modifies this`canvasWidth, this`canvasHeight, this`backgroundImage, this`backgroundImages
      modifies this`currentPageIndex, this`notice
      ensures backgroundImages == [PageImage(imageData, width, height, 1)]
      ensures canvasWidth == width && canvasHeight == height && backgroundImage == Some(imageData)
      ensures currentPageIndex == 0 && notice == ImageLoaded
    {
      canvasWidth, canvasHeight := width, height;
      backgroundImage := Some(imageData);
      backgroundImages := [PageImage(imageData, width, height, 1)];
      currentPageIndex := 0;
      notice := ImageLoaded;
    }

    /** The front/back switch: shows page `k` at its size. The editor's switch also
     *  clears the selection; the preview's does not. */
    method ShowPage(k: nat, inEditor: bool)
      requires |backgroundImages| > 1 && k < 2
      modifies this`currentPageIndex, this`selectedFieldId, this`backgroundImage
      modifies this`canvasWidth, this`canvasHeight
      ensures currentPageIndex == k && CurrentFields() == (if k == 0 then fields else fieldsPage2)
      ensures backgroundImage == Some(backgroundImages[k].imageData)
      ensures canvasWidth == backgroundImages[k].width && canvasHeight == backgroundImages[k].height
      ensures selectedFieldId == (if inEditor then None else old(selectedFieldId))
    {
      currentPageIndex := k;
      if inEditor {
        selectedFieldId := None;
      }
      var page := backgroundImages[k];
      backgroundImage := Some(page.imageData);
      canvasWidth, canvasHeight := page.width, page.height;
    }

    /** addFieldFromModal at time `now`: the new field goes last on the shown page and
     *  is selected, and the modal closes with its defaults restored. */
    method AddFieldFromModal(now: int)
      modifies this`fields, this`fieldsPage2, this`selectedFieldId, this`showAddFieldModal
      modifies this`newFieldType, this`newFieldColumnIndex, this`newFieldStaticText, this`newFieldAlign
      modifies this`notice
      ensures CurrentFields() == old(CurrentFields()) + [NewField(now, canvasWidth, canvasHeight, old(newFieldType),
                                                                  old(newFieldColumnIndex), old(newFieldStaticText),
                                                                  old(newFieldAlign))]
      ensures OtherFields() == old(OtherFields())
      ensures selectedFieldId == Some(now)
      ensures !showAddFieldModal && newFieldType == "data" && newFieldColumnIndex == 0
      ensures newFieldStaticText == "" && newFieldAlign == "left" && notice == FieldAdded
    {
      var newField := NewField(now, canvasWidth, canvasHeight, newFieldType, newFieldColumnIndex,
                               newFieldStaticText, newFieldAlign);
      SetCurrentFields(CurrentFields() + [newField]);
      selectedFieldId := Some(newField.id);
      showAddFieldModal := false;
      newFieldType, newFieldColumnIndex, newFieldStaticText, newFieldAlign := "data", 0, "", "left";
      notice := FieldAdded;
    }

    /** deleteField: only the shown page loses the fields with `id`, and the selection
     *  is cleared exactly when it was that id. */
    method DeleteFieldById(id: int)
      modifies this`fields, this`fieldsPage2, this`selectedFieldId, this`notice
      ensures CurrentFields() == DeleteField(old(CurrentFields()), id)
      ensures OtherFields() == old(OtherFields())
      ensures selectedFieldId == (if old(selectedFieldId) == Some(id) then None else old(selectedFieldId))
      ensures notice == FieldDeleted
    {
      SetCurrentFields(DeleteField(CurrentFields(), id));
      if selectedFieldId == Some(id) {
        selectedFieldId := None;
      }
      notice := FieldDeleted;
    }

    /** updateField: the shown page's fields with `id` take the update; nothing else changes. */
    method UpdateFieldById(id: int, p: Patch)
      modifies this`fields, this`fieldsPage2
      ensures CurrentFields() == UpdateField(old(CurrentFields()), id, p)
      ensures OtherFields() == old(OtherFields())
    {
      SetCurrentFields(UpdateField(CurrentFields(), id, p));
    }

    /** handleCanvasMouseDown at canvas point (mx, my): the topmost field under the
     *  point is selected and grabbed, remembering where it was grabbed; a click on
     *  no field clears the selection (and leaves any grab as it was). `grabbed` is
     *  the position of the grabbed field in the shown page's list. */
    method MouseDown(mx: real, my: real, measure: Measure) returns (grabbed: Option<nat>)
      modifies this`selectedFieldId, this`draggedField, this`dragOffset
      ensures grabbed.Some? ==>
        var i := grabbed.value;
        && TopmostAt(CurrentFields(), excelData, measure, mx, my, i)
        && selectedFieldId == Some(CurrentFields()[i].id) && draggedField == selectedFieldId
        && dragOffset == (mx - CurrentFields()[i].x, my - CurrentFields()[i].y)
      ensures grabbed.None? <==> NoHit(CurrentFields(), excelData, measure, mx, my)
      ensures grabbed.None? ==>
        selectedFieldId == None && draggedField == old(draggedField) && dragOffset == old(dragOffset)
    {
      var fs := CurrentFields();
      grabbed := TopmostHit(fs, excelData, measure, mx, my);
      match grabbed
      case Some(i) =>
        var field := fs[i];
        selectedFieldId := Some(field.id);
        draggedField := Some(field.id);
        dragOffset := (mx - field.x, my - field.y);
        assert CurrentFields() == fs;
      case None =>
        selectedFieldId := None;
        assert CurrentFields() == fs;
    }

    /** handleCanvasMouseMove: while a field is grabbed (a truthy id), it follows the pointer. */
    method MouseMove(mx: real, my: real)
      modifies this`fields, this`fieldsPage2
      ensures draggedField.Some? && draggedField.value != 0 ==>
        CurrentFields() == UpdateField(old(CurrentFields()), draggedField.value, DragPatch(mx, my, dragOffset))
      ensures !(draggedField.Some? && draggedField.value != 0) ==> CurrentFields() == old(CurrentFields())
      ensures OtherFields() == old(OtherFields())
    {
      if draggedField.None? || draggedField.value == 0 {
        return;
      }
      UpdateFieldById(draggedField.value, DragPatch(mx, my, dragOffset));
    }

    /** handleCanvasMouseUp (also on mouse leave): the grab ends. */
    method MouseUp()
      modifies this`draggedField
      ensures draggedField == None
    {
      draggedField := None;
    }

    /** A toolbar control acts on the selected field of the shown page. The toolbar
     *  shows only for a truthy selected id whose field is on the page. */
    method PressToolbar(c: ToolbarControl)
      modifies this`fields, this`fieldsPage2
      ensures OtherFields() == old(OtherFields())
      ensures match (if selectedFieldId.Some? && selectedFieldId.value != 0
                     then FindField(old(CurrentFields()), selectedFieldId.value) else None)
        case Some(f) => CurrentFields() == UpdateField(old(CurrentFields()), f.id, ToolbarPatch(c, f))
        case None => CurrentFields() == old(CurrentFields())
    {
      if selectedFieldId.None? || selectedFieldId.value == 0 {
        return;
      }
      var selected := FindField(CurrentFields(), selectedFieldId.value);
      if selected.None? {
        return;
      }
      UpdateFieldById(selectedFieldId.value, ToolbarPatch(c, selected.value));
    }

    /** The preview's previous button. */
    method PreviewPrevious()
      modifies this`previewIndex
      ensures previewIndex == PreviousPreview(old(previewIndex))
      ensures 0 <= old(previewIndex) < |excelData| ==> 0 <= previewIndex < |excelData|
    {
      if 0 <= previewIndex < |excelData| {
        PreviewStaysOnARow(previewIndex, |excelData|);
      }
      previewIndex := PreviousPreview(previewIndex);
    }

    /** The preview's next button. */
    method PreviewNext()
      modifies this`previewIndex
      ensures previewIndex == NextPreview(old(previewIndex), |excelData|)
      ensures 0 <= old(previewIndex) < |excelData| ==> 0 <= previewIndex < |excelData|
    {
      if 0 <= previewIndex < |excelData| {
        PreviewStaysOnARow(previewIndex, |excelData|);
      }
      previewIndex := NextPreview(previewIndex, |excelData|);
    }

    /** generateAllCertificates: the run's outcome is `GenerationOf` the loaded rows
     *  and design (see `GenerationOutcome`), the progress shown ends at the number of
     *  rows written, and the run always ends with isGenerating false. */
    method GenerateAllCertificates(measure: Measure) returns (outcome: Generation)
      modifies this`isGenerating, this`generationProgress, this`notice
      ensures outcome == GenerationOf(excelData, Design(backgroundImages, fields, fieldsPage2, measure), CertificateFileName)
      ensures generationProgress == RowsWritten(excelData, Design(backgroundImages, fields, fieldsPage2, measure), CertificateFileName)
      ensures notice == (if outcome.Delivered? then Generated(|excelData|) else GenerationFailed)
      ensures !isGenerating
    {
      // The run sets isGenerating, then walks the rows; `progress` is every value the
      // counter shows on the way, and the screen keeps the last one once the run ends.
      var progress;
      outcome, progress := GenerateAll(excelData, Design(backgroundImages, fields, fieldsPage2, measure));
      var last, count := progress[|progress| - 1], |excelData|;
      isGenerating := true;
      generationProgress := last;
      notice := if outcome.Delivered? then Generated(count) else GenerationFailed;
      isGenerating := false;
    }
  }
}
