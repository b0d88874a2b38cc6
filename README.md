# Certificate generator — a Dafny model

This project models the core of a Next.js application that produces university
certificates in bulk:

- **The certificate studio** (`components/GeneradorCertificados.jsx`):
  - loading a participants sheet, with its header check and row filter;
  - loading one or two background pages;
  - placing, editing, restyling and dragging text fields on the front and back pages;
  - the canvas hit test;
  - the toolbar's toggles and clamps, and the preview buttons;
  - `generateAllCertificates`: one PDF per row, named `{seq}_{doc}_{name}_({cargo}).pdf` after `cleanString`, collected in a ZIP, with a progress counter.
- **The PDF re-serialiser** (`components/Herramientas.jsx`): opens a ZIP, keeps its PDF entries, re-saves each one and offers a ZIP keyed by base name.
- **The sign-up form** (`components/RegisterForm.jsx`): the password checks and what a submit leaves on screen.
- **The Word-to-PDF route** (`app/api/convert-word/route.js`):
  - the file names it derives;
  - the LibreOffice search, then the docx2pdf fallback;
  - the status codes and the cleanup of its temporary files.
- **The saved-template route** (`app/api/templates/route.js`):
  - GET and POST, with their guard chains;
  - the listing order and the selected columns;
  - the defaults POST fills in.

Pure logic is modelled as datatypes and functions. The state a handler changes is a class:

| Class | Stands for |
|---|---|
| `Studio.Studio` | the hooks of the generator |
| `Optimizer.Tools` | the hooks of the tools page |
| `Register.RegisterForm` | the hooks of the form |
| `ConvertWord.ConversionHost` | the server's temporary folder and its command log |

Loops stay loops, each proved against a function that specifies it:

| Loop | Method |
|---|---|
| the hit test | `Fields.TopmostHit` |
| convertPdfToImages | `Certificates.ConvertPdfToImages` |
| the generation loop | `Certificates.WriteRows` |
| the extraction loop | `Optimizer.ExtractPdfs` |
| the re-save loop | `Optimizer.ReserializeAll` |
| the tool searches | `ConvertWord.ConversionHost.FindTool` |

Everything outside the program is a parameter:

- the canvas's `measureText`;
- the PDF rasteriser;
- pdf-lib's re-save;
- the shell;
- the session;
- the database;
- Prisma's `create`;
- the server's reply to the sign-up request;
- the clock.

Two modules are shared:

- `FileNames`: cleanString and the certificate file name.
- `Archives`: a ZIP being written, as a map where a later write under the same name replaces the earlier one.

A row whose first cell is falsy does not get a file name. Its sequential part is the number `i + 1` (`components/GeneradorCertificados.jsx:654`). `cleanString` calls `.replace` on that number (line 659), and a number has no such method, so the call throws a TypeError. The catch at line 683 then ends the whole run with the error dialog and no download. `Certificates.GenerationOf` and `Certificates.CertificateRunOutcome` state this, as `Aborted(CleanStringOnNumber(i))`.

## Model

| member | source | states |
|---|---|---|
| Cells.ToJsString | components/GeneradorCertificados.jsx:654-657 | `String(cell)`: a string cell is itself; a number becomes a non-empty run of digits, possibly after a minus sign |
| Cells.CellAt | components/GeneradorCertificados.jsx:551 | reading a row inside its bounds gives that cell; any other index reads `undefined` |
| JsText.SpacesFrom | components/GeneradorCertificados.jsx:659 | the end of the whitespace run starting at i: all of it is whitespace and the character after it is not |
| JsText.SpacesBefore | components/GeneradorCertificados.jsx:229 | the start of the whitespace run ending at j: all of it is whitespace and the character before it is not |
| JsText.Trim | components/GeneradorCertificados.jsx:229 | `trim()`: the result is the input with its leading and trailing whitespace runs cut off. It is empty exactly when the input is all whitespace, and otherwise starts and ends with a non-whitespace character |
| JsText.LowerChar | components/GeneradorCertificados.jsx:229 | an ASCII capital becomes its small letter (32 code points higher); every other character is unchanged |
| JsText.Lower | components/GeneradorCertificados.jsx:229 | `toLowerCase()` keeps the length and lowers each character in place |
| JsText.LowerAppend | components/GeneradorCertificados.jsx:229 | lowering a concatenation lowers each part |
| JsText.CodeUnits | components/RegisterForm.jsx:26 | a character counts one UTF-16 code unit, or two outside the Basic Multilingual Plane |
| JsText.Utf16Length | components/RegisterForm.jsx:26 | `s.length` lies between the number of characters and twice that |
| JsText.Utf16LengthAppend | components/RegisterForm.jsx:26 | the code-unit length of a concatenation is the sum of the lengths |
| JsText.DigitChar | app/api/convert-word/route.js:85 | a digit's character is a decimal digit with that value |
| JsText.NatToString | app/api/convert-word/route.js:85 | `String(n)` for n ≥ 0 is a non-empty run of decimal digits |
| JsText.NatToStringValue | app/api/convert-word/route.js:85 | `String(n)` reads back as n, and only 0 is written with a leading zero |
| JsText.IntToString | app/api/convert-word/route.js:85-86 | `String(n)` is digits, with a leading minus exactly when n is negative |
| Sheet.DataRows | components/GeneradorCertificados.jsx:220-226 | every kept row is an input row that is non-empty and has a filled cell among its first four; the result is never longer |
| Sheet.ProcessSheet | components/GeneradorCertificados.jsx:205-260 | an empty sheet is reported only when there are no rows; rows load exactly when the header is valid, as the first row plus the filtered later rows |
| Sheet.DataRowsComplete | components/GeneradorCertificados.jsx:220-226 | every row that passes the filter is kept |
| Sheet.DataRowsAppend | components/GeneradorCertificados.jsx:220-226 | the filter keeps source order: filtering a concatenation concatenates the filtered parts |
| Sheet.DataRowsIdempotent | components/GeneradorCertificados.jsx:220-226 | filtering the loaded rows again keeps all of them |
| Sheet.HeaderCellInitial | components/GeneradorCertificados.jsx:228-231 | a header cell that matches its column name starts, once trimmed, with `n` or `c` in either case |
| Sheet.ColumnInitials | components/GeneradorCertificados.jsx:228-231 | every required column name starts with `n` or `c`, and each is longer than nine characters or starts with `c` |
| Sheet.NonStringNeverMatches | components/GeneradorCertificados.jsx:228-231 | a missing cell (`"undefined"`) or a number never trims and lowers to a required column name |
| Sheet.ValidHeaderHasStrings | components/GeneradorCertificados.jsx:228-231 | only string cells pass the header check; missing cells (`"undefined"`) and numbers never do |
| FileNames.CollapseFromFacts | components/GeneradorCertificados.jsx:659 | `replace(/\s+/g, ' ')` gives only characters of the input or plain spaces, keeps a leading non-space character, leaves no whitespace but the plain space and never two spaces in a row, and is empty only for an empty input |
| FileNames.CleanStringIsClean | components/GeneradorCertificados.jsx:659 | cleanString's result has no reserved character `<>:"/\|?*`, no whitespace but the plain space, and no double space |
| FileNames.CollapseClean | components/GeneradorCertificados.jsx:659 | collapsing a clean string changes nothing |
| FileNames.CleanStringFixesClean | components/GeneradorCertificados.jsx:659 | cleanString leaves a clean string as it is |
| FileNames.CleanStringUnchangedIff | components/GeneradorCertificados.jsx:659 | cleanString changes a string exactly when the string is not clean |
| FileNames.CleanStringIdempotent | components/GeneradorCertificados.jsx:659 | cleaning twice is cleaning once |
| FileNames.SequentialPart | components/GeneradorCertificados.jsx:654 | the sequential part is the number i + 1 exactly when cell 0 is falsy, and otherwise the trimmed `String(cell 0)` |
| FileNames.CleanPart | components/GeneradorCertificados.jsx:659-660 | cleanString succeeds exactly on a string part; on the number it throws |
| FileNames.CertificateFileName | components/GeneradorCertificados.jsx:654-660 | a row gets a file name exactly when its cell 0 is truthy |
| FileNames.NoReservedAppend | components/GeneradorCertificados.jsx:660 | joining two strings without reserved characters gives one without them |
| FileNames.CertificateFileNameShape | components/GeneradorCertificados.jsx:654-660 | the name is the four trimmed, cleaned cells in the form `{seq}_{doc}_{name}_({cargo}).pdf`; it ends in `).pdf` and has no reserved character, so no folder separator |
| FileNames.JoinNoReserved | components/GeneradorCertificados.jsx:660 | the fixed separators of the name add no reserved character |
| FileNames.SameCellsSameName | components/GeneradorCertificados.jsx:654-662 | two rows with the same first four trimmed cells get the same name, whatever their positions, so the later entry replaces the earlier |
| Fields.OrElse | components/GeneradorCertificados.jsx:551-554 | `s \|\| fallback` is s when s is non-empty, and empty only when both are |
| Fields.Font | components/GeneradorCertificados.jsx:552-554 | the canvas font has the field's size and keeps the field's own style, weight and family when they are set; none of the three is ever empty |
| Fields.DrawX | components/GeneradorCertificados.jsx:558-565 | the field's x is the left end, the middle or the right end of the drawn run, by alignment |
| Fields.AnchorWithinRun | components/GeneradorCertificados.jsx:558-565 | for any alignment, a run of non-negative width covers the field's x |
| Fields.PrintedText | components/GeneradorCertificados.jsx:551 | a field's custom text, when non-empty, is what it prints |
| Fields.PrintedTextEmpty | components/GeneradorCertificados.jsx:551 | a field prints nothing exactly when it has no custom text and its cell is falsy; a missing column never prints "undefined" |
| Fields.PrintedTextFromCell | components/GeneradorCertificados.jsx:551 | with no custom text and a truthy cell, the field prints `String(cell)`, which is non-empty |
| Fields.RunOf | components/GeneradorCertificados.jsx:551-577 | the drawn run has the printed text, the field's font and baseline, the aligned x for the measured width, and is underlined exactly when the decoration is underline |
| Fields.DrawFields | components/GeneradorCertificados.jsx:549-579 | one run per field, in list order, which is paint order |
| Fields.NewField | components/GeneradorCertificados.jsx:346-362 | a new field is centred on the canvas, with size 32, colour `#000000`, Arial, normal weight and style, no decoration and the chosen alignment; a data field keeps its column, a static one its text |
| Fields.NewFieldPrints | components/GeneradorCertificados.jsx:352-353 | a data field prints its chosen column of each row; a static field with text prints that text on every row |
| Fields.Apply | components/GeneradorCertificados.jsx:388 | `{ ...f, ...updates }`: each property the update carries takes its value, every other property keeps the field's; the id, column, custom text and kind never change, and the empty update changes nothing |
| Fields.DeleteField | components/GeneradorCertificados.jsx:378 | the fields left are exactly those without the id |
| Fields.DeleteFieldAppend | components/GeneradorCertificados.jsx:378 | deleting keeps the other fields in their order |
| Fields.DeleteAbsentField | components/GeneradorCertificados.jsx:378 | deleting an id no field carries changes nothing |
| Fields.UpdateField | components/GeneradorCertificados.jsx:388 | the list keeps its length; exactly the fields with the id take the update |
| Fields.UpdateKeepsIds | components/GeneradorCertificados.jsx:388 | an update keeps every field in its place under its id |
| Fields.DeleteAfterUpdate | components/GeneradorCertificados.jsx:378-388 | updating a field and then deleting it is the same as deleting it |
| Fields.HitText | components/GeneradorCertificados.jsx:404 | the measured text is the custom text when there is one, and "Campo" when there is neither custom text nor a row |
| Fields.TopmostHit | components/GeneradorCertificados.jsx:402-437 | the scan returns a field under the point over which no later-painted field is, and returns none exactly when no field is under the point |
| Fields.TogglesUndoThemselves | components/GeneradorCertificados.jsx:1396-1426 | bold, italic and underline each undo themselves on the values they produce, and from any start a third press equals the first |
| Fields.SmallerFont | components/GeneradorCertificados.jsx:1495 | the − button never goes below 8 or takes off more than 2, and from 10 up takes off exactly 2 |
| Fields.LargerFont | components/GeneradorCertificados.jsx:1512 | the + button never goes above 200 or adds more than 2, and up to 198 adds exactly 2 |
| Fields.FontSizeFromInput | components/GeneradorCertificados.jsx:1505 | the size box never yields 0: a non-zero parsed number is kept, anything else gives 12 |
| Fields.FontButtonsKeepRange | components/GeneradorCertificados.jsx:1495-1512 | both buttons keep a size in [8, 200] inside it |
| Fields.PreviousPreview | components/GeneradorCertificados.jsx:1560 | `Math.max(0, i - 1)`: one back, or 0 from the first row; never below 0 |
| Fields.NextPreview | components/GeneradorCertificados.jsx:1582 | `Math.min(n - 1, i + 1)`: one on, or the last row when that would pass it; never past the last row |
| Fields.PreviewStaysOnARow | components/GeneradorCertificados.jsx:1560-1583 | with rows loaded, both buttons keep the preview on a row |
| Certificates.ConvertPdfToImages | components/GeneradorCertificados.jsx:101-133 | at most the first two pages are rasterised, numbered from 1, each with the rasteriser's image and size; the page count is reported in full |
| Certificates.OrientationOf | components/GeneradorCertificados.jsx:620 | a page is landscape exactly when it is wider than tall |
| Certificates.CertificatePages | components/GeneradorCertificados.jsx:606-650 | a document has a second page exactly when there is a second background; each page's orientation follows its background; the front prints the page-1 fields and the back the page-2 fields, on the same row |
| Certificates.CertificateNamed | components/GeneradorCertificados.jsx:654-660 | with the application's naming, every row the run reaches gets a name exactly when each of those rows has a truthy cell 0 |
| Certificates.Entries | components/GeneradorCertificados.jsx:606-662 | the archive writes of the rows, in row order: each row's name and document |
| Certificates.ArchiveIsWrite | components/GeneradorCertificados.jsx:662 | the archive built row by row is the one written by the row entries in order |
| Certificates.ArchiveKeys | components/GeneradorCertificados.jsx:662 | the archive holds exactly the rows' names |
| Certificates.ArchiveLastWins | components/GeneradorCertificados.jsx:654-662 | under a row's name is that row's document when no later row has the same name |
| Certificates.ArchiveSize | components/GeneradorCertificados.jsx:662 | there are never more entries than rows |
| Certificates.ArchiveSizeDistinct | components/GeneradorCertificados.jsx:662 | when all the names differ, every row keeps its own entry |
| Certificates.Counting | components/GeneradorCertificados.jsx:585-663 | the counter starts at 0 and ends at the number of rows written |
| Certificates.CountingCounts | components/GeneradorCertificados.jsx:663 | after k rows the counter reads k |
| Certificates.FirstUnnamedFrom | components/GeneradorCertificados.jsx:606-660 | the row found is the first whose naming throws; there is none exactly when every later row gets a name |
| Certificates.GenerationOutcome | components/GeneradorCertificados.jsx:582-693 | a run delivers exactly when there is a background and every row gets a name, having written every row; without a background it fails before writing anything; otherwise it stops at the first unnamed row, which it reports, having written every row before it |
| Certificates.CertificateRunOutcome | components/GeneradorCertificados.jsx:596-660 | with the application's naming a run delivers exactly when there is a background and every cell 0 is truthy; otherwise it stops at the first row with a falsy cell 0 |
| Certificates.AbortedAt | components/GeneradorCertificados.jsx:654-663 | an unnamed row after i named ones ends the run with that row's error, with the counter at i |
| Certificates.DeliveredAll | components/GeneradorCertificados.jsx:606-664 | when every row is named, the run delivers the archive of all rows and the counter reaches the number of rows |
| Certificates.GenerateAll | components/GeneradorCertificados.jsx:587-664 | the run's outcome and the sequence of progress values are those of the specification, for the application's naming |
| Certificates.WriteRows | components/GeneradorCertificados.jsx:606-664 | the row loop builds the specified archive or stops at the specified row, passing 0, 1, …, k to the progress setter |
| Archives.WriteAppend | components/GeneradorCertificados.jsx:662 | one more `zip.file` updates the archive under that name |
| Archives.WriteKeys | components/GeneradorCertificados.jsx:662 | an archive holds exactly the names written into it |
| Archives.WriteLastWins | components/GeneradorCertificados.jsx:662 | an entry keeps its own data when no later write uses its name |
| Archives.WriteLatest | components/GeneradorCertificados.jsx:662 | every entry holds the data of the last write under its name |
| Archives.WriteSize | components/GeneradorCertificados.jsx:662 | an archive never has more entries than writes, and exactly as many when all names differ |
| Studio.FindField | components/GeneradorCertificados.jsx:1390 | `find` returns a field of the list that carries the id, and returns nothing exactly when no field does |
| Studio.FindFieldIsFirst | components/GeneradorCertificados.jsx:1390 | `find` returns the first field with the id |
| Studio.ToolbarPatch | components/GeneradorCertificados.jsx:1396-1527 | every control sets exactly one styling property and never a position: bold, italic and underline send their toggles; the align buttons, the font list and the colour input send their value; the − and + buttons send the clamped size, and the size box sends `parseInt(value) \|\| 12` |
| Studio.ToolbarKeepsPosition | components/GeneradorCertificados.jsx:1396-1527 | the toolbar never moves a field |
| Studio.ToggleButtonTwice | components/GeneradorCertificados.jsx:1396-1426 | pressing bold, italic or underline changes a field whose style is one of the button's two values, and pressing it again gives back the field as it was |
| Studio.DragPatch | components/GeneradorCertificados.jsx:450-453 | a drag sends only the new position: the pointer less the grab offset |
| Studio.DragFollowsPointer | components/GeneradorCertificados.jsx:429-453 | a dragged field moves by exactly the pointer's displacement and keeps its styling |
| Studio.Studio.constructor | components/GeneradorCertificados.jsx:30-51 | the hooks start with their initial values (a 2000×1414 canvas, no pages, no rows, no fields, no selection, data fields aligned left) |
| Studio.Studio.SetCurrentFields | components/GeneradorCertificados.jsx:337-343 | the shown page's list is replaced and the other page's is left alone |
| Studio.Studio.LoadSheet | components/GeneradorCertificados.jsx:205-261 | headers and rows change only when the sheet is accepted, to the sheet's header and filtered rows; an empty or malformed sheet gets its alert |
| Studio.Studio.LoadPdfBackground | components/GeneradorCertificados.jsx:143-173 | a PDF with pages gives as backgrounds exactly the first one or two rasterised pages, numbered from 1; the canvas takes page 1's size and shows it; a PDF without pages changes nothing but the alert |
| Studio.Studio.LoadImageBackground | components/GeneradorCertificados.jsx:175-194 | a picture becomes the only background at its own size |
| Studio.Studio.ShowPage | components/GeneradorCertificados.jsx:1224-1247 | the front/back switch shows the page's background at its size and edits its field list; the editor's switch clears the selection, the preview's keeps it |
| Studio.Studio.AddFieldFromModal | components/GeneradorCertificados.jsx:346-373 | the new field goes last on the shown page and is selected; the other page is untouched; the modal closes with its defaults restored |
| Studio.Studio.DeleteFieldById | components/GeneradorCertificados.jsx:376-383 | only the shown page loses the fields with the id; the selection is cleared exactly when it was that id |
| Studio.Studio.UpdateFieldById | components/GeneradorCertificados.jsx:386-389 | only the shown page's fields with the id take the update |
| Studio.Studio.MouseDown | components/GeneradorCertificados.jsx:392-438 | the topmost field under the pointer is selected and grabbed, with its grab offset; a click on no field clears the selection |
| Studio.Studio.MouseMove | components/GeneradorCertificados.jsx:440-454 | while a field is grabbed it follows the pointer; otherwise nothing changes; the other page is untouched |
| Studio.Studio.MouseUp | components/GeneradorCertificados.jsx:456-458 | the grab ends |
| Studio.Studio.PressToolbar | components/GeneradorCertificados.jsx:1387-1527 | a control updates the selected field of the shown page when there is one, and otherwise nothing |
| Studio.Studio.PreviewPrevious | components/GeneradorCertificados.jsx:1560 | the preview index moves back, staying on a row |
| Studio.Studio.PreviewNext | components/GeneradorCertificados.jsx:1582 | the preview index moves on, staying on a row |
| Studio.Studio.GenerateAllCertificates | components/GeneradorCertificados.jsx:582-693 | the run's outcome is the specified one for the loaded rows and design; the progress ends at the number of rows written; the notice says delivered or failed; generation is always off afterwards |
| Optimizer.PdfEntries | components/Herramientas.jsx:39-45 | pdfEntries holds exactly the non-folder entries whose name ends in `.pdf` in any case |
| Optimizer.PdfEntriesAppend | components/Herramientas.jsx:39-45 | pdfEntries keeps the archive order: the PDFs of two runs of entries are the first run's, then the second's |
| Optimizer.NestedArchives | components/Herramientas.jsx:47-50 | nestedArchives holds exactly the names ending in `.rar`, or in `.zip` other than the upload's own name |
| Optimizer.LastSeparator | components/Herramientas.jsx:76 | the position of the last separator, −1 when there is none |
| Optimizer.LastSeparatorFacts | components/Herramientas.jsx:76 | the position found holds the separator and no separator follows it |
| Optimizer.AfterLast | components/Herramientas.jsx:76 | `split(c).pop()` is the end of the string after the last c: it has no c, and without any c it is the whole string |
| Optimizer.AfterLastSeparator | components/Herramientas.jsx:76 | the part after the last separator is exactly what follows the separator written last |
| Optimizer.BaseName | components/Herramientas.jsx:76 | a base name has no `/` and no `\` and is a suffix of the path |
| Optimizer.BaseNameIdempotent | components/Herramientas.jsx:76 | a name without separators is its own base name, so taking it twice changes nothing |
| Optimizer.SameNameInFolders | components/Herramientas.jsx:76 | the same file in two folders gets the same base name |
| Optimizer.Extracted | components/Herramientas.jsx:73-87 | there are never more extracted PDFs than entries |
| Optimizer.ExtractedFiles | components/Herramientas.jsx:73-87 | each extracted PDF is a readable entry with its bytes, its path and its base name; every readable entry is extracted; nothing is extracted exactly when no entry can be read |
| Optimizer.ExtractedComplete | components/Herramientas.jsx:73-87 | every readable entry is extracted under its base name, with its bytes and path |
| Optimizer.SourceEntry | components/Herramientas.jsx:73-87 | an extracted PDF names the readable entry it was read from |
| Optimizer.ExtractedAppend | components/Herramientas.jsx:73-87 | extraction keeps the order of the entries: extracting two runs gives the first run's files, then the second's |
| Optimizer.ExtractPdfs | components/Herramientas.jsx:73-87 | the extraction loop produces the specified list |
| Optimizer.Output | components/Herramientas.jsx:100-115 | the re-saved bytes are written, or the original bytes when pdf-lib throws |
| Optimizer.OutputEntries | components/Herramientas.jsx:97-116 | one write per extracted PDF, in order, under its base name |
| Optimizer.ProgressUpdates | components/Herramientas.jsx:111 | there is at most one progress update per PDF |
| Optimizer.ProgressMeaningStep | components/Herramientas.jsx:97-116 | one more iteration keeps the meaning of the progress values |
| Optimizer.ProgressUpdatesMeaning | components/Herramientas.jsx:111 | the progress only moves forward, stays within 1..n, and shows k exactly when the k-th PDF was re-saved |
| Optimizer.ReserializeAll | components/Herramientas.jsx:97-116 | the re-save loop writes the specified archive and sends the specified progress values |
| Optimizer.OutputNames | components/Herramientas.jsx:109-114 | every extracted PDF has an entry under its base name, re-saved or not, and there are no other names |
| Optimizer.OutputLaterWins | components/Herramientas.jsx:109-114 | of two PDFs with the same base name, the later one's bytes win |
| Optimizer.ExtractedAround | components/Herramientas.jsx:73-87 | the PDFs extracted around a readable PDF entry are those before it, its own file, then those after it |
| Optimizer.LaterNamesDiffer | components/Herramientas.jsx:73-87 | entries whose readable PDFs avoid a base name give no extracted file with that name |
| Optimizer.LaterFileWins | components/Herramientas.jsx:109-114 | a PDF followed by no PDF of the same name decides the output under that name |
| Optimizer.LaterEntryWins | components/Herramientas.jsx:76-114 | in the ZIP's own order, the last readable PDF entry with a base name decides the bytes stored under that name |
| Optimizer.NoPdfEntries | components/Herramientas.jsx:39-52 | pdfEntries is empty exactly when no entry is a PDF |
| Optimizer.SomePdfExtracted | components/Herramientas.jsx:73-91 | some PDF is extracted exactly when some PDF entry is readable |
| Optimizer.NestedArchivesFound | components/Herramientas.jsx:47-52 | nestedArchives is non-empty exactly when some entry is a nested archive |
| Optimizer.OptimizationOutcome | components/Herramientas.jsx:52-91 | the run stops on nested archives exactly when there are some and no PDF entry, and delivers exactly when some PDF entry is readable |
| Optimizer.Tools.constructor | components/Herramientas.jsx:12-15 | no upload, not processing, progress and total at 0 |
| Optimizer.Tools.HandleOptimizePDFs | components/Herramientas.jsx:18-156 | the outcome is the specified one; without an upload nothing changes; every other run ends not processing with the progress at 0; a delivered run clears the upload and total and shows 0, the re-save updates, then 0; a failed one keeps the upload and total |
| Register.RejectionMessage | components/RegisterForm.jsx:21-29 | each refusal shows a non-empty message |
| Register.CheckPassword | components/RegisterForm.jsx:21-29 | the checks pass exactly when the two passwords are equal and at least 6 code units long |
| Register.MismatchReportedFirst | components/RegisterForm.jsx:21-24 | different passwords always report the mismatch, whatever their length |
| Register.ShortMatchingRefused | components/RegisterForm.jsx:26-29 | a matching password under 6 code units is refused for its length |
| Register.LengthInCodeUnits | components/RegisterForm.jsx:26 | six characters always pass, and three characters outside the Basic Multilingual Plane pass too |
| Register.SubmissionOutcome | components/RegisterForm.jsx:17-54 | the request is sent exactly when the checks pass; registration happens exactly on an ok reply; every other outcome shows an error; a server error text is shown as is, a failed fetch shows the connection error |
| Register.RegisterForm.constructor | components/RegisterForm.jsx:10-15 | empty form, no error, not loading |
| Register.RegisterForm.HandleSubmit | components/RegisterForm.jsx:17-54 | the outcome and the error shown are the specified ones; a refused submit sends nothing; any other sends exactly one request and ends not loading; only a registration navigates, to the login page |
| ConvertWord.SanitizeChar | app/api/convert-word/route.js:83 | a character becomes as many safe characters as its UTF-16 code units |
| ConvertWord.Sanitize | app/api/convert-word/route.js:83 | the sanitised name has only `[a-zA-Z0-9._-]` and one character per code unit of the original |
| ConvertWord.SanitizeOneForOne | app/api/convert-word/route.js:83 | within the Basic Multilingual Plane every safe character stays in place and every other one becomes `_` |
| ConvertWord.SanitizeKeepsSafeNames | app/api/convert-word/route.js:83 | a name of safe characters is unchanged |
| ConvertWord.SanitizeIdempotent | app/api/convert-word/route.js:83 | sanitising twice is sanitising once |
| ConvertWord.StripDocExt | app/api/convert-word/route.js:84 | baseName is a prefix of the sanitised name |
| ConvertWord.StripDocExtOnce | app/api/convert-word/route.js:84 | exactly one trailing `.doc`/`.docx`, in any case, is removed, even when what stays ends in `.doc` |
| ConvertWord.StripDocExtOther | app/api/convert-word/route.js:84 | a name without that extension is kept whole |
| ConvertWord.StripDocExtRemoves | app/api/convert-word/route.js:84 | what is removed, if anything, is `.doc` or `.docx` in some case |
| ConvertWord.BaseName | app/api/convert-word/route.js:83-84 | the base name has only safe characters |
| ConvertWord.InputNameStaysInFolder | app/api/convert-word/route.js:85 | the upload's file name is one path segment, neither `.` nor `..`, so it stays inside the temporary folder |
| ConvertWord.OutputNameStaysInFolder | app/api/convert-word/route.js:86 | the same holds for the expected PDF |
| ConvertWord.DownloadNameUnquoted | app/api/convert-word/route.js:142 | the download name cannot close the quotes of Content-Disposition |
| ConvertWord.ExtensionSwapDiffers | app/api/convert-word/route.js:85-86 | a name that keeps its text or loses just a Word extension differs from that name with `.pdf` added |
| ConvertWord.InputDiffersFromOutput | app/api/convert-word/route.js:85-86 | the upload and the PDF never share a path, so the two cleanups remove two different files |
| ConvertWord.Candidates | app/api/convert-word/route.js:26-43 | each tool has at least one candidate |
| ConvertWord.Escape | app/api/convert-word/route.js:62-63 | escaping never shortens a path |
| ConvertWord.EscapePlainPath | app/api/convert-word/route.js:62-63 | a path without backslashes is passed unchanged |
| ConvertWord.Docx2pdfLineOnPosixPaths | app/api/convert-word/route.js:61-65 | on POSIX paths the docx2pdf script names the upload and the PDF exactly as they are |
| ConvertWord.FirstWorkingFrom | app/api/convert-word/route.js:33-39 | the candidate found answers its probe and no earlier one does; none is found exactly when none answers |
| ConvertWord.FirstWorkingFromIs | app/api/convert-word/route.js:33-39 | the first answering candidate is the one found |
| ConvertWord.Probes | app/api/convert-word/route.js:33-35 | the probes of the first n candidates, in order |
| ConvertWord.ProbeLogMeaning | app/api/convert-word/route.js:25-51 | a search stops at the first success: every probe but the last failed, and a program is returned exactly when the last probe succeeded, on that program |
| ConvertWord.PostStatus | app/api/convert-word/route.js:68-81 | 400 exactly for a missing or empty file field, with its message; a PDF only for an upload; a request refused before conversion runs nothing and leaves the folder alone; every 500 carries its error's message: the install hint when nothing converted, the form parser's error, or the TypeError of `file.name.replace` on a plain form value |
| ConvertWord.UploadCleanedUp | app/api/convert-word/route.js:136-148 | both temporary files are gone afterwards, on the PDF path and on the error path |
| ConvertWord.PdfIsConvertedOutput | app/api/convert-word/route.js:126-144 | a PDF is sent exactly when a stage converted; it is the file at the expected path, saved under the base name; otherwise the answer is the 500 with the install hint |
| ConvertWord.LibreOfficeConverts | app/api/convert-word/route.js:94-109 | LibreOffice converts exactly when it is found, its command succeeds and the PDF is at the expected path |
| ConvertWord.Docx2pdfOnlyAsFallback | app/api/convert-word/route.js:111-124 | docx2pdf runs exactly when LibreOffice did not convert and Python is found |
| ConvertWord.LibreOfficeFirst | app/api/convert-word/route.js:91-124 | no LibreOffice command follows a docx2pdf command |
| ConvertWord.ConversionHost.constructor | app/api/convert-word/route.js:10 | the folder holds the given files; no folder made, no command run |
| ConvertWord.ConversionHost.EnsureTempDir | app/api/convert-word/route.js:12-16 | the temporary folder exists afterwards |
| ConvertWord.ConversionHost.CleanFile | app/api/convert-word/route.js:18-22 | the file is gone afterwards, and nothing else changes |
| ConvertWord.ConversionHost.Exec | app/api/convert-word/route.js:54-66 | the command is logged; it succeeds as the shell says and then adds what it writes |
| ConvertWord.ConversionHost.FindTool | app/api/convert-word/route.js:25-51 | the search returns the specified candidate and logs the specified probes |
| ConvertWord.ConversionHost.TryLibreOffice | app/api/convert-word/route.js:93-109 | the LibreOffice stage does what its specification says to the files, the command log and `converted` |
| ConvertWord.ConversionHost.TryDocx2pdf | app/api/convert-word/route.js:111-124 | the same for the docx2pdf stage |
| ConvertWord.ConversionHost.Post | app/api/convert-word/route.js:68-151 | the answer, the files and the command log are those of the specified POST, and the temporary folder exists |
| ConvertWord.ConversionHost.RunConverters | app/api/convert-word/route.js:91-124 | the two stages in turn give the specified files, commands and `converted` |
| ConvertWord.ConversionHost.ConvertFile | app/api/convert-word/route.js:83-144 | the conversion of an upload gives the specified answer and files |
| ConvertWord.ConversionHost.Finish | app/api/convert-word/route.js:126-149 | the PDF is read when it was converted and exists, otherwise the 500 with the install hint is sent; both files are removed |
| Templates.OrDefault | app/api/templates/route.js:105-109 | `v \|\| fallback` keeps a truthy value and otherwise gives the fallback |
| Templates.OrDefaultTruthy | app/api/templates/route.js:105-109 | with a truthy default the stored value is never falsy, and defaulting again changes nothing |
| Templates.Member | app/api/templates/route.js:74-83 | a member the body object has is read as its value; anything else, including a body that is not an object, reads `undefined` |
| Templates.SessionEmail | app/api/templates/route.js:10 | the result is the session's e-mail exactly when `session.user.email` is present and non-empty, and otherwise none |
| Templates.Authenticate | app/api/templates/route.js:8-26 | 401 without a session e-mail, 500 when the lookup throws, 404 for an unknown e-mail, and otherwise the user under that e-mail |
| Templates.InsertByUpdate | app/api/templates/route.js:30 | an insertion adds exactly the row |
| Templates.InsertByUpdateSorted | app/api/templates/route.js:30 | an insertion keeps the rows sorted by update time, newest first |
| Templates.SortByUpdate | app/api/templates/route.js:30 | the sort is a permutation |
| Templates.SortByUpdateSorted | app/api/templates/route.js:30 | the sort's result is ordered by update time, newest first |
| Templates.OwnedBy | app/api/templates/route.js:29 | exactly the rows of the user, each no more often than in the table |
| Templates.ProjectAll | app/api/templates/route.js:31-38 | every row is reduced to the selected columns, in place |
| Templates.GetUnauthorized | app/api/templates/route.js:10-15 | without a session e-mail GET answers 401 whatever the database holds |
| Templates.GetUnknownUser | app/api/templates/route.js:17-26 | an e-mail without a user answers 404 whatever the templates |
| Templates.ListedRowsMeaning | app/api/templates/route.js:28-39 | the listed rows are exactly the caller's rows, each as often as in the table, newest first |
| Templates.SameElements | app/api/templates/route.js:28-39 | two lists with the same multiset have the same members |
| Templates.GetListsOwnTemplates | app/api/templates/route.js:6-41 | GET lists exactly when the session's e-mail belongs to a user and the lookup works, and then gives that user's rows with the selected columns, newest first |
| Templates.CheckName | app/api/templates/route.js:86-91 | a name passes only as a string whose trimmed text is non-empty, and that text is stored; a missing, falsy or blank name is refused; a truthy name that is not a string is the throwing case |
| Templates.PostUnauthorized | app/api/templates/route.js:56-61 | without a session e-mail POST answers 401 and writes nothing |
| Templates.PostUnknownUser | app/api/templates/route.js:63-72 | an unknown e-mail answers 404 whatever the body and writes nothing |
| Templates.NameCheckedFirst | app/api/templates/route.js:86-98 | a missing or blank name answers 400 for the name, even when the background is missing too |
| Templates.BackgroundRequired | app/api/templates/route.js:93-98 | with a usable name and no background the answer is 400 for the background |
| Templates.PostWrites | app/api/templates/route.js:100-111 | a row is written only after both checks; it belongs to the caller, has the trimmed non-blank name and the given background; each of fieldsPage1, fieldsPage2, excelHeaders, canvasWidth and canvasHeight keeps a truthy value from the body and otherwise becomes `[]`, `[]`, `[]`, 2000 or 1414 |
| Templates.PostCreated | app/api/templates/route.js:100-130 | a 201 comes exactly from a successful create and carries the new id, stored name and creation time; a failed create is a 500; every status is 201, 400, 401, 404 or 500 |
| Templates.PostCreatesRow | app/api/templates/route.js:52-123 | a row is written exactly when the session, the lookup and both checks pass; it is the prepared row, and the reply is the 201 for what Prisma created, or 500 when creating throws |
| Templates.ThrownErrorsAnswer500 | app/api/templates/route.js:42-48 | a failing lookup answers 500 for GET and POST, and so do a body that is not JSON, a `null` body and a truthy name that is not a string, with nothing written |

## Left out

- **Rendering and encoding.** The canvas, JPEG/PNG encoding, `pdfjs`, jsPDF, JSZip compression and pdf-lib internals are not modelled: a page is its background plus its list of text runs, a PDF is its pages, an archive is a map from names to contents.
- **Downloads.** The blob download and object URLs are left out: a run's result is its archive.
- **Floating point.** Text widths from `measureText` are an input; the underline's geometry (`fontSize * 0.1`, line width) is reduced to a flag.
- **Pointer mapping.** The mouse's scaling from client to canvas coordinates is left out: the handlers receive canvas coordinates.
- **Lowercasing and sheet cells.** Only ASCII letters are lowered; every string compared after lowering is ASCII. Cells are missing, strings or integers; fractional numbers are not modelled.
- **JSON.** Numbers in JSON bodies are integers.
- **Outside this model.** The multi-sheet picker, TemplateManager, handleLoadTemplate and the `/api/templates/[id]` route.
- **Asynchrony.** `await` and the order of state updates between renders are not modelled; handlers are atomic.
- **Messages.** Toasts and dialogs are a `Notice` value without their texts. The console logs are left out. The route's JSON errors keep their texts.
- ConvertWord.PostOf: the TypeError's message for a plain form value is the text Node's V8 engine gives. The form parser's error text comes with the request, because it depends on the runtime.
- **Fonts.** The canvas font is a `FontSpec` record, not a CSS string.
- **The shell.** It answers per command. A probe writes no file, and a failing command writes nothing. A failing `mkdir` is not modelled, nor are failures of `file.arrayBuffer()`, of `writeFile` for the upload or of `readFile` for the PDF (`app/api/convert-word/route.js:88-89, 134`); in the source each throws into the catch at lines 145-149, which removes both files and answers 500 with the error's message. The model's ConvertUpload never fails at those steps, and `path.join` is modelled for POSIX folders only. LibreOffice's own choice of output name is whatever the shell says it writes.
- **Sessions and storage.** `auth()` throwing is not modelled. Rows with equal update times are assumed to keep their table order. A non-string `data.error` in the sign-up reply is not modelled.
- **Form inputs.** The input `onChange` setters of the forms and the modal are plain field assignments and have no members.
- Certificates.GenerateAll: the values passed to setGenerationProgress are returned as a sequence, not shown one by one. `Studio.Studio.GenerateAllCertificates` stores the last of them after the run.
- Studio.Studio.GenerateAllCertificates: isGenerating is set and cleared around the run, with no renders in between.
- Fields.Apply: an update carries only the properties the editor sends (position and styling), never an id, column, custom text or kind.
- Studio.Studio.LoadPdfBackground: a PDF without pages is the only conversion failure modelled; a rasteriser error is not.
- Optimizer.Tools.HandleOptimizePDFs: clearing the file input is not modelled.
