# Wedding invitation generator: the rules behind the form

The application is a single React page (`src/App.js`) in which a host fills in
the details of a wedding invitation. The page previews the invitation card and
exports it as a one-page A4 PDF. Most of the file is layout. This project
models the few deterministic rules inside it and proves what they promise:

- **Credits line** (`formatNamesWithAmpersand`). The "Best compliments from"
  text is split on `&`, every piece is trimmed, and the pieces are re-joined
  with `"  &  "`. Module `Credits` models this, on top of module `Text`, which
  models JavaScript's `trim`, `split` with a one-character separator, and
  `join`.
- **PDF file name** (module `PdfFileName`). The file is named
  `Invitation_<invitee name>.pdf`, where every maximal run of whitespace in
  the name becomes one `_`.
- **Fit to page** (module `PageFit`). The captured canvas is scaled to fit
  the page without distortion and centred on the axis with room to spare.
- **Form state** (module `InvitationForm`). This covers:
  - the `update` reducer;
  - the handlers of the full-family check boxes and the attendance inputs of
    a program entry;
  - the cells the card shows for a program row;
  - the QR image upload.

Whitespace is the set ECMAScript calls WhiteSpace and LineTerminator
(`Text.IsWhitespace`). This is exactly what `trim` strips and what `\s`
matches. All of these characters lie in the Basic Multilingual Plane, so
modelling strings as sequences of code points rather than UTF-16 code units
changes nothing here.

The program entries are objects that the handlers change in place. A handler
copies the program list (`[...form.program]`), but the copy holds the same
entry objects. The handler then assigns to the entry's fields and passes the
copy to `update`. The model therefore has a class `Entry`, whose fields the
handler methods modify. The form is a value, a map from property names to
values, and the handlers return it unchanged: the new list holds the same
entries as the old one. `EntryView` is a snapshot of an entry's fields. The
pure rules are stated on it: `WithFullFamily`, `WithAttendance` and
`RowCells`.

A few facts about the code that a reader might not expect:

- The card's styles are restored only on the success path of `downloadPDF`
  (`src/App.js:142-144`). There is no `finally`, so when the capture or the
  export throws (`src/App.js:145-148`), the overrides stay in place.
- The file name replaces every maximal run of whitespace (`/\s+/g`) with one
  underscore, not each space separately.
- `formatNamesWithAmpersand` is idempotent on every input, not only on text
  that is already joined with `"  &  "` (`Credits.FormatIdempotent`).
- For a 1500×2100 canvas on an A4 page of 210×297 the exact placement is a
  height of 294 and a vertical offset of 1.5 (`PageFit.FitA4Example`).

## Model

| member | source | states |
|---|---|---|
| `Text.IsWhitespace` | src/App.js:21 | The ECMAScript WhiteSpace and LineTerminator characters, the set `trim` strips and `\s` matches (also line 140). Its contract states that all of them lie in the Basic Multilingual Plane, that neither `&` nor `_` is among them, and that space, tab, line feed and no-break space are. |
| `Text.LeadingWhitespace` | src/App.js:21 | The part of the input that `trim` cuts off at the start: the first n characters are all whitespace and the next one, if any, is not. |
| `Text.TrailingWhitespace` | src/App.js:21 | The part that `trim` cuts off at the end: the last n characters are all whitespace and the one before them, if any, is not. |
| `Text.Trim` | src/App.js:21 | `part.trim()` is a trimmed infix of the input with only whitespace cut off on either side. |
| `Text.TrimCharacterized` | src/App.js:21 | `trim` is determined by that description: whitespace around a trimmed string trims away to exactly that string. |
| `Text.TrimIdempotent` | src/App.js:21 | Trimming twice is the same as trimming once. |
| `Text.TrimKeepsNonWhitespace` | src/App.js:21 | `trim` keeps every non-whitespace character: such a character occurs in the result iff it occurs in the input. |
| `Text.Split` | src/App.js:21 | `split("&")` yields one more piece than the input has separators (so at least one), and no piece contains the separator. |
| `Text.SplitAt` | src/App.js:21 | The first separator ends the first piece; the rest is split on its own. Adjacent separators therefore give empty pieces. |
| `Text.JoinSplit` | src/App.js:21 | Joining the pieces of a split with the separator gives back the original string. |
| `Text.CountJoin` | src/App.js:21 | In a join of separator-free pieces, every separator comes from a joiner: (pieces − 1) × the joiner's own count. |
| `Text.Join` | src/App.js:21 | `join(joiner)` gives `""` for no pieces; otherwise the result starts with the first piece and ends with the last. `Text.JoinSplit` and `Text.CountJoin` carry the round trip with `split` and the separator count. |
| `Credits.FormatNamesWithAmpersand` | src/App.js:18-22 | `formatNamesWithAmpersand(names)`: the trimmed `&`-pieces joined with `"  &  "`. The output holds exactly as many `&` as the input. The lemmas below state where those ampersands sit and what lies between them. |
| `Credits.FormatAmpersandsInJoiners` | src/App.js:18-22 | Every `&` of the output is the middle of a `"  &  "` joiner. |
| `Credits.FormatSegments` | src/App.js:18-22 | Splitting the output on `&` gives as many segments as the input has. Segment i is the trimmed i-th input segment padded only by the joiners' two spaces, and it trims to that same trimmed segment. |
| `Credits.SplitJoined` | src/App.js:21 | Splitting a `"  &  "`-join of ampersand-free pieces on `&` recovers each piece with its padding. |
| `Credits.FormatWithoutAmpersand` | src/App.js:18-22 | Input without `&` is only trimmed, so `""` maps to `""`. |
| `Credits.FormatIdempotent` | src/App.js:18-22 | Formatting the formatted credits again changes nothing. |
| `PdfFileName.CollapseWhitespace` | src/App.js:140 | `replace(/\s+/g, "_")` leaves no whitespace and never lengthens the name. |
| `PdfFileName.FileName` | src/App.js:140 | The file name is `Invitation_`, then the invitee name with every whitespace run replaced by one `_`, then `.pdf`. It therefore contains no whitespace anywhere and is never longer than the prefix, the name and the suffix together. |
| `PdfFileName.FileNameOfPlainName` | src/App.js:140 | A name without whitespace appears in the file name exactly as typed. |
| `PdfFileName.CollapseConcat` | src/App.js:140 | A name cut just after a non-whitespace character is replaced piece by piece: no match of `/\s+/` spans the cut. |
| `PdfFileName.CollapseRun` | src/App.js:140 | A maximal run of whitespace of any length, between non-whitespace neighbours, becomes exactly one `_`, and each side is replaced independently. |
| `PdfFileName.CollapseMatchesScan` | src/App.js:140 | The run-based replacement equals an independent character-by-character scan. The scan turns the first whitespace character of a run into `_`, drops the rest of the run and copies everything else. |
| `PdfFileName.CollapseIdentity` | src/App.js:140 | The name passes through unchanged iff it contains no whitespace. |
| `PdfFileName.CollapseKeepsVisible` | src/App.js:140 | Every character other than whitespace and `_` is kept, in order. |
| `PageFit.FitToPage` | src/App.js:119-137 | For positive sizes the image lies within the page and keeps the canvas's aspect ratio. A relatively wider canvas gets the full page width and x offset 0; any other canvas gets the full page height and y offset 0. On both axes `2·offset + size = page size` with offset ≥ 0, and no larger scale would fit. |
| `PageFit.FitA4Example` | src/App.js:119-137 | A 1500×2100 canvas on a 210×297 page is placed at 210×294 with offsets 0 and 1.5. |
| `InvitationForm.Update` | src/App.js:68 | `update(k, v)` sets key k to v, adds k if it was missing, and leaves every other key as it was. |
| `InvitationForm.WithFullFamily` | src/App.js:356-363 | Setting a full-family box gives the box the new value. Ticking it empties that column's text; clearing it keeps the text. The other column and the occasion, date and time stay unchanged. The ladies box at lines 319-325 follows the same rule. |
| `InvitationForm.SetFullFamily` | src/App.js:319-325 | The checkbox handler changes exactly the chosen entry object, as `WithFullFamily` describes. Every other entry object is untouched, and when the program's entries are distinct objects, so is the entry at every other index. The form it passes to `update` equals the old one, because the copied list shares the entries. The gents box at lines 356-363 follows the same rule. |
| `InvitationForm.WithAttendance` | src/App.js:375-379 | Editing a column's text sets only that text; the boxes, the other column and the other fields are unchanged. The ladies input at lines 338-341 follows the same rule. |
| `InvitationForm.SetAttendance` | src/App.js:338-341 | The text handler changes only that text of the chosen entry object and leaves every other entry object and form key alone; with distinct entries, the entry at every other index is untouched. The gents input at lines 375-379 follows the same rule. |
| `InvitationForm.FullFamilyKeepsConsistent` | src/App.js:319-325 | Setting a box keeps an entry consistent, meaning a ticked box goes with an empty text. |
| `InvitationForm.AttendanceKeepsConsistent` | src/App.js:333-343 | Editing a text keeps an entry consistent when the box is clear. The input is rendered only while the box is clear. |
| `InvitationForm.RowCells` | src/App.js:486-498 | A row shows one merged "Full Family" cell iff either box is ticked. Otherwise a non-empty text is shown (in bold) as it is and an empty text shows the dots `........`, except that an empty ladies text for "With Baraat" shows nothing. |
| `InvitationForm.CellsNeverBlank` | src/App.js:486-498 | A gents cell, and a ladies cell outside "With Baraat", is never blank, and shows the dots exactly when the text is empty. A "With Baraat" ladies cell is blank exactly when its text is empty. A shown text is the entry's own, non-empty text. |
| `InvitationForm.TickShowsFullFamilyCell` | src/App.js:486-489 | After either box is ticked, the entry's row is the merged "Full Family" cell and the ticked column's text is empty. |
| `InvitationForm.StartsWith` | src/App.js:72 | `s.startsWith(prefix)` holds iff `s` is `prefix` followed by some rest. |
| `InvitationForm.HandleQrUpload` | src/App.js:70-81 | With no file nothing changes and no alert is shown. An `image/` file becomes the QR image. Any other file brings up the alert and leaves the form unchanged. An alert appears iff a non-image file was chosen, and no key other than `qrImage` ever changes. |
| `InvitationForm.InitialForm` | src/App.js:29-63 | The initial form has its fourteen keys, the invitee "Dear Guest" and no QR image. It holds two fresh program entries that are distinct objects, each with both boxes clear and consistent. |
| `InvitationForm.Entry.constructor` | src/App.js:37-45 | A new program entry has empty attendance texts and both boxes clear. |

## Left out

- `formatDate` (`src/App.js:7-16`) depends on `Date` parsing and the locale-dependent `toLocaleDateString`. It is not modelled.
- The DOM work of `downloadPDF` is not modelled: showing the card, the 250 ms wait, saving, overriding and restoring `overflow`, `height` and `boxShadow`, `scrollHeight`, and the animation-frame wait. This is browser I/O and timing. The restore runs only on the success path, so a model could not claim a restore after a failure in any case.
- `html2canvas`, `canvas.toDataURL`, `jsPDF` (page size, `addImage`, `save`) and the 3× capture scale are foreign library calls. The canvas and page sizes are inputs to `PageFit.FitToPage`, and the file name is the value `PdfFileName.FileName` returns.
- PageFit.FitToPage: requires positive canvas and page sizes. A 0×0 canvas makes the aspect ratio `NaN`, and a canvas of zero height makes it infinite. A canvas of zero width and positive height gives ratio 0 and a degenerate placement with `imgWidth` 0 and `xOffset` half the page width. None of these cases is modelled. Sizes are exact reals, so floating-point rounding is not modelled either.
- The early `return` when the card element is still missing after the wait (`src/App.js:93-94`), the `catch` branch with its `console.error` and `alert` (`src/App.js:145-148`), and the `alert` text itself are I/O and are not modelled. The QR alert text appears only as the constant `RejectMessage`.
- InvitationForm.HandleQrUpload: an accepted image reaches the form immediately, with the data URL given as part of the file. The source reads the file asynchronously with `FileReader` and calls `update` from `onload`, so the ordering against other updates and a failing read are not modelled.
- InvitationForm.SetFullFamily: a JavaScript array's identity is not modelled. The source hands React a new array holding the same entries, while Dafny compares sequences by value, so the model's returned form equals the old one.
- The groom and bride inputs (`update("couple", {...form.couple, ...})`) and the other text inputs are plain calls of `update`, which `InvitationForm.Update` covers. Their JSX and the rest of the layout and CSS are not modelled.
- React's `useState`/`setForm` scheduling, `showCard` and the ref plumbing are not modelled.
