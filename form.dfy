/** The invitation form's state and the rules that change or display it:
    the `update` reducer, the program-entry handlers (full-family boxes and
    attendance text), the row the card shows for an entry, and the QR image
    upload. */
module InvitationForm {

  datatype Option<T> = None | Some(value: T)

  /** The two attendance columns of a program entry. */
  datatype Column = Ladies | Gents {
    function Other(): Column {
      if this == Ladies then Gents else Ladies
    }
  }

  /** The fields of one program entry, as a value. */
  datatype EntryView = EntryView(
    occasion: string, date: string, time: string,
    ladies: string, gents: string,
    ladiesFullFamily: bool, gentsFullFamily: bool)
  {
    function Attendance(col: Column): string {
      if col == Ladies then ladies else gents
    }

    function FullFamily(col: Column): bool {
      if col == Ladies then ladiesFullFamily else gentsFullFamily
    }

    /** A ticked full-family box goes with an empty attendance text. */
    predicate Consistent() {
      (ladiesFullFamily ==> ladies == "") && (gentsFullFamily ==> gents == "")
    }
  }

  /** One row of the program; the handlers change its fields in place. */
  class Entry {
    var occasion: string
    var date: string
    var time: string
    var ladies: string
    var gents: string
    var ladiesFullFamily: bool
    var gentsFullFamily: bool

    /** An entry as the initial form writes it: no attendance text, no box
        ticked. */
    constructor (occasion: string, date: string, time: string)
      ensures View() == EntryView(occasion, date, time, "", "", false, false)
      ensures View().Consistent()
    {
      this.occasion, this.date, this.time := occasion, date, time;
      ladies, gents := "", "";
      ladiesFullFamily, gentsFullFamily := false, false;
    }

    function View(): EntryView
      reads this
    {
      EntryView(occasion, date, time, ladies, gents, ladiesFullFamily, gentsFullFamily)
    }
  }

  /** What the form holds under one key. */
  datatype Value =
    | TextValue(text: string)
    | Couple(groom: string, bride: string)
    | Program(entries: seq<Entry>)
    | QrImage(dataUrl: Option<string>)

  /** The form object, keyed by property name. */
  type Form = map<string, Value>

  const ProgramKey: string := "program"
  const QrImageKey: string := "qrImage"

  /** `update(k, v)`: `{...f, [k]: v}`. */
  function Update(form: Form, key: string, v: Value): (r: Form)
    ensures key in r && r[key] == v
    ensures r.Keys == form.Keys + {key}
    ensures forall k :: k in form && k != key ==> r[k] == form[k]
  {
    form[key := v]
  }

  /** The form holds a program with an entry at `progIndex`. */
  predicate HasEntry(form: Form, progIndex: nat) {
    ProgramKey in form && form[ProgramKey].Program? && progIndex < |form[ProgramKey].entries|
  }

  /** The program's entries are distinct objects, as the object literals
      that build it are. */
  predicate DistinctEntries(form: Form) {
    ProgramKey in form && form[ProgramKey].Program? ==>
      var es := form[ProgramKey].entries;
      forall i, j :: 0 <= i < j < |es| ==> es[i] != es[j]
  }

  // ---- Program entry handlers ----

  /** The entry after its full-family box for `col` is set to `checked`. */
  function WithFullFamily(v: EntryView, col: Column, checked: bool): (r: EntryView)
    ensures r.FullFamily(col) == checked
    ensures checked ==> r.Attendance(col) == ""
    ensures !checked ==> r.Attendance(col) == v.Attendance(col)
    ensures r.FullFamily(col.Other()) == v.FullFamily(col.Other())
    ensures r.Attendance(col.Other()) == v.Attendance(col.Other())
    ensures r.occasion == v.occasion && r.date == v.date && r.time == v.time
  {
    match col
    case Ladies => v.(ladiesFullFamily := checked, ladies := if checked then "" else v.ladies)
    case Gents => v.(gentsFullFamily := checked, gents := if checked then "" else v.gents)
  }

  /** The entry after the attendance text for `col` is edited to `text`. */
  function WithAttendance(v: EntryView, col: Column, text: string): (r: EntryView)
    ensures r.Attendance(col) == text
    ensures r.Attendance(col.Other()) == v.Attendance(col.Other())
    ensures r.FullFamily(Ladies) == v.FullFamily(Ladies) && r.FullFamily(Gents) == v.FullFamily(Gents)
    ensures r.occasion == v.occasion && r.date == v.date && r.time == v.time
  {
    match col
    case Ladies => v.(ladies := text)
    case Gents => v.(gents := text)
  }

  /** The change handler of a full-family checkbox. The handler copies the
      program list, but the copy holds the same entry objects, so the entry
      is changed in place and the form passed to `update` holds the same
      program as before. */
  method SetFullFamily(form: Form, progIndex: nat, col: Column, checked: bool) returns (r: Form)
    requires HasEntry(form, progIndex)
    modifies form[ProgramKey].entries[progIndex]
    ensures var e := form[ProgramKey].entries[progIndex];
      e.View() == WithFullFamily(old(e.View()), col, checked)
    ensures var es := form[ProgramKey].entries;
      forall j :: 0 <= j < |es| && es[j] != es[progIndex] ==> es[j].View() == old(es[j].View())
    ensures DistinctEntries(form) ==> var es := form[ProgramKey].entries;
      forall j :: 0 <= j < |es| && j != progIndex ==> es[j].View() == old(es[j].View())
    ensures r == form
  {
    var newProgram := form[ProgramKey].entries;
    var e := newProgram[progIndex];
    if col == Ladies {
      e.ladiesFullFamily := checked;
      if checked {
        e.ladies := "";
      }
    } else {
      e.gentsFullFamily := checked;
      if checked {
        e.gents := "";
      }
    }
    r := Update(form, ProgramKey, Program(newProgram));
    assert r == form;
  }

  /** The change handler of an attendance text input, changing the entry in
      place like `SetFullFamily`. */
  method SetAttendance(form: Form, progIndex: nat, col: Column, text: string) returns (r: Form)
    requires HasEntry(form, progIndex)
    modifies form[ProgramKey].entries[progIndex]
    ensures var e := form[ProgramKey].entries[progIndex];
      e.View() == WithAttendance(old(e.View()), col, text)
    ensures var es := form[ProgramKey].entries;
      forall j :: 0 <= j < |es| && es[j] != es[progIndex] ==> es[j].View() == old(es[j].View())
    ensures DistinctEntries(form) ==> var es := form[ProgramKey].entries;
      forall j :: 0 <= j < |es| && j != progIndex ==> es[j].View() == old(es[j].View())
    ensures r == form
  {
    var newProgram := form[ProgramKey].entries;
    var e := newProgram[progIndex];
    if col == Ladies {
      e.ladies := text;
    } else {
      e.gents := text;
    }
    r := Update(form, ProgramKey, Program(newProgram));
    assert r == form;
  }

  /** Ticking or clearing a full-family box keeps an entry consistent. */
  lemma FullFamilyKeepsConsistent(v: EntryView, col: Column, checked: bool)
    requires v.Consistent()
    ensures WithFullFamily(v, col, checked).Consistent()
  {
  }

  /** Editing the text of a column whose box is clear keeps an entry
      consistent; the text input is only shown while the box is clear. */
  lemma AttendanceKeepsConsistent(v: EntryView, col: Column, text: string)
    requires v.Consistent() && !v.FullFamily(col)
    ensures WithAttendance(v, col, text).Consistent()
  {
  }

  // ---- The row the card shows for an entry ----

  const WithBaraat: string := "With Baraat"

  /** What one attendance cell shows: the entry's text in bold, the
      placeholder dots `........`, or nothing. */
  datatype Cell = Shown(text: string) | Dots | Blank

  /** The attendance part of a program row: either one "Full Family" cell
      spanning both columns, or one cell per column. */
  datatype Row = FullFamilyCell | Cells(ladies: Cell, gents: Cell)

  /** Either box merges the two columns into one "Full Family" cell.
      Otherwise a column shows its text, or dots when the text is empty,
      except that an empty ladies column of the occasion "With Baraat"
      stays blank. */
  function RowCells(v: EntryView): (r: Row)
    ensures r.FullFamilyCell? <==> v.ladiesFullFamily || v.gentsFullFamily
    ensures r.Cells? && v.ladies != "" ==> r.ladies == Shown(v.ladies)
    ensures r.Cells? && v.gents != "" ==> r.gents == Shown(v.gents)
    ensures r.Cells? && v.ladies == "" ==> r.ladies == (if v.occasion == WithBaraat then Blank else Dots)
    ensures r.Cells? && v.gents == "" ==> r.gents == Dots
  {
    if v.ladiesFullFamily || v.gentsFullFamily then FullFamilyCell
    else
      var ladiesCell :=
        if v.occasion == WithBaraat then (if v.ladies != "" then Shown(v.ladies) else Blank)
        else (if v.ladies != "" then Shown(v.ladies) else Dots);
      Cells(ladiesCell, if v.gents != "" then Shown(v.gents) else Dots)
  }

  /** A gents cell, and a ladies cell of any occasion but "With Baraat", is
      never blank: it shows the entry's text or the dots, and the dots
      exactly when the text is empty. A shown text is never empty. */
  lemma CellsNeverBlank(v: EntryView)
    requires !v.ladiesFullFamily && !v.gentsFullFamily
    ensures RowCells(v).gents != Blank
    ensures RowCells(v).gents == Dots <==> v.gents == ""
    ensures v.occasion != WithBaraat ==> RowCells(v).ladies != Blank
    ensures v.occasion != WithBaraat ==> (RowCells(v).ladies == Dots <==> v.ladies == "")
    ensures v.occasion == WithBaraat ==> (RowCells(v).ladies == Blank <==> v.ladies == "")
    ensures RowCells(v).ladies.Shown? ==> RowCells(v).ladies.text == v.ladies && v.ladies != ""
    ensures RowCells(v).gents.Shown? ==> RowCells(v).gents.text == v.gents && v.gents != ""
  {
  }

  /** Ticking either full-family box makes the row one merged cell. */
  lemma TickShowsFullFamilyCell(v: EntryView, col: Column)
    ensures RowCells(WithFullFamily(v, col, true)) == FullFamilyCell
    ensures WithFullFamily(v, col, true).Attendance(col) == ""
  {
  }

  // ---- QR image upload ----

  /** The file chosen in the QR picker: its MIME type and the data URL a
      `FileReader` would produce for it. */
  datatype File = File(mimeType: string, dataUrl: string)

  const RejectMessage: string := "Please select a valid image file for the QR code."

  /** JavaScript `s.startsWith(prefix)`. */
  predicate StartsWith(s: string, prefix: string)
    ensures StartsWith(s, prefix) <==> exists rest :: s == prefix + rest
  {
    if |prefix| <= |s| && s[..|prefix|] == prefix then
      assert s == prefix + s[|prefix|..];
      true
    else
      false
  }

  predicate IsImage(file: File) {
    StartsWith(file.mimeType, "image/")
  }

  /** `handleQRUpload`: the new form and the alert shown, if any. No file
      changes nothing; an image file becomes the QR image; any other file
      is refused with an alert and changes nothing. */
  function HandleQrUpload(form: Form, file: Option<File>): (r: (Form, Option<string>))
    ensures r.1.Some? <==> file.Some? && !IsImage(file.value)
    ensures r.1.Some? ==> r.1.value == RejectMessage
    ensures file.Some? && IsImage(file.value) ==>
      QrImageKey in r.0 && r.0[QrImageKey] == QrImage(Some(file.value.dataUrl))
    ensures !(file.Some? && IsImage(file.value)) ==> r.0 == form
    ensures r.0.Keys <= form.Keys + {QrImageKey}
    ensures forall k :: k in form && k != QrImageKey ==> k in r.0 && r.0[k] == form[k]
  {
    match file
    case None => (form, None)
    case Some(f) =>
      if StartsWith(f.mimeType, "image/") then
        (Update(form, QrImageKey, QrImage(Some(f.dataUrl))), None)
      else
        (form, Some(RejectMessage))
  }

  // ---- Initial state ----

  /** The form as the page first shows it. */
  method InitialForm() returns (form: Form)
    ensures form.Keys == {
      "inviteeName", "address", "date", "venue", "hosts", "couple", ProgramKey,
      "rsvp1", "rsvp2", "lunchNotes", "programNote", "bestComplimentsFrom",
      "qrText", QrImageKey}
    ensures form["inviteeName"] == TextValue("Dear Guest")
    ensures form[QrImageKey] == QrImage(None)
    ensures form[ProgramKey].Program? && |form[ProgramKey].entries| == 2
    ensures form[ProgramKey].entries[0] != form[ProgramKey].entries[1]
    ensures DistinctEntries(form)
    ensures forall i :: 0 <= i < 2 ==>
      var e := form[ProgramKey].entries[i];
      fresh(e) && e.View().Consistent() && !e.ladiesFullFamily && !e.gentsFullFamily
  {
    var first := new Entry("Masnandnishini", "Tuesday 07th Oct, 2025", "4:00 PM");
    var second := new Entry("Walima", "Wednesday 08th Oct, 2025", "2:00 PM");
    form := map[
      "inviteeName" := TextValue("Dear Guest"),
      "address" := TextValue(""),
      "date" := TextValue("2025-10-07"),
      "venue" := TextValue("Syed Colony Habak Naseem Bagh Srinagar"),
      "hosts" := TextValue("Mrs. & Mr. Ghulam Rasool Baba"),
      "couple" := Couple("Nadeem Baba", "Bride Name"),
      ProgramKey := Program([first, second]),
      "rsvp1" := TextValue("9596808961"),
      "rsvp2" := TextValue("8082514748"),
      "lunchNotes" := TextValue("Lunch will be served first to gents at 2:00 PM sharp & to ladies thereafter"),
      "programNote" := TextValue("as per the following programme (In Sha Allah)"),
      "bestComplimentsFrom" := TextValue("All Nears And Dears"),
      "qrText" := TextValue("Scan For Location"),
      QrImageKey := QrImage(None)];
  }
}
