/**
 * The admin page for the `notesUploads` collection: newest-first loading,
 * upload with a size ceiling and a collection cap (new notes go first), and
 * delete by position.
 */
module ManageNotes {
  import opened Wrappers
  import opened Records
  import opened LocalStore
  import opened Sequences
  import opened Sorting

  /** The largest accepted file, 5 MiB. */
  const MAX_FILE_SIZE: nat := 5 * 1024 * 1024
  /** The most notes the slot may hold. */
  const NOTE_CAP: nat := 100

  /** The toast a handler shows. */
  datatype Toast = FillAllFields | FileTooLarge | LimitReached | NoteUploaded | NoteDeleted

  /**
   * The admission checks of `handleUpload`, in the order the code makes them:
   * every field filled, the file at most 5 MiB, fewer than 100 notes stored.
   */
  function UploadCheck(f: UploadForm, stored: nat): (t: Toast)
    ensures t == NoteUploaded <==> !MissingField(f) && f.file.value.size <= MAX_FILE_SIZE && stored < NOTE_CAP
    ensures t == NoteUploaded ==> stored + 1 <= NOTE_CAP
    ensures t in {FillAllFields, FileTooLarge, LimitReached, NoteUploaded}
  {
    if MissingField(f) then FillAllFields
    else if f.file.value.size > MAX_FILE_SIZE then FileTooLarge
    else if stored >= NOTE_CAP then LimitReached
    else NoteUploaded
  }

  /** The ceiling is inclusive: a file of exactly 5 MiB passes, one byte more does not. */
  lemma SizeCeilingInclusive(f: UploadForm, stored: nat)
    requires !MissingField(f) && stored < NOTE_CAP
    ensures f.file.value.size == 5 * 1024 * 1024 ==> UploadCheck(f, stored) == NoteUploaded
    ensures f.file.value.size == 5 * 1024 * 1024 + 1 ==> UploadCheck(f, stored) == FileTooLarge
  {
  }

  /** The department/year test of `filteredNotes`; "All" passes everything. */
  predicate Shown(n: Upload, dept: string, year: string) {
    (dept == "All" || n.department == dept) && (year == "All" || n.year == year)
  }

  function ShownTest(dept: string, year: string): Upload -> bool {
    n => Shown(n, dept, year)
  }

  /** `filteredNotes`: the notes passing the test, in list order. */
  function Visible(notes: seq<Upload>, dept: string, year: string): (r: seq<Upload>)
    ensures IsSubseq(r, notes)
    ensures forall i | 0 <= i < |r| :: r[i] in notes && Shown(r[i], dept, year)
    ensures forall i | 0 <= i < |notes| && Shown(notes[i], dept, year) :: notes[i] in r
    ensures multiset(r) <= multiset(notes)
    ensures forall i | 0 <= i < |notes| ::
      multiset(r)[notes[i]] == if Shown(notes[i], dept, year) then multiset(notes)[notes[i]] else 0
  {
    FilterMultiset(notes, ShownTest(dept, year));
    Filter(notes, ShownTest(dept, year))
  }

  /** The initial filters ("All", "All") display every note. */
  lemma AllShowsAll(notes: seq<Upload>)
    ensures Visible(notes, "All", "All") == notes
  {
    FilterKeepsAll(notes, ShownTest("All", "All"));
  }

  /**
   * The Delete buttons pass the position in `filteredNotes`, but `handleDelete`
   * splices the unfiltered list: with the department filter on "BSc" the only
   * displayed note is the BSc one, yet its button (row 0) deletes `notes[0]`.
   */
  lemma RowIndexMismatch()
    ensures var ba := Upload("a.pdf", "Math", "A", "BA", "1st Year", "", "", None);
            var bsc := Upload("b.pdf", "Math", "B", "BSc", "1st Year", "", "", None);
            && Visible([ba, bsc], "BSc", "All") == [bsc]
            && ExceptIndex([ba, bsc], 0) == [bsc]
  {
    var ba := Upload("a.pdf", "Math", "A", "BA", "1st Year", "", "", None);
    var bsc := Upload("b.pdf", "Math", "B", "BSc", "1st Year", "", "", None);
    assert !Shown(ba, "BSc", "All") && Shown(bsc, "BSc", "All");
    assert [ba, bsc][1..] == [bsc];
    assert [bsc][1..] == [];
  }

  /** The intended target of a Delete button: the list position of the note displayed at `row`. */
  function IndexOfRow(notes: seq<Upload>, dept: string, year: string, row: nat): (k: nat)
    requires row < |Visible(notes, dept, year)|
    ensures k < |notes| && notes[k] == Visible(notes, dept, year)[row]
    ensures |Visible(notes[..k], dept, year)| == row
  {
    SourceIndex(notes, ShownTest(dept, year), row)
  }

  class Page {
    const store: Store<Upload>
    var notes: seq<Upload>
    var form: UploadForm
    var filterDept: string
    var filterYear: string
    var toast: Option<Toast>

    /** Mount: `loadNotes()`, which throws on undecodable text. */
    constructor (store: Store<Upload>)
      requires store.Load(NOTES_KEY).Some?
      ensures this.store == store
      ensures notes == SortNewestFirst(store.Load(NOTES_KEY).value)
      ensures form == EMPTY_FORM && filterDept == "All" && filterYear == "All" && toast == None
    {
      this.store := store;
      notes := SortNewestFirst(store.Load(NOTES_KEY).value);
      form := EMPTY_FORM;
      filterDept, filterYear := "All", "All";
      toast := None;
    }

    /** `loadNotes`: the slot's notes, newest first. */
    method LoadNotes()
      requires store.Load(NOTES_KEY).Some?
      modifies this`notes
      ensures NewestFirst(notes)
      ensures multiset(notes) == multiset(store.Load(NOTES_KEY).value)
      ensures notes == SortNewestFirst(store.Load(NOTES_KEY).value)
    {
      notes := SortNewestFirst(store.Load(NOTES_KEY).value);
    }

    /** The storage listener: a keyless event or one for `notesUploads` reloads. */
    method OnStorage(eventKey: Option<string>)
      requires ForKeyOrUnkeyed(eventKey, NOTES_KEY) ==> store.Load(NOTES_KEY).Some?
      modifies this`notes
      ensures ForKeyOrUnkeyed(eventKey, NOTES_KEY) ==> notes == SortNewestFirst(store.Load(NOTES_KEY).value)
      ensures !ForKeyOrUnkeyed(eventKey, NOTES_KEY) ==> notes == old(notes)
    {
      if ForKeyOrUnkeyed(eventKey, NOTES_KEY) {
        LoadNotes();
      }
    }

    /** `handleDelete(index)`: `splice(index, 1)` on a copy of the view list, then written to the slot. */
    method HandleDelete(index: nat)
      modifies this`notes, this`toast, store
      ensures notes == ExceptIndex(old(notes), index)
      ensures store.slots == old(store.slots)[NOTES_KEY := Records(notes)]
      ensures toast == Some(NoteDeleted)
    {
      var updated := ExceptIndex(notes, index);
      store.Save(NOTES_KEY, updated);
      notes := updated;
      toast := Some(NoteDeleted);
    }

    /** The Delete button of displayed row `row`, wired to the note that row shows. */
    method DeleteShown(row: nat)
      requires row < |Visible(notes, filterDept, filterYear)|
      modifies this`notes, this`toast, store
      ensures var k := IndexOfRow(old(notes), filterDept, filterYear, row);
              old(notes)[k] == Visible(old(notes), filterDept, filterYear)[row] &&
              notes == ExceptIndex(old(notes), k)
      ensures store.slots == old(store.slots)[NOTES_KEY := Records(notes)]
      ensures toast == Some(NoteDeleted)
    {
      HandleDelete(IndexOfRow(notes, filterDept, filterYear, row));
    }

    /**
     * `handleUpload` with the file already read into `payload`. The checks run
     * in order; the cap is checked against what the slot holds now. An
     * accepted note goes first, and only then is the form cleared.
     */
    method HandleUpload(payload: string, nowText: string, nowTs: int)
      requires MissingField(form) || form.file.value.size > MAX_FILE_SIZE || store.Load(NOTES_KEY).Some?
      modifies this`notes, this`form, this`toast, store
      ensures toast == Some(UploadCheck(old(form), |old(store.Load(NOTES_KEY)).GetOr([])|))
      ensures toast != Some(NoteUploaded) ==>
                notes == old(notes) && form == old(form) && store.slots == old(store.slots)
      ensures toast == Some(NoteUploaded) ==>
                notes == [NewUpload(old(form), payload, nowText, nowTs)] + old(store.Load(NOTES_KEY)).value &&
                |notes| <= NOTE_CAP &&
                store.slots == old(store.slots)[NOTES_KEY := Records(notes)] &&
                form == EMPTY_FORM
    {
      if MissingField(form) {
        toast := Some(FillAllFields);
        return;
      }
      if form.file.value.size > MAX_FILE_SIZE {
        toast := Some(FileTooLarge);
        return;
      }
      var newNote := NewUpload(form, payload, nowText, nowTs);
      var existingNotes := store.Load(NOTES_KEY).value;
      if |existingNotes| >= NOTE_CAP {
        toast := Some(LimitReached);
        return;
      }
      var updatedNotes := [newNote] + existingNotes;
      store.Save(NOTES_KEY, updatedNotes);
      notes := updatedNotes;
      form := EMPTY_FORM;
      toast := Some(NoteUploaded);
    }
  }
}
