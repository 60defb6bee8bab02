/**
 * The student-facing notes page: the `notesUploads` list newest first, a
 * search over name, category and uploader, and department and year filters
 * whose initial choice "All" passes everything.
 */
module NotesPage {
  import opened Wrappers
  import opened Records
  import opened LocalStore
  import opened Sequences
  import opened Sorting
  import opened Text

  /**
   * The test of `filteredNotes`: the lower-cased search text (not trimmed)
   * occurs in the name, the category or the uploader, and the department and
   * year equal the filters unless those are "All".
   */
  predicate NoteMatches(n: Upload, search: string, dept: string, year: string) {
    var q := Lower(search);
    && (Contains(Lower(n.name), q) || Contains(Lower(n.category), q) || Contains(Lower(n.uploader), q))
    && (dept == "All" || n.department == dept)
    && (year == "All" || n.year == year)
  }

  function MatchTest(search: string, dept: string, year: string): Upload -> bool {
    n => NoteMatches(n, search, dept, year)
  }

  /** `filteredNotes`: the notes passing the test, in list order. */
  function Visible(notes: seq<Upload>, search: string, dept: string, year: string): (r: seq<Upload>)
    ensures IsSubseq(r, notes)
    ensures forall i | 0 <= i < |r| :: r[i] in notes && NoteMatches(r[i], search, dept, year)
    ensures forall i | 0 <= i < |notes| && NoteMatches(notes[i], search, dept, year) :: notes[i] in r
    ensures multiset(r) <= multiset(notes)
    ensures forall i | 0 <= i < |notes| ::
      multiset(r)[notes[i]] == if NoteMatches(notes[i], search, dept, year) then multiset(notes)[notes[i]] else 0
  {
    FilterMultiset(notes, MatchTest(search, dept, year));
    Filter(notes, MatchTest(search, dept, year))
  }

  /** The initial state of the controls (empty search, "All", "All") displays every note. */
  lemma InitialFiltersShowAll(notes: seq<Upload>)
    ensures Visible(notes, "", "All", "All") == notes
  {
    forall n | n in notes ensures NoteMatches(n, "", "All", "All") {
      ContainsEmpty(Lower(n.name));
    }
    FilterKeepsAll(notes, MatchTest("", "All", "All"));
  }

  /** A search text longer than every name, category and uploader displays nothing. */
  lemma LongSearchShowsNothing(notes: seq<Upload>, search: string, dept: string, year: string)
    requires forall i | 0 <= i < |notes| ::
               |notes[i].name| < |search| && |notes[i].category| < |search| && |notes[i].uploader| < |search|
    ensures Visible(notes, search, dept, year) == []
  {
    var r := Visible(notes, search, dept, year);
    if r != [] {
      var n := r[0];
      var k :| 0 <= k < |notes| && notes[k] == n;
      NotContainsLonger(Lower(n.name), Lower(search));
      NotContainsLonger(Lower(n.category), Lower(search));
      NotContainsLonger(Lower(n.uploader), Lower(search));
      assert false;
    }
  }

  /** The displayed notes of the sorted list are newest first too. */
  lemma VisibleNewestFirst(notes: seq<Upload>, search: string, dept: string, year: string)
    requires NewestFirst(notes)
    ensures NewestFirst(Visible(notes, search, dept, year))
  {
    SubseqKeepsNewestFirst(Visible(notes, search, dept, year), notes);
  }

  class Page {
    const store: Store<Upload>
    var notes: seq<Upload>

    /** Mount: `loadNotes()`. */
    constructor (store: Store<Upload>)
      requires store.Load(NOTES_KEY).Some?
      ensures this.store == store
      ensures notes == SortNewestFirst(store.Load(NOTES_KEY).value)
    {
      this.store := store;
      notes := SortNewestFirst(store.Load(NOTES_KEY).value);
    }

    /** `loadNotes`: the slot read (throwing on undecodable text) and sorted newest first. */
    method LoadNotes()
      requires store.Load(NOTES_KEY).Some?
      modifies this`notes
      ensures notes == SortNewestFirst(store.Load(NOTES_KEY).value)
      ensures NewestFirst(notes) && multiset(notes) == multiset(store.Load(NOTES_KEY).value)
    {
      notes := SortNewestFirst(store.Load(NOTES_KEY).value);
    }

    /** The storage listener: only a `notesUploads` event reloads; keyless events are ignored. */
    method OnStorage(eventKey: Option<string>)
      requires ForKey(eventKey, NOTES_KEY) ==> store.Load(NOTES_KEY).Some?
      modifies this`notes
      ensures ForKey(eventKey, NOTES_KEY) ==> notes == SortNewestFirst(store.Load(NOTES_KEY).value)
      ensures !ForKey(eventKey, NOTES_KEY) ==> notes == old(notes)
    {
      if eventKey == Some(NOTES_KEY) {
        LoadNotes();
      }
    }
  }
}
