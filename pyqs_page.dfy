/**
 * The student-facing previous-year-papers page: the `pyqsUploads` list in
 * stored order, a search over name and category, and exact department and
 * year filters that are off while empty.
 */
module PYQsPage {
  import opened Wrappers
  import opened Records
  import opened LocalStore
  import opened Sequences
  import opened Text

  /** The search part of `filtered`: an empty search passes, otherwise it occurs in the name or category, ignoring case. */
  predicate SearchMatches(p: Upload, search: string) {
    search == "" || Contains(Lower(p.name), Lower(search)) || Contains(Lower(p.category), Lower(search))
  }

  /** The department and year part of `filtered`: each filter is exact, and off while empty. */
  predicate PlaceMatches(p: Upload, dept: string, year: string) {
    (dept == "" || p.department == dept) && (year == "" || p.year == year)
  }

  predicate PaperMatches(p: Upload, search: string, dept: string, year: string) {
    SearchMatches(p, search) && PlaceMatches(p, dept, year)
  }

  function SearchTest(search: string): Upload -> bool {
    p => SearchMatches(p, search)
  }

  function PlaceTest(dept: string, year: string): Upload -> bool {
    p => PlaceMatches(p, dept, year)
  }

  function MatchTest(search: string, dept: string, year: string): Upload -> bool {
    p => PaperMatches(p, search, dept, year)
  }

  /** `filtered`: the papers passing the test, in list order. */
  function Visible(pyqs: seq<Upload>, search: string, dept: string, year: string): (r: seq<Upload>)
    ensures IsSubseq(r, pyqs)
    ensures forall i | 0 <= i < |r| :: r[i] in pyqs && PaperMatches(r[i], search, dept, year)
    ensures forall i | 0 <= i < |pyqs| && PaperMatches(pyqs[i], search, dept, year) :: pyqs[i] in r
    ensures multiset(r) <= multiset(pyqs)
    ensures forall i | 0 <= i < |pyqs| ::
      multiset(r)[pyqs[i]] == if PaperMatches(pyqs[i], search, dept, year) then multiset(pyqs)[pyqs[i]] else 0
  {
    FilterMultiset(pyqs, MatchTest(search, dept, year));
    Filter(pyqs, MatchTest(search, dept, year))
  }

  /** With every control empty the whole list is displayed. */
  lemma NoFiltersShowAll(pyqs: seq<Upload>)
    ensures Visible(pyqs, "", "", "") == pyqs
  {
    FilterKeepsAll(pyqs, MatchTest("", "", ""));
  }

  /** The filters are independent: narrowing the search results by department and year gives the same list. */
  lemma FiltersCompose(pyqs: seq<Upload>, search: string, dept: string, year: string)
    ensures Visible(pyqs, search, dept, year) == Filter(Filter(pyqs, SearchTest(search)), PlaceTest(dept, year))
  {
    FilterCompose(pyqs, SearchTest(search), PlaceTest(dept, year), MatchTest(search, dept, year));
  }

  class Page {
    const store: Store<Upload>
    var pyqs: seq<Upload>

    /** Mount: `loadPYQs()`, the slot as stored (throwing on undecodable text), not sorted. */
    constructor (store: Store<Upload>)
      requires store.Load(PYQS_KEY).Some?
      ensures this.store == store
      ensures pyqs == store.Load(PYQS_KEY).value
    {
      this.store := store;
      pyqs := store.Load(PYQS_KEY).value;
    }

    /** The storage listener: a `pyqsUploads` event or a keyless one reloads. */
    method OnStorage(eventKey: Option<string>)
      requires ForKeyOrUnkeyed(eventKey, PYQS_KEY) ==> store.Load(PYQS_KEY).Some?
      modifies this`pyqs
      ensures ForKeyOrUnkeyed(eventKey, PYQS_KEY) ==> pyqs == store.Load(PYQS_KEY).value
      ensures !ForKeyOrUnkeyed(eventKey, PYQS_KEY) ==> pyqs == old(pyqs)
    {
      if ForKeyOrUnkeyed(eventKey, PYQS_KEY) {
        pyqs := store.Load(PYQS_KEY).value;
      }
    }
  }
}
