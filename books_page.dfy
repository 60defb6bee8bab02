/**
 * The student-facing books page: the `booksUploads` list newest first, a
 * search box with department, year and category filters, the choices those
 * filters offer, and a delete that only an admin session may perform.
 */
module BooksPage {
  import opened Wrappers
  import opened Records
  import opened LocalStore
  import opened Sequences
  import opened Sorting
  import opened Text

  /**
   * The test of `filtered`: the trimmed, lower-cased query must occur in the
   * name or the category; each non-empty filter must equal the book's field
   * ignoring case.
   */
  predicate BookMatches(b: Upload, query: string, dept: string, year: string, category: string) {
    KeyMatches(b, SearchKey(query), dept, year, category)
  }

  /** `query.trim().toLowerCase()`. */
  function SearchKey(query: string): string {
    Lower(Trim(query))
  }

  predicate KeyMatches(b: Upload, q: string, dept: string, year: string, category: string) {
    && (q == "" || Contains(Lower(b.name), q) || Contains(Lower(b.category), q))
    && (dept == "" || Lower(b.department) == Lower(dept))
    && (year == "" || Lower(b.year) == Lower(year))
    && (category == "" || Lower(b.category) == Lower(category))
  }

  function MatchTest(query: string, dept: string, year: string, category: string): Upload -> bool {
    b => BookMatches(b, query, dept, year, category)
  }

  /** `filtered`: the books passing the test, in list order. */
  function Visible(books: seq<Upload>, query: string, dept: string, year: string, category: string): (r: seq<Upload>)
    ensures IsSubseq(r, books)
    ensures forall i | 0 <= i < |r| :: r[i] in books && BookMatches(r[i], query, dept, year, category)
    ensures forall i | 0 <= i < |books| && BookMatches(books[i], query, dept, year, category) :: books[i] in r
    ensures multiset(r) <= multiset(books)
    ensures forall i | 0 <= i < |books| ::
      multiset(r)[books[i]] == if BookMatches(books[i], query, dept, year, category) then multiset(books)[books[i]] else 0
  {
    FilterMultiset(books, MatchTest(query, dept, year, category));
    Filter(books, MatchTest(query, dept, year, category))
  }

  /** A blank query and no filters display the whole list. */
  lemma NoFiltersShowAll(books: seq<Upload>, query: string)
    requires IsBlank(query)
    ensures Visible(books, query, "", "", "") == books
  {
    FilterKeepsAll(books, MatchTest(query, "", "", ""));
  }

  /** White space around the query does not change what is displayed. */
  lemma SearchIgnoresSurroundingSpace(books: seq<Upload>, query: string, dept: string, year: string, category: string)
    ensures Visible(books, Trim(query), dept, year, category) == Visible(books, query, dept, year, category)
  {
    var p := MatchTest(Trim(query), dept, year, category);
    var q := MatchTest(query, dept, year, category);
    TrimIdempotent(query);
    assert SearchKey(Trim(query)) == SearchKey(query);
    forall b | b in books ensures p(b) == q(b) {
      assert BookMatches(b, Trim(query), dept, year, category) == BookMatches(b, query, dept, year, category);
    }
    FilterCongruent(books, MatchTest(Trim(query), dept, year, category), MatchTest(query, dept, year, category));
  }

  /** The displayed books of a newest-first list are newest first too. */
  lemma VisibleNewestFirst(books: seq<Upload>, query: string, dept: string, year: string, category: string)
    requires NewestFirst(books)
    ensures NewestFirst(Visible(books, query, dept, year, category))
  {
    SubseqKeepsNewestFirst(Visible(books, query, dept, year, category), books);
  }

  /**
   * `Array.from(new Set(values.filter(Boolean)))`: the non-empty values, each
   * once. Built from the back: the last value is added unless it is empty or
   * already collected.
   */
  function Distinct(s: seq<string>): (r: seq<string>)
    ensures forall i, j | 0 <= i < j < |r| :: r[i] != r[j]
    ensures forall i | 0 <= i < |r| :: r[i] != "" && r[i] in s
    ensures forall i | 0 <= i < |s| && s[i] != "" :: s[i] in r
    decreases |s|
  {
    if s == [] then []
    else
      var init := s[..|s| - 1];
      var r := Distinct(init);
      var x := s[|s| - 1];
      assert forall i | 0 <= i < |init| :: init[i] == s[i];
      if x == "" || x in r then r else r + [x]
  }

  /** The values keep the order of their first occurrence, as a `Set` iterates. */
  lemma {:induction false} DistinctFirstOccurrenceOrder(s: seq<string>)
    ensures forall i, j | 0 <= i < j < |Distinct(s)| :: IndexOf(s, Distinct(s)[i]) < IndexOf(s, Distinct(s)[j])
    decreases |s|
  {
    if s != [] {
      var init := s[..|s| - 1];
      var x := s[|s| - 1];
      var r := Distinct(init);
      DistinctFirstOccurrenceOrder(init);
      forall i | 0 <= i < |r| ensures IndexOf(s, r[i]) == IndexOf(init, r[i]) {
        IndexOfInPrefix(s, |s| - 1, r[i]);
      }
      if !(x == "" || x in r) {
        assert x !in init;
        assert IndexOf(s, x) == |s| - 1 by {
          assert s[..|s| - 1] == init;
        }
      }
    }
  }

  /** A value found in a prefix has the same first position in the whole sequence. */
  lemma IndexOfInPrefix(s: seq<string>, n: nat, x: string)
    requires n <= |s| && x in s[..n]
    ensures IndexOf(s, x) == IndexOf(s[..n], x) < n
  {
    var k := IndexOf(s, x);
    var k' := IndexOf(s[..n], x);
    assert s[..n][k'] == s[k'];
  }

  function DepartmentsOf(books: seq<Upload>): seq<string> {
    seq(|books|, i requires 0 <= i < |books| => books[i].department)
  }

  function YearsOf(books: seq<Upload>): seq<string> {
    seq(|books|, i requires 0 <= i < |books| => books[i].year)
  }

  function CategoriesOf(books: seq<Upload>): seq<string> {
    seq(|books|, i requires 0 <= i < |books| => books[i].category)
  }

  /** The department filter's choices: each department some book names, once, none empty. */
  function Departments(books: seq<Upload>): (r: seq<string>)
    ensures forall i, j | 0 <= i < j < |r| :: r[i] != r[j]
    ensures forall i | 0 <= i < |r| :: r[i] != "" && exists k | 0 <= k < |books| :: books[k].department == r[i]
    ensures forall k | 0 <= k < |books| && books[k].department != "" :: books[k].department in r
  {
    var s := DepartmentsOf(books);
    assert forall k | 0 <= k < |books| :: s[k] == books[k].department;
    Distinct(s)
  }

  /** The year filter's choices. */
  function Years(books: seq<Upload>): (r: seq<string>)
    ensures forall i, j | 0 <= i < j < |r| :: r[i] != r[j]
    ensures forall i | 0 <= i < |r| :: r[i] != "" && exists k | 0 <= k < |books| :: books[k].year == r[i]
    ensures forall k | 0 <= k < |books| && books[k].year != "" :: books[k].year in r
  {
    var s := YearsOf(books);
    assert forall k | 0 <= k < |books| :: s[k] == books[k].year;
    Distinct(s)
  }

  /** The category filter's choices. */
  function Categories(books: seq<Upload>): (r: seq<string>)
    ensures forall i, j | 0 <= i < j < |r| :: r[i] != r[j]
    ensures forall i | 0 <= i < |r| :: r[i] != "" && exists k | 0 <= k < |books| :: books[k].category == r[i]
    ensures forall k | 0 <= k < |books| && books[k].category != "" :: books[k].category in r
  {
    var s := CategoriesOf(books);
    assert forall k | 0 <= k < |books| :: s[k] == books[k].category;
    Distinct(s)
  }

  class Page {
    const store: Store<Upload>
    var books: seq<Upload>

    /** Mount: the slot read (throwing on undecodable text) and sorted newest first. */
    constructor (store: Store<Upload>)
      requires store.Load(BOOKS_KEY).Some?
      ensures this.store == store
      ensures books == SortNewestFirst(store.Load(BOOKS_KEY).value)
      ensures NewestFirst(books)
    {
      this.store := store;
      books := SortNewestFirst(store.Load(BOOKS_KEY).value);
    }

    /** The storage listener: a `booksUploads` event reloads the slot as stored, without sorting. */
    method OnStorage(eventKey: Option<string>)
      requires ForKey(eventKey, BOOKS_KEY) ==> store.Load(BOOKS_KEY).Some?
      modifies this`books
      ensures ForKey(eventKey, BOOKS_KEY) ==> books == store.Load(BOOKS_KEY).value
      ensures !ForKey(eventKey, BOOKS_KEY) ==> books == old(books)
    {
      if eventKey == Some(BOOKS_KEY) {
        books := store.Load(BOOKS_KEY).value;
      }
    }

    /** `saveAndSet(arr)`: the slot and the view both become `arr`. */
    method SaveAndSet(arr: seq<Upload>)
      modifies this`books, store
      ensures books == arr
      ensures store.slots == old(store.slots)[BOOKS_KEY := Records(arr)]
    {
      store.Save(BOOKS_KEY, arr);
      books := arr;
    }

    /**
     * `handleDelete(index)`: refused unless the session role is "admin";
     * after confirmation the book at `index` is spliced out and the view saved.
     */
    method HandleDelete(index: nat, sessionRole: Option<string>, confirmed: bool) returns (denied: bool)
      modifies this`books, store
      ensures denied <==> sessionRole != Some("admin")
      ensures denied || !confirmed ==> books == old(books) && store.slots == old(store.slots)
      ensures !denied && confirmed ==>
                books == ExceptIndex(old(books), index) &&
                store.slots == old(store.slots)[BOOKS_KEY := Records(books)]
    {
      if sessionRole != Some("admin") {
        return true;
      }
      if !confirmed {
        return false;
      }
      SaveAndSet(ExceptIndex(books, index));
      return false;
    }

    /**
     * A card's Delete button, `handleDelete(books.indexOf(book))`: the card's
     * book is one of the list, so exactly one copy of it goes and the others
     * keep their order.
     */
    method DeleteBook(book: Upload, sessionRole: Option<string>, confirmed: bool) returns (denied: bool)
      requires book in books
      modifies this`books, store
      ensures denied <==> sessionRole != Some("admin")
      ensures denied || !confirmed ==> books == old(books) && store.slots == old(store.slots)
      ensures !denied && confirmed ==>
                && multiset(books) == multiset(old(books)) - multiset{book}
                && IsSubseq(books, old(books))
                && store.slots == old(store.slots)[BOOKS_KEY := Records(books)]
    {
      var k := IndexOf(books, book);
      ExceptIndexMultiset(books, k);
      ExceptIndexKeepsOrder(books, k);
      denied := HandleDelete(k, sessionRole, confirmed);
    }
  }
}
