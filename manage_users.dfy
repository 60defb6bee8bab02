/**
 * The admin page listing pending requests and approved students with a search
 * box and department/year filters; its approve, reject and delete buttons
 * address records by position.
 */
module ManageUsers {
  import opened Wrappers
  import opened Records
  import opened LocalStore
  import opened Sequences
  import opened Text

  /**
   * The test of `filteredRequests` and `filteredApproved`: the lowercased name
   * or email includes the lowercased search, and a non-empty department or
   * year filter equals the field exactly.
   */
  predicate Shown(s: Student, search: string, dept: string, year: string) {
    && (Contains(Lower(s.name), Lower(search)) || Contains(Lower(s.email), Lower(search)))
    && (dept == "" || s.department == dept)
    && (year == "" || s.year == year)
  }

  function ShownTest(search: string, dept: string, year: string): Student -> bool {
    s => Shown(s, search, dept, year)
  }

  /** The rows a table displays: the records passing the test, in stored order. */
  function Visible(xs: seq<Student>, search: string, dept: string, year: string): (r: seq<Student>)
    ensures IsSubseq(r, xs)
    ensures forall i | 0 <= i < |r| :: r[i] in xs && Shown(r[i], search, dept, year)
    ensures forall i | 0 <= i < |xs| && Shown(xs[i], search, dept, year) :: xs[i] in r
    ensures multiset(r) <= multiset(xs)
    ensures forall i | 0 <= i < |xs| ::
      multiset(r)[xs[i]] == if Shown(xs[i], search, dept, year) then multiset(xs)[xs[i]] else 0
  {
    FilterMultiset(xs, ShownTest(search, dept, year));
    Filter(xs, ShownTest(search, dept, year))
  }

  /** With an empty search and no department or year chosen, every record is displayed. */
  lemma NoFilterShowsAll(xs: seq<Student>)
    ensures Visible(xs, "", "", "") == xs
  {
    forall x | x in xs ensures ShownTest("", "", "")(x) {
      ContainsEmpty(Lower(x.name));
    }
    FilterKeepsAll(xs, ShownTest("", "", ""));
  }

  /**
   * The row buttons pass the position in the displayed (filtered) table, but
   * the handlers index the unfiltered list: with the department filter set to
   * "BSC", the only displayed request is Bob's, yet its Approve button
   * (row 0) approves `requests[0]`, which is Ann's.
   */
  lemma RowIndexMismatch()
    ensures var ann := Student("Ann", "ann@x.com", "1", "BA", "1st Year", "1");
            var bob := Student("Bob", "bob@x.com", "2", "BSC", "1st Year", "2");
            && Visible([ann, bob], "", "BSC", "") == [bob]
            && [ann, bob][0] != Visible([ann, bob], "", "BSC", "")[0]
  {
    var ann := Student("Ann", "ann@x.com", "1", "BA", "1st Year", "1");
    var bob := Student("Bob", "bob@x.com", "2", "BSC", "1st Year", "2");
    assert Lower("") == "";
    ContainsEmpty(Lower(bob.name));
    assert !Shown(ann, "", "BSC", "");
    assert Shown(bob, "", "BSC", "");
    assert [ann, bob][1..] == [bob];
    assert [bob][1..] == [];
  }

  /** The intended target of a row button: the position in the full list of the record displayed at `row`. */
  function IndexOfRow(xs: seq<Student>, search: string, dept: string, year: string, row: nat): (k: nat)
    requires row < |Visible(xs, search, dept, year)|
    ensures k < |xs| && xs[k] == Visible(xs, search, dept, year)[row]
    ensures |Visible(xs[..k], search, dept, year)| == row
  {
    SourceIndex(xs, ShownTest(search, dept, year), row)
  }

  /** The page: the two lists, read once on mount, and the store it writes. */
  class Page {
    const store: Store<Student>
    var requests: seq<Student>
    var approved: seq<Student>

    /** Mount: both slots are read with `JSON.parse`, which throws on undecodable text. */
    constructor (store: Store<Student>)
      requires store.Load(REQUESTS_KEY).Some? && store.Load(APPROVED_KEY).Some?
      ensures this.store == store
      ensures requests == store.Load(REQUESTS_KEY).value
      ensures approved == store.Load(APPROVED_KEY).value
    {
      this.store := store;
      requests := store.Load(REQUESTS_KEY).value;
      approved := store.Load(APPROVED_KEY).value;
    }

    /**
     * `handleApprove(index)`: request `index` is appended to the approved list
     * and exactly that position leaves the requests. The index is always in
     * range: a row of the displayed table, which is no longer than the list.
     */
    method HandleApprove(index: nat)
      requires index < |requests|
      modifies this, store
      ensures approved == old(approved) + [old(requests)[index]]
      ensures requests == ExceptIndex(old(requests), index)
      ensures |requests| == |old(requests)| - 1
      ensures store.slots == old(store.slots)[REQUESTS_KEY := Records(requests)][APPROVED_KEY := Records(approved)]
      ensures store.Load(REQUESTS_KEY) == Some(requests) && store.Load(APPROVED_KEY) == Some(approved)
    {
      var newApproved := approved + [requests[index]];
      var newRequests := ExceptIndex(requests, index);
      approved := newApproved;
      requests := newRequests;
      store.Save(REQUESTS_KEY, newRequests);
      store.Save(APPROVED_KEY, newApproved);
    }

    /** `handleReject(index)`: exactly position `index` leaves the requests; the approved slot is not written. */
    method HandleReject(index: int)
      modifies this, store
      ensures requests == ExceptIndex(old(requests), index)
      ensures approved == old(approved)
      ensures store.slots == old(store.slots)[REQUESTS_KEY := Records(requests)]
    {
      requests := ExceptIndex(requests, index);
      store.Save(REQUESTS_KEY, requests);
    }

    /** `handleDeleteApproved(index)`: exactly position `index` leaves the approved; requests are not written. */
    method HandleDeleteApproved(index: int)
      modifies this, store
      ensures approved == ExceptIndex(old(approved), index)
      ensures requests == old(requests)
      ensures store.slots == old(store.slots)[APPROVED_KEY := Records(approved)]
    {
      approved := ExceptIndex(approved, index);
      store.Save(APPROVED_KEY, approved);
    }

    /** The Approve button of displayed row `row`, wired to the record that row shows. */
    method ApproveShown(row: nat, search: string, dept: string, year: string)
      requires row < |Visible(requests, search, dept, year)|
      modifies this, store
      ensures var k := IndexOfRow(old(requests), search, dept, year, row);
              old(requests)[k] == Visible(old(requests), search, dept, year)[row] &&
              requests == ExceptIndex(old(requests), k)
      ensures approved == old(approved) + [Visible(old(requests), search, dept, year)[row]]
      ensures |requests| == |old(requests)| - 1
      ensures store.slots == old(store.slots)[REQUESTS_KEY := Records(requests)][APPROVED_KEY := Records(approved)]
    {
      HandleApprove(IndexOfRow(requests, search, dept, year, row));
    }

    /** The Reject button of displayed row `row`, wired to the record that row shows. */
    method RejectShown(row: nat, search: string, dept: string, year: string)
      requires row < |Visible(requests, search, dept, year)|
      modifies this, store
      ensures var k := IndexOfRow(old(requests), search, dept, year, row);
              old(requests)[k] == Visible(old(requests), search, dept, year)[row] &&
              requests == ExceptIndex(old(requests), k)
      ensures approved == old(approved)
      ensures store.slots == old(store.slots)[REQUESTS_KEY := Records(requests)]
    {
      HandleReject(IndexOfRow(requests, search, dept, year, row));
    }

    /** The Delete button of displayed approved row `row`, wired to the record that row shows. */
    method DeleteShownApproved(row: nat, search: string, dept: string, year: string)
      requires row < |Visible(approved, search, dept, year)|
      modifies this, store
      ensures var k := IndexOfRow(old(approved), search, dept, year, row);
              old(approved)[k] == Visible(old(approved), search, dept, year)[row] &&
              approved == ExceptIndex(old(approved), k)
      ensures requests == old(requests)
      ensures store.slots == old(store.slots)[APPROVED_KEY := Records(approved)]
    {
      HandleDeleteApproved(IndexOfRow(approved, search, dept, year, row));
    }
  }
}
