/**
 * The admin page that moves registration requests between the pending slot
 * (`student_requests`) and the approved slot (`approved_students`), keyed by
 * the student's email.
 */
module ManageStudents {
  import opened Wrappers
  import opened Records
  import opened LocalStore
  import opened Sequences

  /** `list.filter((s) => s.email !== email)`. */
  function WithoutEmail(xs: seq<Student>, email: string): (r: seq<Student>)
    ensures forall i | 0 <= i < |r| :: r[i].email != email && r[i] in xs
    ensures forall i | 0 <= i < |xs| && xs[i].email != email :: xs[i] in r
    ensures IsSubseq(r, xs)
    ensures multiset(r) <= multiset(xs)
    ensures forall i | 0 <= i < |xs| ::
      multiset(r)[xs[i]] == if xs[i].email != email then multiset(xs)[xs[i]] else 0
  {
    FilterMultiset(xs, (s: Student) => s.email != email);
    Filter(xs, (s: Student) => s.email != email)
  }

  /** How many records of `xs` carry `email`. */
  function CountEmail(xs: seq<Student>, email: string): nat
    decreases |xs|
  {
    if xs == [] then 0
    else CountEmail(xs[..|xs| - 1], email) + (if xs[|xs| - 1].email == email then 1 else 0)
  }

  /** No email occurs in both lists. */
  ghost predicate EmailsDisjoint(pending: seq<Student>, approved: seq<Student>) {
    forall i, j | 0 <= i < |pending| && 0 <= j < |approved| :: pending[i].email != approved[j].email
  }

  /** A list in which no record carries `email` counts it zero times, and conversely. */
  lemma {:induction false} CountEmailZero(xs: seq<Student>, email: string)
    ensures CountEmail(xs, email) == 0 <==> forall i | 0 <= i < |xs| :: xs[i].email != email
    decreases |xs|
  {
    if xs != [] {
      var init := xs[..|xs| - 1];
      CountEmailZero(init, email);
      assert forall i | 0 <= i < |init| :: init[i] == xs[i];
    }
  }

  /** Appending a record counts its email once more and every other email as before. */
  lemma CountEmailAppend(xs: seq<Student>, s: Student, email: string)
    ensures CountEmail(xs + [s], email) == CountEmail(xs, email) + (if s.email == email then 1 else 0)
  {
    assert (xs + [s])[..|xs|] == xs;
  }

  /** After a decline (or an approve) no pending record carries the student's email. */
  lemma WithoutEmailRemovesAll(xs: seq<Student>, email: string)
    ensures CountEmail(WithoutEmail(xs, email), email) == 0
  {
    CountEmailZero(WithoutEmail(xs, email), email);
  }

  /**
   * Approving a student drawn from the pending list keeps the two lists
   * email-disjoint, and the student's email then occurs exactly once among
   * the approved.
   */
  lemma ApproveKeepsDisjoint(pending: seq<Student>, approved: seq<Student>, s: Student)
    requires EmailsDisjoint(pending, approved)
    requires s in pending
    ensures EmailsDisjoint(WithoutEmail(pending, s.email), approved + [s])
    ensures CountEmail(approved + [s], s.email) == 1
  {
    var p := WithoutEmail(pending, s.email);
    var a := approved + [s];
    forall i, j | 0 <= i < |p| && 0 <= j < |a| ensures p[i].email != a[j].email {
      if j < |approved| {
        var k :| 0 <= k < |pending| && pending[k] == p[i];
        assert a[j] == approved[j];
      }
    }
    var k :| 0 <= k < |pending| && pending[k] == s;
    CountEmailZero(approved, s.email);
    CountEmailAppend(approved, s, s.email);
  }

  /** Removing records from either list keeps the lists email-disjoint. */
  lemma RemovalKeepsDisjoint(pending: seq<Student>, approved: seq<Student>, email: string)
    requires EmailsDisjoint(pending, approved)
    ensures EmailsDisjoint(WithoutEmail(pending, email), approved)
    ensures EmailsDisjoint(pending, WithoutEmail(approved, email))
  {
    var p := WithoutEmail(pending, email);
    forall i, j | 0 <= i < |p| && 0 <= j < |approved| ensures p[i].email != approved[j].email {
      var k :| 0 <= k < |pending| && pending[k] == p[i];
    }
    var a := WithoutEmail(approved, email);
    forall i, j | 0 <= i < |pending| && 0 <= j < |a| ensures pending[i].email != a[j].email {
      var k :| 0 <= k < |approved| && approved[k] == a[j];
    }
  }

  /** The page: its two lists, read once on mount, and the store it writes. */
  class Page {
    const store: Store<Student>
    var pending: seq<Student>
    var approved: seq<Student>

    /** Mount: both slots are read with `JSON.parse`, which throws on undecodable text. */
    constructor (store: Store<Student>)
      requires store.Load(REQUESTS_KEY).Some? && store.Load(APPROVED_KEY).Some?
      ensures this.store == store
      ensures pending == store.Load(REQUESTS_KEY).value
      ensures approved == store.Load(APPROVED_KEY).value
    {
      this.store := store;
      pending := store.Load(REQUESTS_KEY).value;
      approved := store.Load(APPROVED_KEY).value;
    }

    /** The page's lists are what its slots hold. */
    ghost predicate InSync()
      reads this, store
    {
      store.Load(REQUESTS_KEY) == Some(pending) && store.Load(APPROVED_KEY) == Some(approved)
    }

    /** No email is both pending and approved. */
    ghost predicate Exclusive()
      reads this
    {
      EmailsDisjoint(pending, approved)
    }

    /** `approveStudent`: drop every pending record with the email, append the student to the approved. */
    method ApproveStudent(student: Student)
      modifies this, store
      ensures pending == WithoutEmail(old(pending), student.email)
      ensures approved == old(approved) + [student]
      ensures store.slots == old(store.slots)[REQUESTS_KEY := Records(pending)][APPROVED_KEY := Records(approved)]
      ensures InSync()
      ensures old(Exclusive()) && student in old(pending) ==>
                Exclusive() && CountEmail(approved, student.email) == 1
    {
      var updatedPending := WithoutEmail(pending, student.email);
      var updatedApproved := approved + [student];
      if Exclusive() && student in pending {
        ApproveKeepsDisjoint(pending, approved, student);
      }
      store.Save(REQUESTS_KEY, updatedPending);
      store.Save(APPROVED_KEY, updatedApproved);
      pending := updatedPending;
      approved := updatedApproved;
    }

    /** `declineStudent`: drop every pending record with the email; the approved slot is not written. */
    method DeclineStudent(student: Student)
      modifies this, store
      ensures pending == WithoutEmail(old(pending), student.email)
      ensures approved == old(approved)
      ensures store.slots == old(store.slots)[REQUESTS_KEY := Records(pending)]
      ensures store.Load(REQUESTS_KEY) == Some(pending)
      ensures old(Exclusive()) ==> Exclusive()
    {
      var updatedPending := WithoutEmail(pending, student.email);
      if Exclusive() { RemovalKeepsDisjoint(pending, approved, student.email); }
      store.Save(REQUESTS_KEY, updatedPending);
      pending := updatedPending;
    }

    /** `removeStudent`: drop every approved record with the email; the pending slot is not written. */
    method RemoveStudent(student: Student)
      modifies this, store
      ensures approved == WithoutEmail(old(approved), student.email)
      ensures pending == old(pending)
      ensures store.slots == old(store.slots)[APPROVED_KEY := Records(approved)]
      ensures store.Load(APPROVED_KEY) == Some(approved)
      ensures old(Exclusive()) ==> Exclusive()
    {
      var updatedApproved := WithoutEmail(approved, student.email);
      if Exclusive() { RemovalKeepsDisjoint(pending, approved, student.email); }
      store.Save(APPROVED_KEY, updatedApproved);
      approved := updatedApproved;
    }
  }
}
