/**
 * The profile page's search for the signed-in student: five storage keys are
 * tried in order, and the first non-empty value that parses decides.
 */
module Profile {
  import opened Wrappers
  import opened Records

  /** What `JSON.parse` makes of a stored value: a student record, a falsy value such as `null`, or an exception. */
  datatype Parsed = ParsedStudent(student: Student) | ParsedFalsy | ParseError

  /** A stored value: its text, which decides whether it is tried at all, and what parsing it gives. */
  datatype Stored = Stored(text: string, parsed: Parsed)

  /** The keys the page tries, in order. */
  const PROFILE_KEYS: seq<string> := ["loggedInStudent", "student", "user", "currentUser", "studentData"]

  /** A key the loop stops at: present, non-empty, and parsing without an exception. */
  predicate Decisive(storage: map<string, Stored>, key: string) {
    key in storage && storage[key].text != "" && !storage[key].parsed.ParseError?
  }

  /** The parse result the loop ends with over `keys`: that of the first decisive key, or none. */
  function FirstParsed(storage: map<string, Stored>, keys: seq<string>): Option<Parsed>
    decreases |keys|
  {
    if keys == [] then None
    else if Decisive(storage, keys[0]) then Some(storage[keys[0]].parsed)
    else FirstParsed(storage, keys[1..])
  }

  /** The student the page shows: the first decisive value when it is a student, otherwise none. */
  function ProfileStudent(storage: map<string, Stored>): Option<Student> {
    match FirstParsed(storage, PROFILE_KEYS)
    case Some(ParsedStudent(s)) => Some(s)
    case _ => None
  }

  /**
   * The loop's result is the first decisive key's parse: every earlier key is
   * absent, empty or unparsable, and with no decisive key there is no result.
   */
  lemma {:induction false} FirstParsedIsFirst(storage: map<string, Stored>, keys: seq<string>)
    ensures FirstParsed(storage, keys).None? <==> forall j | 0 <= j < |keys| :: !Decisive(storage, keys[j])
    ensures FirstParsed(storage, keys).Some? ==>
              exists i | 0 <= i < |keys| ::
                && Decisive(storage, keys[i])
                && FirstParsed(storage, keys) == Some(storage[keys[i]].parsed)
                && forall j | 0 <= j < i :: !Decisive(storage, keys[j])
    decreases |keys|
  {
    if keys != [] && !Decisive(storage, keys[0]) {
      FirstParsedIsFirst(storage, keys[1..]);
      if FirstParsed(storage, keys).Some? {
        var i :| 0 <= i < |keys[1..]| && Decisive(storage, keys[1..][i])
                 && FirstParsed(storage, keys[1..]) == Some(storage[keys[1..][i]].parsed)
                 && forall j | 0 <= j < i :: !Decisive(storage, keys[1..][j]);
        assert keys[i + 1] == keys[1..][i];
        forall j | 0 <= j < i + 1 ensures !Decisive(storage, keys[j]) {
          if j > 0 { assert keys[j] == keys[1..][j - 1]; }
        }
      } else {
        forall j | 0 <= j < |keys| ensures !Decisive(storage, keys[j]) {
          if j > 0 { assert keys[j] == keys[1..][j - 1]; }
        }
      }
    }
  }

  /**
   * A falsy value ends the search: with `null` under "loggedInStudent" the page
   * shows no student even though "student" holds one.
   */
  lemma FalsyValueHidesLaterKeys(s: Student)
    ensures var storage := map["loggedInStudent" := Stored("null", ParsedFalsy), "student" := Stored("{}", ParsedStudent(s))];
            ProfileStudent(storage) == None
  {
  }

  /** A malformed value is skipped: a student stored under a later key is still found. */
  lemma MalformedValueIsSkipped(s: Student)
    ensures var storage := map["loggedInStudent" := Stored("{", ParseError), "student" := Stored("{}", ParsedStudent(s))];
            ProfileStudent(storage) == Some(s)
  {
    var storage := map["loggedInStudent" := Stored("{", ParseError), "student" := Stored("{}", ParsedStudent(s))];
    assert PROFILE_KEYS[1..][0] == "student";
    assert FirstParsed(storage, PROFILE_KEYS) == FirstParsed(storage, PROFILE_KEYS[1..]);
  }

  /** The mount effect: the `for … of` loop with its `break`, then the falsy check. */
  method FindStudent(storage: map<string, Stored>) returns (student: Option<Student>)
    ensures student == ProfileStudent(storage)
  {
    var found: Option<Parsed> := None;
    var i := 0;
    while i < |PROFILE_KEYS|
      invariant 0 <= i <= |PROFILE_KEYS|
      invariant found.None?
      invariant FirstParsed(storage, PROFILE_KEYS) == FirstParsed(storage, PROFILE_KEYS[i..])
    {
      var key := PROFILE_KEYS[i];
      assert PROFILE_KEYS[i..][0] == key && PROFILE_KEYS[i..][1..] == PROFILE_KEYS[i + 1..];
      if key in storage && storage[key].text != "" {
        if !storage[key].parsed.ParseError? {
          found := Some(storage[key].parsed);
          break;
        }
      }
      i := i + 1;
    }
    if found.Some? && found.value.ParsedStudent? {
      student := Some(found.value.student);
    } else {
      student := None;
    }
  }
}
