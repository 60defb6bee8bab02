# College e-library portal: a Dafny model of its storage logic

The portal is a React single-page application for a college library. It has
books, notes and previous-year question papers (PYQs), a discussion board,
and student registration. Its only back end is the browser's `localStorage`.
Every page loads a JSON list from a named slot into its view state. Every
handler builds a new list and writes the whole list back with `setItem`.
Pages on other tabs follow along through `storage` events.
`sessionStorage` holds who is signed in.

This project models that core as follows:

- **Storage.** `LocalStore` models storage as slots that hold either a
  decodable record list or undecodable text. It has three decoders, because
  the pages read slots in three different ways:
  - `JSON.parse(x || "[]")`;
  - `JSON.parse(x) || []`;
  - a read guarded by `try`/`catch`.

  It also models the two ways a handler filters `storage` events by key.
- **Admin pages.** One module per admin page: `ManageStudents`,
  `ManageUsers`, `ManageBooks`, `ManagePYQs`, `ManageNotes` and
  `ManageDiscussions`. Each is a class that holds the page's view state and
  shares the store. Each handler has a `modifies` clause and states the new
  view and the new slots completely. Lemmas beside the handlers state what
  the handlers keep true:
  - the emails of pending and approved students stay disjoint;
  - the notes collection never grows past 100;
  - highlighting a message twice restores it;
  - an edit touches one record only.
- **Student pages.** One module per student page: `BooksPage`, `NotesPage`,
  `PYQsPage` and `Discussion`. Each page's filters are modelled as tests over
  the list, with lemmas on what is displayed:
  - the displayed list is a subsequence of the stored list;
  - the initial controls display everything;
  - newest-first order survives filtering;
  - the filters compose;
  - the two discussion panels partition the board;
  - the filter drop-downs offer distinct values in first-occurrence order.
- **`Profile`.** The profile page's search over five storage keys is a
  `while` loop with a `break`. It is proved equal to a recursive
  specification, and that specification is characterised by a lemma.
- **`App`.** The application shell: login, logout, the redirect from "/", and
  which roles see the navigation bar and footer. It is proved that a reload
  restores the same session state.

Shared modules:

- `Text` models `trim`, `toLowerCase` and `includes` over ASCII.
- `Sequences` models `filter`, `splice`/index removal and `indexOf`, with
  subsequence and multiset facts.
- `Sorting` models the newest-first sort as a stable insertion sort.
- `Records` holds the record types and the upload form.

## Model

| member | source | states |
|---|---|---|
| LocalStore.Decode | src/pages/Admin/ManageStudents.jsx:8-9 | `JSON.parse(getItem(k) \|\| "[]")`: an absent slot reads as the empty list, an empty string reads as the empty list, stored records read back unchanged, and exactly non-empty undecodable text fails |
| LocalStore.DecodeNullable | src/pages/Admin/ManageBooks.jsx:21 | `JSON.parse(getItem(k)) \|\| []`: an absent slot reads as the empty list, and every stored text that is not a record list fails, the empty string included |
| LocalStore.DecodeOrEmpty | src/pages/Admin/ManageDiscussions.jsx:6-12 | the guarded read: the decoded list when decoding succeeds, the empty list when it throws |
| LocalStore.Store.Save | src/pages/Admin/ManageBooks.jsx:33-36 | `setItem` replaces exactly the named slot, and the list reads back as written |
| LocalStore.Store.SaveText | src/pages/Discussion.jsx:144-147 | a plain string is stored in the named slot, and no other slot changes |
| LocalStore.AfterEvent | src/pages/Admin/ManageDiscussions.jsx:17-25 | an event for the board's key replaces the list with the guarded decode of the event's new value; any other event leaves the list alone |
| LocalStore.KeyFiltersAgreeOnNamedKeys | src/pages/PYQs.jsx:18-22 | the `e.key === k` and `!e.key \|\| e.key === k` handlers agree on every event that names a key, and both react exactly to their own key |
| Text.Trim | src/pages/Admin/ManageDiscussions.jsx:51 | `trim()` yields a piece of the input with no white space at either end, and everything cut off before and after it is blank; it is empty exactly when the input is blank |
| Text.TrimIdempotent | src/pages/Books.jsx:54 | trimming an already trimmed query changes nothing |
| Text.Lower | src/pages/Books.jsx:54 | `toLowerCase` keeps the length and lowers each character |
| Text.ContainsEmpty | src/pages/Notes.jsx:27-30 | every string includes the empty string, so an empty search passes `includes` |
| Text.NotContainsLonger | src/pages/Notes.jsx:27-30 | no string includes a longer one |
| Sequences.ExceptIndex | src/pages/Admin/ManageUsers.jsx:23 | `filter((_, i) => i !== index)` and `splice(index, 1)`: one position shorter with the later elements shifted down when the index is inside the list; unchanged otherwise |
| Sequences.ExceptIndexKeepsOrder | src/pages/Admin/ManageBooks.jsx:74 | removing one position keeps the remaining records in their original order |
| Sequences.ExceptIndexMultiset | src/pages/Books.jsx:47-48 | removing position `i` removes exactly one copy of the record there and nothing else |
| Sequences.Filter | src/pages/Admin/ManageStudents.jsx:16 | `filter(p)` keeps exactly the elements satisfying `p`, as a subsequence of the input |
| Sequences.FilterKeepsAll | src/pages/Admin/ManageNotes.jsx:100-104 | a test every element passes filters nothing out |
| Sequences.FilterMultiset | src/pages/Admin/ManageStudents.jsx:16 | `filter(p)` keeps every copy of an element that satisfies `p` and no copy of one that does not, and adds nothing |
| Sequences.FilterSplit | src/pages/Discussion.jsx:64-65 | filtering by a test and by its negation splits the list: the lengths add up, and the two multisets add up to the whole |
| Sequences.FilterCongruent | src/pages/Books.jsx:53-60 | two tests that agree on every element select the same list |
| Sequences.FilterCompose | src/pages/PYQs.jsx:28-36 | filtering by one test and then by another equals filtering once by their conjunction |
| Sequences.SubseqMembers | src/pages/Admin/ManageStudents.jsx:16 | every element of a subsequence occurs in the original list |
| Sequences.SubseqLength | src/pages/Admin/ManageStudents.jsx:16 | a subsequence is no longer than its original |
| Sequences.SourceIndex | src/pages/Admin/ManageUsers.jsx:138-154 | the list position of the element shown at a given row of a filtered list: the element there is the displayed one, and exactly `row` matching elements come before it |
| Sequences.IndexOf | src/pages/Books.jsx:237 | `indexOf`: the first position holding the value, or -1 when it is absent |
| Sorting.Insert | src/pages/Books.jsx:21 | inserting into a newest-first list keeps it newest first and adds exactly that record |
| Sorting.SortNewestFirst | src/pages/Books.jsx:21 | the sort by `uploadedAtTs \|\| 0`, descending: the result is newest first and a permutation of the input |
| Sorting.SortKeepsSorted | src/pages/Admin/ManageNotes.jsx:21-24 | a list already newest first is returned unchanged, which is stability on equal keys included |
| Sorting.SortIdempotent | src/pages/Notes.jsx:12-15 | reloading and re-sorting a sorted list does not reorder it |
| Sorting.SubseqKeepsNewestFirst | src/pages/Notes.jsx:26-35 | any list obtained by dropping records from a newest-first list is newest first |
| Records.ClearedText | src/pages/Admin/ManageBooks.jsx:105-111 | clearing the text fields keeps the chosen file and leaves the form incomplete |
| Records.NewUpload | src/pages/Admin/ManageBooks.jsx:46-55 | the new record takes its name from the file, its uploader from the name field, its category, department and year from the form, and its data and both timestamps from the read and the clock |
| Records.WithFormFields | src/pages/Admin/ManageBooks.jsx:88-95 | an edit overwrites category, uploader, department and year, and keeps name, data and timestamps |
| Records.FormFrom | src/pages/Admin/ManageBooks.jsx:78-85 | opening an edit copies the record's category, uploader, department and year into the form and keeps the file |
| Records.EditWithOwnFieldsIsIdentity | src/pages/Admin/ManageBooks.jsx:78-95 | saving an edit without changing the form it opened with leaves the record unchanged |
| ManageStudents.WithoutEmail | src/pages/Admin/ManageStudents.jsx:16 | the students whose email differs from the given one, in their order, and all of them; each kept student appears as often as in the input and each dropped one not at all |
| ManageStudents.CountEmailZero | src/pages/Admin/ManageStudents.jsx:16 | a list has no entry with an email exactly when its count of that email is zero |
| ManageStudents.CountEmailAppend | src/pages/Admin/ManageStudents.jsx:17 | appending a student adds one to the count of their email and nothing to the others |
| ManageStudents.WithoutEmailRemovesAll | src/pages/Admin/ManageStudents.jsx:27 | after a decline, no request with that email remains |
| ManageStudents.ApproveKeepsDisjoint | src/pages/Admin/ManageStudents.jsx:15-24 | approving a pending student keeps the pending and approved emails disjoint, and leaves that email approved exactly once |
| ManageStudents.RemovalKeepsDisjoint | src/pages/Admin/ManageStudents.jsx:26-36 | declining or removing by email keeps the two lists disjoint |
| ManageStudents.Page.constructor | src/pages/Admin/ManageStudents.jsx:7-13 | both views start as the decoded slots |
| ManageStudents.Page.ApproveStudent | src/pages/Admin/ManageStudents.jsx:15-24 | every request with the student's email leaves the pending list, the student is appended to the approved list, and both slots are written; disjointness is kept |
| ManageStudents.Page.DeclineStudent | src/pages/Admin/ManageStudents.jsx:26-30 | the requests with that email go, only the requests slot is written, and disjointness is kept |
| ManageStudents.Page.RemoveStudent | src/pages/Admin/ManageStudents.jsx:32-36 | the approved entries with that email go, only the approved slot is written, and disjointness is kept |
| ManageUsers.Visible | src/pages/Admin/ManageUsers.jsx:43-59 | the displayed rows are a subsequence of the list: exactly the students whose lowered name or email includes the lowered search, with department and year equal to the filters when those are set; every record that passes is shown as many times as it is stored, and none that fails |
| ManageUsers.NoFilterShowsAll | src/pages/Admin/ManageUsers.jsx:43-59 | with no search and no filters every student is displayed |
| ManageUsers.RowIndexMismatch | src/pages/Admin/ManageUsers.jsx:138-154 | as written: with a department filter on, the row-0 button targets a student other than the one displayed in row 0 |
| ManageUsers.IndexOfRow | src/pages/Admin/ManageUsers.jsx:138-154 | corrected wiring: the list position that holds the student displayed at a row, with exactly `row` displayed students before it |
| ManageUsers.Page.constructor | src/pages/Admin/ManageUsers.jsx:14-19 | both views start as the decoded slots |
| ManageUsers.Page.HandleApprove | src/pages/Admin/ManageUsers.jsx:21-28 | the request at the index moves to the end of the approved list, the requests lose exactly that position, and both slots are written |
| ManageUsers.Page.HandleReject | src/pages/Admin/ManageUsers.jsx:30-34 | the requests lose exactly the indexed position (none when it is out of range), and only the requests slot is written |
| ManageUsers.Page.HandleDeleteApproved | src/pages/Admin/ManageUsers.jsx:36-40 | the approved list loses exactly the indexed position, and only that slot is written |
| ManageUsers.Page.ApproveShown | src/pages/Admin/ManageUsers.jsx:138-150 | with the corrected wiring, the displayed student at the row is the one approved: it is removed from its position in the requests and appended to the approved list, both slots are rewritten and every other slot is unchanged |
| ManageUsers.Page.RejectShown | src/pages/Admin/ManageUsers.jsx:150-154 | with the corrected wiring, the displayed request at the row is the one removed; only the requests slot is rewritten |
| ManageUsers.Page.DeleteShownApproved | src/pages/Admin/ManageUsers.jsx:233-243 | with the corrected wiring, the displayed approved student at the row is the one removed; only the approved slot is rewritten |
| ManageBooks.Page.constructor | src/pages/Admin/ManageBooks.jsx:20-23 | the view starts as the slot read with `JSON.parse(x) \|\| []`, the form empty and no edit open |
| ManageBooks.Page.OnStorage | src/pages/Admin/ManageBooks.jsx:24-29 | an event for `booksUploads` reloads the slot; any other event changes nothing |
| ManageBooks.Page.SaveBooks | src/pages/Admin/ManageBooks.jsx:33-36 | the view and the slot both become the new list |
| ManageBooks.Page.HandleUpload | src/pages/Admin/ManageBooks.jsx:38-69 | an incomplete form writes nothing and asks for all fields; otherwise exactly the new record is appended to the view, saved, and the form is emptied |
| ManageBooks.Page.HandleDelete | src/pages/Admin/ManageBooks.jsx:72-77 | unconfirmed: nothing changes; confirmed: exactly the indexed position is removed and saved |
| ManageBooks.Page.HandleEdit | src/pages/Admin/ManageBooks.jsx:78-85 | the edit opens on the index and the form takes that record's editable fields |
| ManageBooks.Page.HandleSaveEdit | src/pages/Admin/ManageBooks.jsx:87-103 | only the record at the index gets the form's fields, the list is saved, the edit closes, and the text fields are cleared |
| ManageBooks.Page.HandleCancelEdit | src/pages/Admin/ManageBooks.jsx:105-111 | the edit closes and the text fields are cleared, with the file kept and nothing written |
| ManageBooks.SaveEditTouchesOnePosition | src/pages/Admin/ManageBooks.jsx:87-96 | an edit keeps the list's length and every other record, and keeps the edited record's name, data and timestamps |
| ManagePYQs.Page.constructor | src/pages/Admin/ManagePYQs.jsx:17-20 | the view starts as the decoded slot, the form empty and the status idle |
| ManagePYQs.Page.SavePYQs | src/pages/Admin/ManagePYQs.jsx:22-26 | the view and the slot both become the new list |
| ManagePYQs.Page.HandleUpload | src/pages/Admin/ManagePYQs.jsx:29-75 | an incomplete form or a failed file read writes nothing and keeps the form. After a read, the form is emptied either way. The record is appended to the slot as it is now, not to the view. A failed parse or write leaves the slot and the view as they were |
| ManagePYQs.Page.HandleDelete | src/pages/Admin/ManagePYQs.jsx:77-82 | unconfirmed: nothing changes; confirmed: exactly the indexed position is removed and saved |
| ManagePYQs.Page.HandleEdit | src/pages/Admin/ManagePYQs.jsx:84-91 | the edit opens on the index and the form takes that record's editable fields |
| ManagePYQs.Page.HandleSaveEdit | src/pages/Admin/ManagePYQs.jsx:93-109 | only the record at the index gets the form's fields, the list is saved, and the edit closes |
| ManagePYQs.Page.HandleCancelEdit | src/pages/Admin/ManagePYQs.jsx:111-118 | the edit closes, the text fields are cleared, and the status returns to idle |
| ManageNotes.UploadCheck | src/pages/Admin/ManageNotes.jsx:46-78 | an upload is accepted exactly when every field is filled, the file is at most 5 MiB and fewer than 100 notes are stored, so an accepted upload never takes the count past 100 |
| ManageNotes.SizeCeilingInclusive | src/pages/Admin/ManageNotes.jsx:55-58 | a file of exactly 5 MiB is accepted and one byte more is refused |
| ManageNotes.Visible | src/pages/Admin/ManageNotes.jsx:100-104 | the displayed notes are a subsequence of the list: exactly those whose department and year match the filters, where "All" passes everything; every record that passes is shown as many times as it is stored, and none that fails |
| ManageNotes.AllShowsAll | src/pages/Admin/ManageNotes.jsx:100-104 | the initial filters display every note |
| ManageNotes.RowIndexMismatch | src/pages/Admin/ManageNotes.jsx:231-255 | as written: with a department filter on, the row-0 Delete button removes a note other than the one displayed |
| ManageNotes.IndexOfRow | src/pages/Admin/ManageNotes.jsx:231-255 | corrected wiring: the list position that holds the note displayed at a row, with exactly `row` displayed notes before it |
| ManageNotes.Page.constructor | src/pages/Admin/ManageNotes.jsx:21-26 | the view starts as the slot sorted newest first, with filters "All" |
| ManageNotes.Page.LoadNotes | src/pages/Admin/ManageNotes.jsx:21-24 | the view becomes a newest-first permutation of the slot |
| ManageNotes.Page.OnStorage | src/pages/Admin/ManageNotes.jsx:26-35 | an event for `notesUploads`, or one with no key, reloads and re-sorts; any other event changes nothing |
| ManageNotes.Page.HandleDelete | src/pages/Admin/ManageNotes.jsx:37-44 | with no confirmation, exactly the indexed position is removed and saved |
| ManageNotes.Page.DeleteShown | src/pages/Admin/ManageNotes.jsx:231-255 | with the corrected wiring, the displayed note at the row is the one removed; only the notes slot is rewritten and the deletion toast is shown |
| ManageNotes.Page.HandleUpload | src/pages/Admin/ManageNotes.jsx:46-98 | the toast is the verdict of the checks against the slot's current count. A rejection writes nothing. An acceptance puts the new note first, ahead of the slot's current contents, keeps the count at most 100, and empties the form |
| ManageDiscussions.Toggled | src/pages/Admin/ManageDiscussions.jsx:44 | only the highlight flag changes, and it becomes the negation of its old value, with an absent flag negating to true |
| ManageDiscussions.ToggleAt | src/pages/Admin/ManageDiscussions.jsx:42-47 | the message at the index is toggled and every other message is unchanged |
| ManageDiscussions.ToggleTwiceRestores | src/pages/Admin/ManageDiscussions.jsx:42-47 | highlighting the same message twice restores the board when that message had a flag |
| ManageDiscussions.ToggleTwiceAddsFlag | src/pages/Admin/ManageDiscussions.jsx:42-47 | a message stored without a flag comes back from two toggles with `highlight: false`, not as it was |
| ManageDiscussions.Page.constructor | src/pages/Admin/ManageDiscussions.jsx:6-14 | the board starts as the guarded decode of its slot and the input is empty |
| ManageDiscussions.Page.OnStorage | src/pages/Admin/ManageDiscussions.jsx:16-28 | only events for the board's key replace the board, using the guarded decode of the event's new value |
| ManageDiscussions.Page.SaveAndSync | src/pages/Admin/ManageDiscussions.jsx:30-34 | the view and the slot both become the new board |
| ManageDiscussions.Page.HandleDelete | src/pages/Admin/ManageDiscussions.jsx:36-40 | unconfirmed: nothing changes; confirmed: exactly the indexed message is removed and saved |
| ManageDiscussions.Page.HandleHighlight | src/pages/Admin/ManageDiscussions.jsx:42-47 | exactly the indexed message is toggled and the board saved |
| ManageDiscussions.Page.HandleAdminSend | src/pages/Admin/ManageDiscussions.jsx:49-63 | blank input changes nothing. Otherwise one message from "Admin", with the untrimmed text, no name and no highlight, is appended and saved, and the input is cleared |
| Discussion.SessionRole | src/pages/Discussion.jsx:18 | an absent or empty session role counts as "student"; any other role is kept |
| Discussion.Author | src/pages/Discussion.jsx:53 | a new message is from "Admin" exactly for the admin role, and from "Student" for every other role |
| Discussion.PanelsPartition | src/pages/Discussion.jsx:64-65 | the admin panel and the other panel each keep the board's order, each message is in exactly the panel its author selects, and together they hold every message once |
| Discussion.Page.constructor | src/pages/Discussion.jsx:5-18 | the board is the guarded decode of its slot, the name is the saved name or "", and the role comes from the session |
| Discussion.Page.OnStorage | src/pages/Discussion.jsx:21-34 | only events for the board's key replace the board, using the guarded decode of the event's new value |
| Discussion.Page.ChangeUsername | src/pages/Discussion.jsx:144-147 | the typed name becomes the view's name and is stored under its own key |
| Discussion.Page.HandleSend | src/pages/Discussion.jsx:43-61 | an alert is raised exactly when the message or the name is blank, and then nothing changes. Otherwise one message with the untrimmed text, the author tag, the name and no highlight is appended and saved, and the input is cleared |
| BooksPage.Visible | src/pages/Books.jsx:53-60 | the displayed books are a subsequence of the list: exactly those whose lowered name or category includes the trimmed, lowered query (an empty query passes), and whose department, year and category match each set filter, ignoring case; every record that passes is shown as many times as it is stored, and none that fails |
| BooksPage.NoFiltersShowAll | src/pages/Books.jsx:53-60 | a blank query with no filters displays every book |
| BooksPage.SearchIgnoresSurroundingSpace | src/pages/Books.jsx:54 | white space around the query does not change what is displayed |
| BooksPage.VisibleNewestFirst | src/pages/Books.jsx:19-22 | the displayed books of the newest-first list are newest first |
| BooksPage.Distinct | src/pages/Books.jsx:62-64 | the values offered are non-empty, distinct, and exactly the non-empty values present |
| BooksPage.DistinctFirstOccurrenceOrder | src/pages/Books.jsx:62-64 | the offered values come in the order of their first occurrence, as a `Set` iterates |
| BooksPage.IndexOfInPrefix | src/pages/Books.jsx:62-64 | a value found in a prefix has the same first position in the whole list |
| BooksPage.Departments | src/pages/Books.jsx:62 | the department choices: each department some book names, once, none empty |
| BooksPage.Years | src/pages/Books.jsx:63 | the year choices: each year some book names, once, none empty |
| BooksPage.Categories | src/pages/Books.jsx:64 | the category choices: each category some book names, once, none empty |
| BooksPage.Page.constructor | src/pages/Books.jsx:19-22 | the view starts as the slot sorted newest first |
| BooksPage.Page.OnStorage | src/pages/Books.jsx:24-29 | an event for `booksUploads` reloads the slot as stored, without sorting; any other event, including the page's own keyless event, changes nothing |
| BooksPage.Page.SaveAndSet | src/pages/Books.jsx:35-38 | the view and the slot both become the new list |
| BooksPage.Page.HandleDelete | src/pages/Books.jsx:40-51 | refused exactly when the session role is not "admin"; then, or when unconfirmed, nothing changes; otherwise exactly the indexed position is removed and saved |
| BooksPage.Page.DeleteBook | src/pages/Books.jsx:237 | deleting a displayed card removes exactly one copy of that book and keeps the rest in order |
| NotesPage.Visible | src/pages/Notes.jsx:26-35 | the displayed notes are a subsequence of the list: exactly those whose lowered name, category or uploader includes the lowered, untrimmed search, with department and year matching unless "All"; every record that passes is shown as many times as it is stored, and none that fails |
| NotesPage.InitialFiltersShowAll | src/pages/Notes.jsx:5-8 | the initial controls (empty search, "All", "All") display every note |
| NotesPage.LongSearchShowsNothing | src/pages/Notes.jsx:27-30 | a search longer than every name, category and uploader displays nothing |
| NotesPage.VisibleNewestFirst | src/pages/Notes.jsx:12-15 | the displayed notes of the sorted list are newest first |
| NotesPage.Page.constructor | src/pages/Notes.jsx:17-18 | the view starts as the slot sorted newest first |
| NotesPage.Page.LoadNotes | src/pages/Notes.jsx:12-15 | the view becomes a newest-first permutation of the slot |
| NotesPage.Page.OnStorage | src/pages/Notes.jsx:19-21 | only an event for `notesUploads` reloads and re-sorts; keyless events are ignored |
| PYQsPage.Visible | src/pages/PYQs.jsx:28-36 | the displayed papers are a subsequence of the list: exactly those that pass the search (empty, or included in the lowered name or category) and each set department and year filter; every record that passes is shown as many times as it is stored, and none that fails |
| PYQsPage.NoFiltersShowAll | src/pages/PYQs.jsx:28-36 | with every control empty the whole list is displayed |
| PYQsPage.FiltersCompose | src/pages/PYQs.jsx:28-36 | the search and the department/year filters are independent: narrowing the search results gives the same list |
| PYQsPage.Page.constructor | src/pages/PYQs.jsx:10-16 | the view starts as the slot in stored order |
| PYQsPage.Page.OnStorage | src/pages/PYQs.jsx:18-22 | an event for `pyqsUploads`, or one with no key, reloads; any other event changes nothing |
| Profile.ProfileStudent | src/pages/Profile.jsx:32-36 | a student is shown exactly when the first decisive value parses to a student |
| Profile.FirstParsedIsFirst | src/pages/Profile.jsx:19-30 | the loop's result is the parse of the first present, non-empty, parsable key. Every earlier key is absent, empty or unparsable. With no such key there is no result |
| Profile.FalsyValueHidesLaterKeys | src/pages/Profile.jsx:22-36 | a stored `null` under the first key ends the search, and no student is shown even though a later key holds one |
| Profile.MalformedValueIsSkipped | src/pages/Profile.jsx:23-28 | a malformed value is skipped, and a student under a later key is still found |
| Profile.FindStudent | src/pages/Profile.jsx:11-36 | the loop with its `break` computes the student the specification selects |
| App.RedirectTarget | src/App.jsx:105-121 | "/" leads to the admin dashboard exactly for a signed-in admin, to home exactly for any other signed-in role, and to the login selector exactly when signed out |
| App.FromSession | src/App.jsx:32-35 | the initial state: signed in exactly when the flag reads "true", with the stored role or "" |
| App.LoginSurvivesReload | src/App.jsx:37-42 | after login, a reload restores the signed-in state with the same role |
| App.LogoutSurvivesReload | src/App.jsx:44-49 | after logout, a reload restores the signed-out state whatever was stored before |
| App.LoginRoutes | src/App.jsx:55-57 | an admin lands on the dashboard without the navigation bar and footer, and a student on home with them |
| App.Session.constructor | src/App.jsx:32-35 | session storage starts with the given items |
| App.Shell.constructor | src/App.jsx:32-35 | the shell starts in the state read from session storage |
| App.Shell.HandleLogin | src/App.jsx:37-42 | signed in with the given role, both in the state and in session storage, and the two agree |
| App.Shell.HandleLogout | src/App.jsx:44-49 | signed out with no role, both session keys removed, and the two agree |
| App.Shell.StudentLogin | src/App.jsx:67-70 | the student login signs in as "student", shows the chrome, and redirects home |
| App.Shell.AdminLogin | src/App.jsx:71-74 | the admin login signs in as "admin", hides the chrome, and redirects to the dashboard |

## Left out

- Reading a file (`FileReader`), the clock (`Date`) and `window.confirm` are parameters. The data URL, the timestamps and the confirmation are given, not computed. Alerts and toast timers are not modelled beyond the toast or status value set.
- Adding and removing event listeners is not modelled. A page's own `dispatchEvent(new Event("storage"))` is modelled only as a keyless event passed to the handler. Delivery of events between tabs is not modelled.
- ManageNotes.Page.HandleUpload and ManageNotes.Page.HandleDelete: in the source their keyless event (src/pages/Admin/ManageNotes.jsx:42 and :93) makes the page's own handler re-read and re-sort the notes at once; the model leaves the view as written, in upload order, until `OnStorage(None)` is called.
- JSON text is not modelled. A slot holds either a record list or text that does not decode. JavaScript values other than these, such as an object where a list is expected, are out of scope.
- Every record field is a string in the model, so a record stored without one of its fields is not modelled. In the source such a record makes several filters throw instead of hiding the record:
- NotesPage.Visible: src/pages/Notes.jsx:28-30 calls `toLowerCase()` on the name, category and uploader of every note, so a note without one of them throws even with an empty search. The cards show `note.uploader || "Unknown"` (src/pages/Notes.jsx:121), which suggests uploader-less notes were expected.
- ManageUsers.Visible: src/pages/Admin/ManageUsers.jsx:45-46 and :54-55 call `toLowerCase()` on the name and email of every row, so a student without one of them throws for any search.
- BooksPage.Visible: src/pages/Books.jsx:55 lowers the name and category only when the trimmed query is non-empty, so a book without one of them throws only then; the department, year and category filters use `?.` and pass an absent field through as a mismatch.
- PYQsPage.Visible: src/pages/PYQs.jsx:31-32 lowers the name and category only when the search is non-empty, so a paper without one of them throws only then.
- ManageNotes.Visible: absent department or year compares unequal to any filter but "All", as the model's "" does; the card's `note.uploader || "Unknown"` (src/pages/Admin/ManageNotes.jsx:237) is display only.
- Text.Trim: strips ASCII white space only; Unicode white space is not modelled.
- Text.Lower: lowers ASCII letters only; Unicode case mapping is not modelled.
- Write failures (a full storage quota) are modelled only in the PYQ upload, the one handler that catches them; elsewhere an exception would abort the handler and is not modelled.
- The pages that read a slot without a guard throw on undecodable text; their constructors and reloads require a decodable slot rather than modelling the crash.
- BooksPage.Page.DeleteBook: the card's button at src/pages/Books.jsx:237 calls `books.indexOf(book)`, which compares objects by identity and so finds the clicked card's own position. The model's records are values, and `IndexOf` finds the first equal record: with the list [a, b, a2], where a2 has the same fields as a, deleting from the card of a2 removes a in the model, the first copy, while the source removes a2. The same records remain either way, but in a different order: the model leaves [b, a2] and the source leaves [a, b].
- ManageNotes.Page.LoadNotes: the notes comparator `b.uploadedAtTs - a.uploadedAtTs` gives NaN for a record without a timestamp, and JavaScript's order is then implementation-defined. The model treats a missing timestamp as 0, as the books page does explicitly.
- NotesPage.Page.LoadNotes: the same comparator and the same treatment of a missing timestamp.
- ManageUsers.Page.HandleApprove: requires an index inside the list, because the source would append `undefined` to the approved list for any other index, and the model has no undefined record.
- Discussion.Page.constructor: requires that the display-name key holds plain text, which is all the page ever writes there.
- The dead `handleUpload` of the books page (`src/pages/Books.jsx:67-93`), which no element calls, is not modelled.
- The netlify functions and `src/config/api.js` are not part of this model, and no page in the core calls them.
- Rendering, routing beyond the redirect, styling and animation are not modelled.

## Findings

| source | as written | input that shows it | evidently intended | confidence | as-written member | corrected member |
|---|---|---|---|---|---|---|
| src/pages/Admin/ManageUsers.jsx:138-154 | the Approve and Reject buttons of the filtered table pass the row number in `filteredRequests`, and `handleApprove` and `handleReject` (lines 21-34) index the unfiltered `requests`; the approved table does the same at lines 233-243 | requests [Ann (BA), Bob (BSC)] with the department filter "BSC": row 0 shows Bob, and its Approve button approves Ann | the button acts on the student displayed in its row | not executed | ManageUsers.RowIndexMismatch | ManageUsers.IndexOfRow |
| src/pages/Admin/ManageNotes.jsx:231-255 | the Delete button of each card in `filteredNotes` passes the card's position in the filtered list, and `handleDelete` (lines 37-44) splices the unfiltered `notes` | notes [a (BA), b (BSc)] with the department filter "BSc": the only card shows b, and its Delete button removes a | the button deletes the note displayed on its card | not executed | ManageNotes.RowIndexMismatch | ManageNotes.IndexOfRow |
