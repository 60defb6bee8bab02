/**
 * The record shapes stored in the collections, and the upload form shared by
 * the books, notes and PYQ admin pages. A field a stored record lacks is
 * modelled as the empty string, which every page treats the same way.
 */
module Records {
  import opened Wrappers

  /** A book, note or PYQ upload; `uploadedAtTs` is the sort key (milliseconds). */
  datatype Upload = Upload(
    name: string,
    category: string,
    uploader: string,
    department: string,
    year: string,
    data: string,
    uploadedAt: string,
    uploadedAtTs: Option<int>)

  /** A registration request or an approved student; `email` is the key. */
  datatype Student = Student(
    name: string,
    email: string,
    rollno: string,
    department: string,
    year: string,
    mobile: string)

  /** A discussion message; admin messages carry no `name`, and `highlight` may be absent. */
  datatype Message = Message(
    text: string,
    time: string,
    from: string,
    name: Option<string>,
    highlight: Option<bool>)

  /** The chosen file, as far as the pages look at it. */
  datatype FileInfo = FileInfo(name: string, size: nat)

  /** The upload form's fields: the file, category, uploader name, department and year. */
  datatype UploadForm = UploadForm(
    file: Option<FileInfo>,
    category: string,
    name: string,
    department: string,
    year: string)

  const EMPTY_FORM := UploadForm(None, "", "", "", "")

  /** `!file || !category || !name || !department || !year`. */
  predicate MissingField(f: UploadForm) {
    f.file.None? || f.category == "" || f.name == "" || f.department == "" || f.year == ""
  }

  /** The form after an edit is saved or cancelled: text fields cleared, the file kept. */
  function ClearedText(f: UploadForm): (g: UploadForm)
    ensures g.file == f.file && MissingField(g)
  {
    f.(category := "", name := "", department := "", year := "")
  }

  /**
   * The record an accepted upload stores: the file's name, the uploader typed
   * into the form, the form's category, department and year, the encoded
   * payload and the creation time.
   */
  function NewUpload(f: UploadForm, payload: string, nowText: string, nowTs: int): (u: Upload)
    requires !MissingField(f)
    ensures u.name == f.file.value.name && u.uploader == f.name
    ensures u.category == f.category && u.department == f.department && u.year == f.year
    ensures u.data == payload && u.uploadedAt == nowText && u.uploadedAtTs == Some(nowTs)
  {
    Upload(f.file.value.name, f.category, f.name, f.department, f.year, payload, nowText, Some(nowTs))
  }

  /**
   * `{ ...u, category, uploader: name, department, year }`: the four editable
   * fields come from the form; the file name, payload and timestamps stay.
   */
  function WithFormFields(u: Upload, f: UploadForm): (r: Upload)
    ensures r.name == u.name && r.data == u.data
    ensures r.uploadedAt == u.uploadedAt && r.uploadedAtTs == u.uploadedAtTs
    ensures r.category == f.category && r.uploader == f.name
    ensures r.department == f.department && r.year == f.year
  {
    u.(category := f.category, uploader := f.name, department := f.department, year := f.year)
  }

  /** `handleEdit`: the record's category, uploader, department and year are copied into the form. */
  function FormFrom(f: UploadForm, u: Upload): (g: UploadForm)
    ensures g.file == f.file
    ensures g.category == u.category && g.name == u.uploader
    ensures g.department == u.department && g.year == u.year
  {
    f.(category := u.category, name := u.uploader, department := u.department, year := u.year)
  }

  /** Editing a record with the form filled from that same record changes nothing. */
  lemma EditWithOwnFieldsIsIdentity(f: UploadForm, u: Upload)
    ensures WithFormFields(u, FormFrom(f, u)) == u
  {
  }
}
