/**
 * The admin page for the `pyqsUploads` collection. Its upload re-reads the
 * slot, appends, and writes inside a try block, so a slot that does not
 * decode or a write that fails only sets a failure status.
 */
module ManagePYQs {
  import opened Wrappers
  import opened Records
  import opened LocalStore
  import opened Sequences

  /** The status line. */
  datatype Status = Idle | Uploading | FillAllFields | ReadFailed | SaveFailed | Uploaded | Deleted | Updated

  class Page {
    const store: Store<Upload>
    var pyqs: seq<Upload>
    var form: UploadForm
    var editIndex: Option<nat>
    var status: Status

    /** Mount: `JSON.parse(localStorage.getItem("pyqsUploads") || "[]")`, which throws on undecodable text. */
    constructor (store: Store<Upload>)
      requires store.Load(PYQS_KEY).Some?
      ensures this.store == store
      ensures pyqs == store.Load(PYQS_KEY).value
      ensures form == EMPTY_FORM && editIndex == None && status == Idle
    {
      this.store := store;
      pyqs := store.Load(PYQS_KEY).value;
      form := EMPTY_FORM;
      editIndex := None;
      status := Idle;
    }

    /** `savePYQs(updated)`: the view list and the slot both become `updated`. */
    method SavePYQs(updated: seq<Upload>)
      modifies this`pyqs, store
      ensures pyqs == updated
      ensures store.slots == old(store.slots)[PYQS_KEY := Records(updated)]
      ensures store.Load(PYQS_KEY) == Some(pyqs)
    {
      pyqs := updated;
      store.Save(PYQS_KEY, updated);
    }

    /**
     * `handleUpload`. `read` is the file reader's outcome (None: `onerror`),
     * `writeSucceeds` whether `setItem` returns rather than throws. The new
     * record is appended to what the slot holds now, not to the view's copy.
     */
    method HandleUpload(read: Option<string>, nowText: string, nowTs: int, writeSucceeds: bool)
      modifies this, store
      ensures MissingField(old(form)) ==>
                status == FillAllFields && form == old(form) &&
                pyqs == old(pyqs) && store.slots == old(store.slots)
      ensures !MissingField(old(form)) && read.None? ==>
                status == ReadFailed && form == old(form) &&
                pyqs == old(pyqs) && store.slots == old(store.slots)
      ensures !MissingField(old(form)) && read.Some? ==> form == EMPTY_FORM
      ensures !MissingField(old(form)) && read.Some? &&
              (old(store.Load(PYQS_KEY)).None? || !writeSucceeds) ==>
                status == SaveFailed && pyqs == old(pyqs) && store.slots == old(store.slots)
      ensures !MissingField(old(form)) && read.Some? &&
              old(store.Load(PYQS_KEY)).Some? && writeSucceeds ==>
                status == Uploaded &&
                pyqs == old(store.Load(PYQS_KEY)).value + [NewUpload(old(form), read.value, nowText, nowTs)] &&
                store.slots == old(store.slots)[PYQS_KEY := Records(pyqs)]
      ensures editIndex == old(editIndex)
    {
      status := Uploading;
      if MissingField(form) {
        status := FillAllFields;
        return;
      }
      if read.None? {
        status := ReadFailed;
        return;
      }
      var newPYQ := NewUpload(form, read.value, nowText, nowTs);
      var existing := store.Load(PYQS_KEY);
      if existing.None? || !writeSucceeds {
        // JSON.parse or setItem threw: caught, nothing written
        status := SaveFailed;
      } else {
        var updated := existing.value + [newPYQ];
        store.Save(PYQS_KEY, updated);
        pyqs := updated;
        status := Uploaded;
      }
      form := EMPTY_FORM;
    }

    /** `handleDelete(index)`: after confirmation exactly position `index` is removed and saved. */
    method HandleDelete(index: int, confirmed: bool)
      modifies this, store
      ensures !confirmed ==> pyqs == old(pyqs) && store.slots == old(store.slots) && status == old(status)
      ensures confirmed ==>
                pyqs == ExceptIndex(old(pyqs), index) &&
                store.slots == old(store.slots)[PYQS_KEY := Records(pyqs)] &&
                status == Deleted
      ensures form == old(form) && editIndex == old(editIndex)
    {
      if !confirmed {
        return;
      }
      SavePYQs(ExceptIndex(pyqs, index));
      status := Deleted;
    }

    /** `handleEdit(index)`: the row enters edit mode with its fields copied into the form. */
    method HandleEdit(index: nat)
      requires index < |pyqs|
      modifies this`editIndex, this`form
      ensures editIndex == Some(index)
      ensures form == FormFrom(old(form), pyqs[index])
    {
      editIndex := Some(index);
      form := FormFrom(form, pyqs[index]);
    }

    /**
     * `handleSaveEdit(index)`: only position `index` changes, taking the
     * form's category, uploader, department and year.
     */
    method HandleSaveEdit(index: nat)
      requires index < |pyqs|
      modifies this, store
      ensures pyqs == old(pyqs)[index := WithFormFields(old(pyqs)[index], old(form))]
      ensures store.slots == old(store.slots)[PYQS_KEY := Records(pyqs)]
      ensures editIndex == None && form == ClearedText(old(form)) && status == Updated
    {
      SavePYQs(pyqs[index := WithFormFields(pyqs[index], form)]);
      editIndex := None;
      form := ClearedText(form);
      status := Updated;
    }

    /** `handleCancelEdit`: leaves edit mode, clears the form's text fields and the status. */
    method HandleCancelEdit()
      modifies this`editIndex, this`form, this`status
      ensures editIndex == None && form == ClearedText(old(form)) && status == Idle
    {
      editIndex := None;
      form := ClearedText(form);
      status := Idle;
    }
  }
}
