/**
 * The admin page for the `booksUploads` collection: upload (append), delete
 * and edit by position. Every write goes through `saveBooks`, which sets the
 * view list and the slot to the same value.
 */
module ManageBooks {
  import opened Wrappers
  import opened Records
  import opened LocalStore
  import opened Sequences

  /** The toast a handler shows. */
  datatype Toast = FillAllFields | BookUploaded | BookDeleted | BookUpdated

  class Page {
    const store: Store<Upload>
    var books: seq<Upload>
    var form: UploadForm
    var editIndex: Option<nat>
    var toast: Option<Toast>

    /**
     * Mount: `JSON.parse(localStorage.getItem("booksUploads")) || []`; an
     * absent slot reads as `[]`, text that does not decode throws.
     */
    constructor (store: Store<Upload>)
      requires DecodeNullable(store.Get(BOOKS_KEY)).Some?
      ensures this.store == store
      ensures books == DecodeNullable(store.Get(BOOKS_KEY)).value
      ensures form == EMPTY_FORM && editIndex == None && toast == None
    {
      this.store := store;
      books := DecodeNullable(store.Get(BOOKS_KEY)).value;
      form := EMPTY_FORM;
      editIndex := None;
      toast := None;
    }

    /** The storage listener: only an event for `booksUploads` reloads the list. */
    method OnStorage(eventKey: Option<string>)
      requires ForKey(eventKey, BOOKS_KEY) ==> DecodeNullable(store.Get(BOOKS_KEY)).Some?
      modifies this`books
      ensures ForKey(eventKey, BOOKS_KEY) ==> books == DecodeNullable(store.Get(BOOKS_KEY)).value
      ensures !ForKey(eventKey, BOOKS_KEY) ==> books == old(books)
    {
      if eventKey == Some(BOOKS_KEY) {
        books := DecodeNullable(store.Get(BOOKS_KEY)).value;
      }
    }

    /** `saveBooks(updated)`: the view list and the slot both become `updated`. */
    method SaveBooks(updated: seq<Upload>)
      modifies this`books, store
      ensures books == updated
      ensures store.slots == old(store.slots)[BOOKS_KEY := Records(updated)]
      ensures store.Load(BOOKS_KEY) == Some(books)
    {
      books := updated;
      store.Save(BOOKS_KEY, updated);
    }

    /**
     * `handleUpload` with the file already read into `payload`: a form with an
     * empty field is rejected and nothing is written; otherwise one record is
     * appended to the view list, saved, and the form is cleared.
     */
    method HandleUpload(payload: string, nowText: string, nowTs: int)
      modifies this, store
      ensures MissingField(old(form)) ==>
                books == old(books) && store.slots == old(store.slots) &&
                form == old(form) && toast == Some(FillAllFields)
      ensures !MissingField(old(form)) ==>
                books == old(books) + [NewUpload(old(form), payload, nowText, nowTs)] &&
                store.slots == old(store.slots)[BOOKS_KEY := Records(books)] &&
                form == EMPTY_FORM && toast == Some(BookUploaded)
      ensures editIndex == old(editIndex)
    {
      if MissingField(form) {
        toast := Some(FillAllFields);
        return;
      }
      var newBook := NewUpload(form, payload, nowText, nowTs);
      SaveBooks(books + [newBook]);
      toast := Some(BookUploaded);
      form := EMPTY_FORM;
    }

    /** `handleDelete(index)`: after confirmation exactly position `index` is removed and saved. */
    method HandleDelete(index: int, confirmed: bool)
      modifies this, store
      ensures !confirmed ==> books == old(books) && store.slots == old(store.slots) && toast == old(toast)
      ensures confirmed ==>
                books == ExceptIndex(old(books), index) &&
                store.slots == old(store.slots)[BOOKS_KEY := Records(books)] &&
                toast == Some(BookDeleted)
      ensures form == old(form) && editIndex == old(editIndex)
    {
      if !confirmed {
        return;
      }
      SaveBooks(ExceptIndex(books, index));
      toast := Some(BookDeleted);
    }

    /** `handleEdit(index)`: the row enters edit mode with its fields copied into the form. */
    method HandleEdit(index: nat)
      requires index < |books|
      modifies this`editIndex, this`form
      ensures editIndex == Some(index)
      ensures form == FormFrom(old(form), books[index])
    {
      editIndex := Some(index);
      form := FormFrom(form, books[index]);
    }

    /**
     * `handleSaveEdit(index)`: only position `index` changes, taking the
     * form's four editable fields; the form's text fields are then cleared.
     */
    method HandleSaveEdit(index: nat)
      requires index < |books|
      modifies this, store
      ensures books == old(books)[index := WithFormFields(old(books)[index], old(form))]
      ensures store.slots == old(store.slots)[BOOKS_KEY := Records(books)]
      ensures editIndex == None && form == ClearedText(old(form)) && toast == Some(BookUpdated)
    {
      var updated := books[index := WithFormFields(books[index], form)];
      SaveBooks(updated);
      editIndex := None;
      form := ClearedText(form);
      toast := Some(BookUpdated);
    }

    /** `handleCancelEdit`: leaves edit mode and clears the form's text fields. */
    method HandleCancelEdit()
      modifies this`editIndex, this`form
      ensures editIndex == None && form == ClearedText(old(form))
    {
      editIndex := None;
      form := ClearedText(form);
    }
  }

  /** An edit changes the length of nothing and no record but the edited one. */
  lemma SaveEditTouchesOnePosition(books: seq<Upload>, index: nat, f: UploadForm)
    requires index < |books|
    ensures var r := books[index := WithFormFields(books[index], f)];
            |r| == |books| &&
            (forall k | 0 <= k < |books| && k != index :: r[k] == books[k]) &&
            r[index].name == books[index].name && r[index].data == books[index].data &&
            r[index].uploadedAt == books[index].uploadedAt &&
            r[index].uploadedAtTs == books[index].uploadedAtTs
  {
  }
}
