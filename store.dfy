/**
 * The browser's local storage as the pages use it: named slots, each holding
 * the JSON text of a list of records, read with `JSON.parse` and replaced
 * whole with `setItem`. JSON text itself is not modelled: a slot either holds
 * the encoding of a record list or some other text that does not decode to one.
 */
module LocalStore {
  import opened Wrappers

  const BOOKS_KEY := "booksUploads"
  const NOTES_KEY := "notesUploads"
  const PYQS_KEY := "pyqsUploads"
  const DISCUSSION_KEY := "discussion_msgs"
  const DISCUSSION_USER_KEY := "discussion_user"
  const REQUESTS_KEY := "student_requests"
  const APPROVED_KEY := "approved_students"

  /** The content of one slot. */
  datatype Slot<T> = Records(items: seq<T>) | Text(text: string)

  /**
   * `JSON.parse(localStorage.getItem(key) || "[]")`: an absent slot or an empty
   * string reads as `[]`; other text fails to decode (`JSON.parse` throws).
   */
  function Decode<T>(slot: Option<Slot<T>>): (r: Option<seq<T>>)
    ensures slot.None? ==> r == Some([])
    ensures slot.Some? && slot.value.Records? ==> r == Some(slot.value.items)
    ensures slot == Some(Text("")) ==> r == Some([])
    ensures r.None? <==> slot.Some? && slot.value.Text? && slot.value.text != ""
  {
    match slot
    case None => Some([])
    case Some(Records(items)) => Some(items)
    case Some(Text(t)) => if t == "" then Some([]) else None
  }

  /**
   * `JSON.parse(localStorage.getItem(key)) || []`: `getItem` yields null for an
   * absent slot and `JSON.parse(null)` is null, so that reads as `[]`; an empty
   * string is not valid JSON and fails like any other text.
   */
  function DecodeNullable<T>(slot: Option<Slot<T>>): (r: Option<seq<T>>)
    ensures slot.None? ==> r == Some([])
    ensures slot.Some? && slot.value.Records? ==> r == Some(slot.value.items)
    ensures r.None? <==> slot.Some? && slot.value.Text?
  {
    match slot
    case None => Some([])
    case Some(Records(items)) => Some(items)
    case Some(Text(_)) => None
  }

  /** The discussion pages' guarded read: a failed decode is caught and becomes `[]`. */
  function DecodeOrEmpty<T>(slot: Option<Slot<T>>): (r: seq<T>)
    ensures Decode(slot).Some? ==> r == Decode(slot).value
    ensures Decode(slot).None? ==> r == []
  {
    Decode(slot).GetOr([])
  }

  /** The local storage of one origin, seen as slots of records of type `T`. */
  class Store<T> {
    var slots: map<string, Slot<T>>

    constructor (initial: map<string, Slot<T>>)
      ensures slots == initial
    {
      slots := initial;
    }

    /** `localStorage.getItem(key)`, null when absent. */
    function Get(key: string): Option<Slot<T>>
      reads this
    {
      if key in slots then Some(slots[key]) else None
    }

    /** The decoded list in slot `key`, None when the stored text does not decode. */
    function Load(key: string): Option<seq<T>>
      reads this
    {
      Decode(Get(key))
    }

    /** `localStorage.setItem(key, JSON.stringify(items))`: replaces the whole slot. */
    method Save(key: string, items: seq<T>)
      modifies this
      ensures slots == old(slots)[key := Records(items)]
      ensures Load(key) == Some(items)
    {
      slots := slots[key := Records(items)];
    }

    /** `localStorage.setItem(key, text)` for a plain string value. */
    method SaveText(key: string, text: string)
      modifies this
      ensures slots == old(slots)[key := Text(text)]
    {
      slots := slots[key := Text(text)];
    }
  }

  /** A `storage` event: the key it names (none for a bare `new Event("storage")`) and the new text. */
  datatype StorageEvent<T> = StorageEvent(key: Option<string>, newValue: Option<Slot<T>>)

  /** Handlers written `if (e.key === key)`. */
  predicate ForKey(eventKey: Option<string>, key: string) {
    eventKey == Some(key)
  }

  /** Handlers written `if (!e.key || e.key === key)`: also keyless events, such as a page's own dispatch. */
  predicate ForKeyOrUnkeyed(eventKey: Option<string>, key: string) {
    eventKey.None? || eventKey.value == "" || eventKey.value == key
  }

  /**
   * The discussion pages' listener: an event for `key` replaces the list with
   * the decoded `newValue` (absent or undecodable: `[]`); other events leave it.
   */
  function AfterEvent<T>(e: StorageEvent<T>, key: string, current: seq<T>): (r: seq<T>)
    ensures ForKey(e.key, key) ==> r == DecodeOrEmpty(e.newValue)
    ensures !ForKey(e.key, key) ==> r == current
  {
    if ForKey(e.key, key) then DecodeOrEmpty(e.newValue) else current
  }

  /** Both kinds of handler react to an event for their own key, and neither to another named key. */
  lemma KeyFiltersAgreeOnNamedKeys(eventKey: string, key: string)
    requires eventKey != ""
    ensures ForKey(Some(eventKey), key) == ForKeyOrUnkeyed(Some(eventKey), key)
    ensures ForKey(Some(eventKey), key) <==> eventKey == key
  {
  }
}
