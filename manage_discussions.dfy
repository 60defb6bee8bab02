/**
 * The admin view of the discussion board (`discussion_msgs`): a guarded load,
 * delete and highlight by position, and admin posts.
 */
module ManageDiscussions {
  import opened Wrappers
  import opened Records
  import opened LocalStore
  import opened Sequences
  import opened Text

  /** `{ ...msg, highlight: !msg.highlight }`; an absent flag negates to true. */
  function Toggled(m: Message): (r: Message)
    ensures r.text == m.text && r.time == m.time && r.from == m.from && r.name == m.name
    ensures r.highlight == Some(!m.highlight.GetOr(false))
  {
    m.(highlight := Some(!m.highlight.GetOr(false)))
  }

  /** `messages.map((msg, k) => k === i ? toggled(msg) : msg)`. */
  function ToggleAt(ms: seq<Message>, i: int): (r: seq<Message>)
    ensures |r| == |ms|
    ensures forall k | 0 <= k < |ms| && k != i :: r[k] == ms[k]
    ensures 0 <= i < |ms| ==> r[i] == Toggled(ms[i])
  {
    seq(|ms|, k requires 0 <= k < |ms| => if k == i then Toggled(ms[k]) else ms[k])
  }

  /** Highlighting the same message twice restores the list when that message had a flag. */
  lemma ToggleTwiceRestores(ms: seq<Message>, i: int)
    requires 0 <= i < |ms| ==> ms[i].highlight.Some?
    ensures ToggleAt(ToggleAt(ms, i), i) == ms
  {
    var r := ToggleAt(ToggleAt(ms, i), i);
    forall k | 0 <= k < |ms| ensures r[k] == ms[k] {
      if k == i {
        assert r[k].highlight == ms[k].highlight;
      }
    }
  }

  /** A message stored without a flag comes back from two toggles with `highlight: false`, not as it was. */
  lemma ToggleTwiceAddsFlag(m: Message)
    requires m.highlight.None?
    ensures ToggleAt(ToggleAt([m], 0), 0) == [m.(highlight := Some(false))]
    ensures ToggleAt(ToggleAt([m], 0), 0) != [m]
  {
    assert ToggleAt(ToggleAt([m], 0), 0)[0] == m.(highlight := Some(false));
  }

  /** The message `handleAdminSend` posts: the untrimmed input, from "Admin", no name, not highlighted. */
  function AdminMessage(input: string, nowText: string): Message {
    Message(input, nowText, "Admin", None, Some(false))
  }

  class Page {
    const store: Store<Message>
    var messages: seq<Message>
    var adminInput: string

    /** Mount: the read is guarded, so an absent or undecodable slot gives `[]`. */
    constructor (store: Store<Message>)
      ensures this.store == store
      ensures messages == DecodeOrEmpty(store.Get(DISCUSSION_KEY))
      ensures adminInput == ""
    {
      this.store := store;
      messages := DecodeOrEmpty(store.Get(DISCUSSION_KEY));
      adminInput := "";
    }

    /** The storage listener: only `discussion_msgs` events, whose new value is decoded with the same guard. */
    method OnStorage(e: StorageEvent<Message>)
      modifies this`messages
      ensures messages == AfterEvent(e, DISCUSSION_KEY, old(messages))
    {
      messages := AfterEvent(e, DISCUSSION_KEY, messages);
    }

    /** `saveAndSync(updated)`: the view list and the slot both become `updated`. */
    method SaveAndSync(updated: seq<Message>)
      modifies this`messages, store
      ensures messages == updated
      ensures store.slots == old(store.slots)[DISCUSSION_KEY := Records(updated)]
      ensures store.Load(DISCUSSION_KEY) == Some(messages)
    {
      messages := updated;
      store.Save(DISCUSSION_KEY, updated);
    }

    /** `handleDelete(index)`: after confirmation exactly position `index` is removed. */
    method HandleDelete(index: int, confirmed: bool)
      modifies this`messages, store
      ensures !confirmed ==> messages == old(messages) && store.slots == old(store.slots)
      ensures confirmed ==>
                messages == ExceptIndex(old(messages), index) &&
                store.slots == old(store.slots)[DISCUSSION_KEY := Records(messages)]
    {
      if !confirmed {
        return;
      }
      SaveAndSync(ExceptIndex(messages, index));
    }

    /** `handleHighlight(index)`: message `index` has its flag flipped; nothing else changes. */
    method HandleHighlight(index: int)
      modifies this`messages, store
      ensures messages == ToggleAt(old(messages), index)
      ensures store.slots == old(store.slots)[DISCUSSION_KEY := Records(messages)]
    {
      SaveAndSync(ToggleAt(messages, index));
    }

    /** `handleAdminSend`: blank input changes nothing; otherwise one admin message is appended. */
    method HandleAdminSend(nowText: string)
      modifies this, store
      ensures IsBlank(old(adminInput)) ==>
                messages == old(messages) && store.slots == old(store.slots) && adminInput == old(adminInput)
      ensures !IsBlank(old(adminInput)) ==>
                messages == old(messages) + [AdminMessage(old(adminInput), nowText)] &&
                store.slots == old(store.slots)[DISCUSSION_KEY := Records(messages)] &&
                adminInput == ""
    {
      if Trim(adminInput) == "" {
        return;
      }
      SaveAndSync(messages + [AdminMessage(adminInput, nowText)]);
      adminInput := "";
    }
  }
}
