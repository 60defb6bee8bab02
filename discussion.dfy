/**
 * The discussion board as a student (or admin) sees it: a guarded load,
 * posting with a display name, and the split of messages into the admin
 * panel and the rest.
 */
module Discussion {
  import opened Wrappers
  import opened Records
  import opened LocalStore
  import opened Sequences
  import opened Text

  /** `sessionStorage.getItem("role") || "student"`. */
  function SessionRole(stored: Option<string>): (role: string)
    ensures stored.None? || stored.value == "" ==> role == "student"
    ensures stored.Some? && stored.value != "" ==> role == stored.value
  {
    if stored.Some? && stored.value != "" then stored.value else "student"
  }

  /** The `from` of a new message: "Admin" for the admin role, "Student" for any other. */
  function Author(role: string): (from: string)
    ensures from == "Admin" <==> role == "admin"
    ensures from == "Admin" || from == "Student"
  {
    if role == "admin" then "Admin" else "Student"
  }

  /** The message `handleSend` posts: the untrimmed input, the author tag, the display name, not highlighted. */
  function NewMessage(input: string, nowText: string, role: string, username: string): Message {
    Message(input, nowText, Author(role), Some(username), Some(false))
  }

  predicate FromAdmin(m: Message) {
    m.from == "Admin"
  }

  predicate NotFromAdmin(m: Message) {
    m.from != "Admin"
  }

  /** `adminMessages`. */
  function AdminMessages(ms: seq<Message>): seq<Message> {
    Filter(ms, FromAdmin)
  }

  /** `otherMessages`. */
  function OtherMessages(ms: seq<Message>): seq<Message> {
    Filter(ms, NotFromAdmin)
  }

  /**
   * The two panels partition the board: each keeps the board's order, each
   * message shows in exactly the panel its author selects, and together they
   * hold every message once.
   */
  lemma PanelsPartition(ms: seq<Message>)
    ensures IsSubseq(AdminMessages(ms), ms) && IsSubseq(OtherMessages(ms), ms)
    ensures forall i | 0 <= i < |ms| ::
              (ms[i] in AdminMessages(ms) <==> ms[i].from == "Admin") &&
              (ms[i] in OtherMessages(ms) <==> ms[i].from != "Admin")
    ensures |AdminMessages(ms)| + |OtherMessages(ms)| == |ms|
    ensures multiset(AdminMessages(ms)) + multiset(OtherMessages(ms)) == multiset(ms)
  {
    FilterSplit(ms, FromAdmin, NotFromAdmin);
  }

  /** `localStorage.getItem("discussion_user") || ""`; the key only ever holds plain text. */
  function StoredUser(slot: Option<Slot<Message>>): string
    requires slot.None? || slot.value.Text?
  {
    if slot.None? then "" else slot.value.text
  }

  class Page {
    const store: Store<Message>
    const role: string
    var messages: seq<Message>
    var input: string
    var username: string

    /** Mount: a guarded read of the board, the saved display name, and the session role. */
    constructor (store: Store<Message>, sessionRole: Option<string>)
      requires store.Get(DISCUSSION_USER_KEY).None? || store.Get(DISCUSSION_USER_KEY).value.Text?
      ensures this.store == store && role == SessionRole(sessionRole)
      ensures messages == DecodeOrEmpty(store.Get(DISCUSSION_KEY))
      ensures username == StoredUser(store.Get(DISCUSSION_USER_KEY)) && input == ""
    {
      this.store := store;
      role := SessionRole(sessionRole);
      messages := DecodeOrEmpty(store.Get(DISCUSSION_KEY));
      username := StoredUser(store.Get(DISCUSSION_USER_KEY));
      input := "";
    }

    /** The storage listener: only `discussion_msgs` events, whose new value is decoded with the same guard. */
    method OnStorage(e: StorageEvent<Message>)
      modifies this`messages
      ensures messages == AfterEvent(e, DISCUSSION_KEY, old(messages))
    {
      messages := AfterEvent(e, DISCUSSION_KEY, messages);
    }

    /** Typing a display name saves it under its own key at once. */
    method ChangeUsername(name: string)
      modifies this`username, store
      ensures username == name
      ensures store.slots == old(store.slots)[DISCUSSION_USER_KEY := Text(name)]
    {
      username := name;
      store.SaveText(DISCUSSION_USER_KEY, name);
    }

    /**
     * `handleSend`: with a blank message or a blank name an alert is raised
     * and nothing is written; otherwise one message is appended and saved.
     */
    method HandleSend(nowText: string) returns (alerted: bool)
      modifies this`messages, this`input, store
      ensures alerted <==> IsBlank(old(input)) || IsBlank(username)
      ensures alerted ==> messages == old(messages) && input == old(input) && store.slots == old(store.slots)
      ensures !alerted ==>
                messages == old(messages) + [NewMessage(old(input), nowText, role, username)] &&
                store.slots == old(store.slots)[DISCUSSION_KEY := Records(messages)] &&
                input == ""
    {
      if Trim(input) == "" || Trim(username) == "" {
        return true;
      }
      var updated := messages + [NewMessage(input, nowText, role, username)];
      messages := updated;
      store.Save(DISCUSSION_KEY, updated);
      input := "";
      return false;
    }
  }
}
