/** The command handlers that read or change the table outside the add
    conversation: `/list`, `/delete <id>`, `/weekly`, and the weekly job
    that sends every chat its digest. */
module Commands {
  import opened Strings
  import opened Calendar
  import opened MeetingStore
  import opened Render

  // ---------------------------------------------------------------- /list

  /** `list_cmd`: the chat's meetings, ordered by start, rendered as `/list`
      renders them; nothing changes. */
  method ListCommand(store: Store, chatId: int) returns (reply: string)
    requires store.Valid()
    ensures exists r :: IsListing(store.rows, ByChat(chatId), r) && AllWellFormed(r) && reply == ListText(r)
    ensures reply == NoMeetingsStored <==> SelectedRows(store.rows, ByChat(chatId)) == {}
    ensures forall m :: m in SelectedRows(store.rows, ByChat(chatId)) ==> WellFormed(m) && Contains(reply, FormatRow(m))
  {
    var rows := store.ListForChat(chatId);
    ListingMembers(store.rows, ByChat(chatId), rows);
    ListingEmpty(store.rows, ByChat(chatId), rows);
    ListTextEmpty(rows);
    reply := ListText(rows);
    forall m | m in SelectedRows(store.rows, ByChat(chatId))
      ensures WellFormed(m) && Contains(reply, FormatRow(m))
    {
      var k :| 0 <= k < |rows| && rows[k] == m;
      ListTextShowsRow(rows, k);
    }
  }

  // ---------------------------------------------------------------- /delete

  /** The outcomes of `/delete`: five answers, and the `OverflowError` that
      `get_meeting` raises for an id outside sqlite's 64-bit range. */
  datatype DeleteReply = Usage | NotANumber | IdOverflow | NotFound | OtherChat | Deleted

  /** The text sent back; the overflow escapes the handler and nothing is
      sent. */
  function DeleteReplyText(r: DeleteReply): (t: Option<string>)
    ensures t.None? <==> r == IdOverflow
  {
    match r
    case Usage => Some("Usage: /delete <id>")
    case NotANumber => Some("ID must be a number.")
    case IdOverflow => None
    case NotFound => Some("No meeting with that ID.")
    case OtherChat => Some("You can only delete meetings in this chat.")
    case Deleted => Some("Deleted ✅")
  }

  /** `delete_cmd` in chat `chatId` with the command's arguments: a row is
      deleted only when the first argument is a number naming a row of this
      chat; every refusal leaves the table as it was. */
  method DeleteCommand(store: Store, chatId: int, args: seq<string>) returns (reply: DeleteReply)
    requires store.Valid()
    modifies store
    ensures store.Valid() && store.nextId == old(store.nextId)
    ensures reply == Usage <==> args == []
    ensures reply == NotANumber <==> args != [] && ParseInt(args[0]).None?
    ensures reply == IdOverflow <==>
              args != [] && ParseInt(args[0]).Some? && !FitsSqlInt(ParseInt(args[0]).value)
    ensures reply == NotFound <==>
              && args != [] && ParseInt(args[0]).Some? && FitsSqlInt(ParseInt(args[0]).value)
              && ParseInt(args[0]).value !in old(store.rows)
    ensures reply == OtherChat <==>
              && args != [] && ParseInt(args[0]).Some? && FitsSqlInt(ParseInt(args[0]).value)
              && ParseInt(args[0]).value in old(store.rows)
              && old(store.rows)[ParseInt(args[0]).value].chatId != chatId
    ensures reply == Deleted <==>
              && args != [] && ParseInt(args[0]).Some? && FitsSqlInt(ParseInt(args[0]).value)
              && ParseInt(args[0]).value in old(store.rows)
              && old(store.rows)[ParseInt(args[0]).value].chatId == chatId
    ensures reply == Deleted ==> store.rows == old(store.rows) - {ParseInt(args[0]).value}
    ensures reply != Deleted ==> store.rows == old(store.rows)
  {
    if args == [] {
      return Usage;
    }
    var id := ParseInt(args[0]);
    if id.None? {
      return NotANumber;
    }
    if !FitsSqlInt(id.value) {
      return IdOverflow;
    }
    var m := store.Get(id.value);
    if m.None? {
      return NotFound;
    }
    if m.value.chatId != chatId {
      return OtherChat;
    }
    store.Delete(id.value);
    reply := Deleted;
  }

  // ---------------------------------------------------------------- the weekly digest

  /** A message sent to a chat. */
  datatype Message = Message(chatId: int, text: string)

  /** `now + timedelta(days=7)`: the same reading seven days later. */
  function WeekLater(now: Instant): (later: Instant)
    requires 1 <= now.at.month <= 12
    ensures Before(now.at, later.at) && 1 <= later.at.month <= 12
    ensures later.at.hour == now.at.hour && later.at.minute == now.at.minute && later.micros == now.micros
    ensures 1 <= now.at.day <= DaysInMonth(now.at.year, now.at.month) ==>
              Ordinal(later.at) == Ordinal(now.at) + 7
  {
    Instant(AddDays(now.at, 7), now.micros)
  }

  /** `text` is the digest of some correct answer to the chat's query for
      the window from `now` to a week later, both ends included. */
  ghost predicate IsDigestFor(rows: map<int, Meeting>, chatId: int, now: Instant, text: string)
    requires 1 <= now.at.month <= 12
  {
    exists r :: IsListing(rows, Window(chatId, now, WeekLater(now)), r) && AllWellFormed(r) && text == Digest(r)
  }

  /** `send_weekly_for_chat` with the clock reading `now`: the message for
      the chat is its digest of the coming week, which names every meeting of
      that week and is the empty-week message exactly when there is none. */
  method SendWeeklyForChat(store: Store, chatId: int, now: Instant) returns (msg: Message)
    requires store.Valid() && Calendar.Valid(now.at)
    ensures msg.chatId == chatId
    ensures IsDigestFor(store.rows, chatId, now, msg.text)
    ensures msg.text == EmptyDigest <==> SelectedRows(store.rows, Window(chatId, now, WeekLater(now))) == {}
    ensures forall m :: m in SelectedRows(store.rows, Window(chatId, now, WeekLater(now))) ==>
              WellFormed(m) && Contains(msg.text, FormatRow(m))
  {
    var f := Window(chatId, now, WeekLater(now));
    var rows := store.InRange(chatId, now, WeekLater(now));
    ListingMembers(store.rows, f, rows);
    ListingEmpty(store.rows, f, rows);
    DigestEmpty(rows);
    var text := DigestText(rows);
    forall m | m in SelectedRows(store.rows, f)
      ensures WellFormed(m) && Contains(text, FormatRow(m))
    {
      var k :| 0 <= k < |rows| && rows[k] == m;
      DigestShowsRow(rows, k);
    }
    msg := Message(chatId, text);
  }

  /** `weekly_now`: the current chat gets its digest, then the reply. */
  method WeeklyCommand(store: Store, chatId: int, now: Instant) returns (msg: Message, reply: string)
    requires store.Valid() && Calendar.Valid(now.at)
    ensures msg.chatId == chatId && IsDigestFor(store.rows, chatId, now, msg.text)
    ensures reply == "Weekly schedule sent."
  {
    msg := SendWeeklyForChat(store, chatId, now);
    reply := "Weekly schedule sent.";
  }

  /** Recording chat `c` moves it from the chats still to do to the chats
      sent to. */
  lemma SentKeysStep(chats: set<int>, todo: set<int>, sent: map<int, string>, c: int, text: string)
    requires c in todo && todo <= chats && sent.Keys == chats - todo
    ensures sent[c := text].Keys == chats - (todo - {c})
  {
  }

  /** Recording chat `c`'s digest keeps every recorded text a digest. */
  lemma SentDigestsStep(rows: map<int, Meeting>, now: Instant, sent: map<int, string>,
                        next: map<int, string>, c: int, text: string)
    requires 1 <= now.at.month <= 12
    requires next == sent[c := text]
    requires forall c' :: c' in sent ==> IsDigestFor(rows, c', now, sent[c'])
    requires IsDigestFor(rows, c, now, text)
    ensures forall c' :: c' in next ==> IsDigestFor(rows, c', now, next[c'])
  {
    forall c' | c' in next
      ensures IsDigestFor(rows, c', now, next[c'])
    {
      if c' != c {
        assert next[c'] == sent[c'];
      }
    }
  }

  /** `scheduled_weekly_job`: one digest to each chat that has a stored
      meeting, in no particular order; the result maps each chat to the text
      it was sent, so no chat is sent two digests. */
  method ScheduledWeeklyJob(store: Store, now: Instant) returns (sent: map<int, string>)
    requires store.Valid() && Calendar.Valid(now.at)
    ensures sent.Keys == store.Chats()
    ensures forall c :: c in sent ==> IsDigestFor(store.rows, c, now, sent[c])
  {
    var chats := store.Chats();
    var todo := chats;
    sent := map[];
    while todo != {}
      invariant todo <= chats
      invariant sent.Keys == chats - todo
      invariant forall c :: c in sent ==> IsDigestFor(store.rows, c, now, sent[c])
      decreases todo
    {
      var c :| c in todo;
      var msg := SendWeeklyForChat(store, c, now);
      SentKeysStep(chats, todo, sent, c, msg.text);
      SentDigestsStep(store.rows, now, sent, sent[c := msg.text], c, msg.text);
      sent := sent[c := msg.text];
      todo := todo - {c};
    }
  }
}
