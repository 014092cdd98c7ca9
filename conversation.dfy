/** The `/add` conversation: `/add`, then a title, then a description or
    `/skip`, then a date/time range, with `/cancel` available at every step.
    The handlers keep the meeting being built in the user's `new_meeting`
    entry and store it once the range parses. */
module AddConversation {
  import opened Strings
  import opened Calendar
  import opened TimeFormat
  import MeetingStore

  /** Where the conversation stands: not in progress, or waiting for the
      title (`ADD_TITLE`), the description (`ADD_DESC`) or the range
      (`ADD_START`). */
  datatype State = Idle | AwaitTitle | AwaitDesc | AwaitRange

  /** An incoming update: plain text, or a command such as `/skip`. */
  datatype Event = Text(text: string) | Command(name: string)

  /** The `new_meeting` entry: it is created with a title; the description
      and then the start and end are filled in later. */
  datatype Draft = Draft(title: string, description: Option<string>, start: Option<Stamp>, end: Option<Stamp>)

  /** The arguments of the `add_meeting` call that ends a conversation. */
  datatype NewMeeting = NewMeeting(title: string, description: string, start: Stamp, end: Stamp)

  /** The result of handling one event: the next state, the `new_meeting`
      entry afterwards, the meeting to store (if any) and the reply sent
      (if any). */
  datatype Outcome = Outcome(state: State, draft: Option<Draft>, commit: Option<NewMeeting>, reply: Option<string>)

  const AskTitle := "Send meeting title:"
  const AskDesc := "Send a description (or /skip):"
  const AskRange := "Send date/time range (YYYY MM DD HHMM - HHMM):"
  const ParseError := "Couldn't parse. Format: YYYY MM DD HHMM - HHMM"
  const Added := "Meeting added ✅"
  const Cancelled := "Add cancelled."

  /** What each waiting state relies on having been stored before it: a
      title when the description is asked for, a title and a description
      when the range is asked for. */
  predicate Inv(s: State, d: Option<Draft>) {
    && (s == AwaitDesc ==> d.Some?)
    && (s == AwaitRange ==> d.Some? && d.value.description.Some?)
  }

  /** One update through the conversation handler. Only the handlers of the
      current state and the `/cancel` fallback (while a conversation is in
      progress) react; any other update leaves everything as it was. */
  function Transition(s: State, d: Option<Draft>, e: Event): (o: Outcome)
    requires Inv(s, d)
    ensures Inv(o.state, o.draft)
    ensures o.commit.Some? ==> s == AwaitRange && e.Text? && o.state == Idle && o.reply == Some(Added)
    ensures o.reply.None? ==> o == Outcome(s, d, None, None)
  {
    match s
    case Idle =>
      if e == Command("add") then Outcome(AwaitTitle, d, None, Some(AskTitle)) else Outcome(s, d, None, None)
    case AwaitTitle =>
      if e.Text? then Outcome(AwaitDesc, Some(Draft(Strip(e.text), None, None, None)), None, Some(AskDesc))
      else Fallback(s, d, e)
    case AwaitDesc =>
      if e.Text? then Outcome(AwaitRange, Some(d.value.(description := Some(Strip(e.text)))), None, Some(AskRange))
      else if e == Command("skip") then Outcome(AwaitRange, Some(d.value.(description := Some(""))), None, Some(AskRange))
      else Fallback(s, d, e)
    case AwaitRange =>
      if e.Text? then RangeReceived(d, ParseRange(Strip(e.text))) else Fallback(s, d, e)
  }

  /** The `/cancel` fallback of a conversation in progress; any other update
      that no handler of the state takes is ignored. */
  function Fallback(s: State, d: Option<Draft>, e: Event): (o: Outcome)
    ensures Inv(s, d) ==> Inv(o.state, o.draft)
    ensures o.commit.None?
    ensures o.reply.Some? <==> e == Command("cancel")
    ensures o.reply.Some? ==> o.state == Idle && o.draft.None?
    ensures o.reply.None? ==> o.state == s && o.draft == d
  {
    if e == Command("cancel") then Outcome(Idle, None, None, Some(Cancelled)) else Outcome(s, d, None, None)
  }

  /** `add_start_dt` once the stripped text has gone through `parse_dt`: a
      failed parse asks again; a successful one completes the entry (which
      stays in the user's data) and stores the meeting. */
  function RangeReceived(d: Option<Draft>, p: Option<Range>): (o: Outcome)
    requires Inv(AwaitRange, d)
    ensures Inv(o.state, o.draft)
    ensures o.commit.Some? <==> p.Some?
    ensures p.None? ==> o == Outcome(AwaitRange, d, None, Some(ParseError))
    ensures p.Some? ==>
              && o.state == Idle && o.reply == Some(Added)
              && o.commit.value == NewMeeting(d.value.title, d.value.description.value, p.value.start, p.value.end)
              && o.draft.Some? && o.draft.value.title == d.value.title
              && o.draft.value.description == d.value.description
              && o.draft.value.start == Some(p.value.start)
              && o.draft.value.end == Some(p.value.end)
  {
    match p
    case None => Outcome(AwaitRange, d, None, Some(ParseError))
    case Some(r) =>
      var nm := d.value.(start := Some(r.start), end := Some(r.end));
      Outcome(Idle, Some(nm), Some(NewMeeting(nm.title, nm.description.value, r.start, r.end)), Some(Added))
  }

  // ---------------------------------------------------------------- properties

  /** `/cancel` ends any conversation in progress and discards the entry. */
  lemma CancelEnds(s: State, d: Option<Draft>)
    requires Inv(s, d) && s != Idle
    ensures Transition(s, d, Command("cancel")) == Outcome(Idle, None, None, Some(Cancelled))
  {
  }

  /** A meeting is stored exactly when a range arrives while one is awaited
      and it parses; it carries the title and description collected before
      and the parsed start and end. */
  lemma CommitIffParsed(s: State, d: Option<Draft>, e: Event)
    requires Inv(s, d)
    ensures Transition(s, d, e).commit.Some?
            <==> s == AwaitRange && e.Text? && ParseRange(Strip(e.text)).Some?
    ensures Transition(s, d, e).commit.Some? ==>
              var r := ParseRange(Strip(e.text)).value;
              Transition(s, d, e).commit.value
                == NewMeeting(d.value.title, d.value.description.value, r.start, r.end)
  {
    if s == AwaitRange && e.Text? {
      var p := ParseRange(Strip(e.text));
      assert Transition(s, d, e) == RangeReceived(d, p);
    }
  }

  /** An unparseable range keeps the conversation waiting for a range,
      with the entry untouched, and explains the format. */
  lemma ParseFailureRetries(d: Option<Draft>, t: string)
    requires Inv(AwaitRange, d) && ParseRange(Strip(t)).None?
    ensures Transition(AwaitRange, d, Text(t)) == Outcome(AwaitRange, d, None, Some(ParseError))
  {
  }

  /** `/skip` is only understood while the description is awaited, and there
      it stores an empty description. */
  lemma SkipOnlyForDescription(s: State, d: Option<Draft>)
    requires Inv(s, d)
    ensures var o := Transition(s, d, Command("skip"));
            && (s == AwaitDesc ==> o.state == AwaitRange && o.draft.value.description == Some(""))
            && (s != AwaitDesc ==> o == Outcome(s, d, None, None))
  {
  }

  /** The title and the description are stored stripped. */
  lemma TextsStripped(s: State, d: Option<Draft>, t: string)
    requires Inv(s, d)
    ensures s == AwaitTitle ==> Transition(s, d, Text(t)).draft.value.title == Strip(t)
    ensures s == AwaitDesc ==> Transition(s, d, Text(t)).draft.value.description == Some(Strip(t))
  {
  }

  /** The outcome of a sequence of updates: the final state and entry and
      the meetings stored along the way, in order. */
  function Run(s: State, d: Option<Draft>, es: seq<Event>): (r: (State, Option<Draft>, seq<NewMeeting>))
    requires Inv(s, d)
    ensures Inv(r.0, r.1)
    ensures |r.2| <= |es|
    decreases |es|
  {
    if es == [] then (s, d, [])
    else
      var o := Transition(s, d, es[0]);
      var rest := Run(o.state, o.draft, es[1..]);
      if o.commit.Some? then (rest.0, rest.1, [o.commit.value] + rest.2) else rest
  }

  lemma TitleText(d: Option<Draft>, t: string)
    ensures Transition(AwaitTitle, d, Text(t))
         == Outcome(AwaitDesc, Some(Draft(Strip(t), None, None, None)), None, Some(AskDesc))
  {
  }

  /** The description step: the text sent, or `/skip` when there is none. */
  function DescEvent(desc: Option<string>): Event {
    if desc.Some? then Text(desc.value) else Command("skip")
  }

  lemma DescriptionStep(d: Option<Draft>, desc: Option<string>)
    requires Inv(AwaitDesc, d)
    ensures var text := if desc.Some? then Strip(desc.value) else "";
            Transition(AwaitDesc, d, DescEvent(desc))
              == Outcome(AwaitRange, Some(d.value.(description := Some(text))), None, Some(AskRange))
  {
  }

  /** While a range is awaited, text goes through `strip()` and `parse_dt`. */
  lemma RangeText(d: Option<Draft>, t: string)
    requires Inv(AwaitRange, d)
    ensures Transition(AwaitRange, d, Text(t)) == RangeReceived(d, ParseRange(Strip(t)))
  {
  }

  /** An update that stores nothing only moves the run on. */
  lemma RunQuietStep(s: State, d: Option<Draft>, es: seq<Event>, o: Outcome)
    requires Inv(s, d) && es != [] && o == Transition(s, d, es[0]) && o.commit.None?
    ensures Run(s, d, es) == Run(o.state, o.draft, es[1..])
  {
  }

  /** A run of one update ends where that update leaves the conversation
      and stores what it commits. */
  lemma RunLastStep(s: State, d: Option<Draft>, e: Event)
    requires Inv(s, d)
    ensures var o := Transition(s, d, e);
            Run(s, d, [e]) == (o.state, o.draft, if o.commit.Some? then [o.commit.value] else [])
  {
    var o := Transition(s, d, e);
    assert [e][1..] == [];
    assert Run(o.state, o.draft, []) == (o.state, o.draft, []);
    if o.commit.Some? {
      assert [o.commit.value] + [] == [o.commit.value];
    }
  }

  /** `/add`, a title and a description (or `/skip`) store nothing and leave
      the conversation waiting for the range with the stripped title and
      description in the entry, whatever comes next. */
  lemma {:induction false} RunToRange(title: string, desc: Option<string>, next: Event)
    ensures var d := if desc.Some? then Strip(desc.value) else "";
            Run(Idle, None, [Command("add"), Text(title), DescEvent(desc), next])
              == Run(AwaitRange, Some(Draft(Strip(title), Some(d), None, None)), [next])
  {
    var es := [Command("add"), Text(title), DescEvent(desc), next];
    var d := if desc.Some? then Strip(desc.value) else "";
    var d1 := Some(Draft(Strip(title), None, None, None));
    var d2 := Some(Draft(Strip(title), Some(d), None, None));
    RunQuietStep(Idle, None, es, Outcome(AwaitTitle, None, None, Some(AskTitle)));
    TitleText(None, title);
    RunQuietStep(AwaitTitle, None, es[1..], Outcome(AwaitDesc, d1, None, Some(AskDesc)));
    DescriptionStep(d1, desc);
    RunQuietStep(AwaitDesc, d1, es[1..][1..], Outcome(AwaitRange, d2, None, Some(AskRange)));
    assert es[1..][1..][1..] == [next];
  }

  /** A range that parses, sent while a range is awaited, stores one meeting
      and ends the conversation. */
  lemma RangeRun(d: Option<Draft>, t: string, r: Range)
    requires Inv(AwaitRange, d) && ParseRange(Strip(t)) == Some(r)
    ensures var run := Run(AwaitRange, d, [Text(t)]);
            run.0 == Idle && run.2 == [NewMeeting(d.value.title, d.value.description.value, r.start, r.end)]
  {
    RangeText(d, t);
    RunLastStep(AwaitRange, d, Text(t));
  }

  /** A complete conversation: `/add`, a title, then a description (or
      `/skip` when there is none) and a range that parses stores exactly one
      meeting with the stripped title, the stripped (or empty) description
      and the parsed times, and ends the conversation. */
  lemma CompleteConversation(title: string, desc: Option<string>, t: string, r: Range)
    requires ParseRange(Strip(t)) == Some(r)
    ensures var run := Run(Idle, None, [Command("add"), Text(title), DescEvent(desc), Text(t)]);
            && run.0 == Idle
            && run.2 == [NewMeeting(Strip(title), if desc.Some? then Strip(desc.value) else "", r.start, r.end)]
  {
    var d := if desc.Some? then Strip(desc.value) else "";
    RunToRange(title, desc, Text(t));
    RangeRun(Some(Draft(Strip(title), Some(d), None, None)), t, r);
  }

  // ---------------------------------------------------------------- handlers

  /** The conversation of one user in one chat: the handler's state, which
      `ConversationHandler` keeps per chat and user, and the `new_meeting`
      entry of the user's data, both updated by each update handled. */
  class Conversation {
    var state: State
    var draft: Option<Draft>

    constructor ()
      ensures state == Idle && draft == None
    {
      state := Idle;
      draft := None;
    }

    /** Handles one update from chat `chatId`: moves to the next state, and
        when a range parses, stores the meeting in that chat with `createdAt`
        as its creation time. */
    method Handle(e: Event, chatId: int, createdAt: Instant, store: MeetingStore.Store) returns (reply: Option<string>)
      requires Inv(state, draft) && store.Valid()
      modifies this, store
      ensures var o := Transition(old(state), old(draft), e);
              state == o.state && draft == o.draft && reply == o.reply
      ensures store.Valid()
      ensures var o := Transition(old(state), old(draft), e);
              o.commit.None? ==> store.rows == old(store.rows) && store.nextId == old(store.nextId)
      ensures var o := Transition(old(state), old(draft), e);
              o.commit.Some? ==>
                var c := o.commit.value;
                store.nextId == old(store.nextId) + 1
                && store.rows == old(store.rows)[old(store.nextId) :=
                     MeetingStore.Meeting(old(store.nextId), chatId, c.title, c.description, c.start, Some(c.end), createdAt)]
    {
      var o := Transition(state, draft, e);
      if o.commit.Some? {
        var c := o.commit.value;
        store.Add(chatId, c.title, Some(c.description), c.start, Some(c.end), createdAt);
      }
      state := o.state;
      draft := o.draft;
      reply := o.reply;
    }
  }
}
