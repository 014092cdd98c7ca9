/** The texts the bot sends: one `/list` row per meeting (`fmt_meeting_row`),
    the `/list` reply, and the weekly digest that `send_weekly_for_chat`
    assembles. */
module Render {
  import opened Strings
  import opened Calendar
  import opened TimeFormat
  import opened MeetingStore

  const NoMeetingsStored := "No meetings stored."
  const EmptyDigest := "No meetings scheduled for the next 7 days."
  const DigestHeader := "Your upcoming meetings (next 7 days):"

  /** The first line of a row: the id in brackets, then the title. */
  function RowHead(m: Meeting): string {
    "id: [" + IntText(m.id) + "] " + m.title
  }

  /** `fmt_meeting_row`: the head line, the start, ` - ` and the end's time
      when there is an end, and a `desc:` line when the description is not
      empty. */
  function FormatRow(m: Meeting): (r: string)
    requires WellFormed(m)
    ensures RowHead(m) + "\n" + TimeLine(m.start, m.end) <= r
  {
    var line := RowHead(m) + "\n" + StampText(m.start);
    var timed := if m.end.Some? then line + " - " + ClockText(m.end.value) else line;
    if m.description != "" then timed + "\ndesc: " + m.description else timed
  }

  /** The `/list` reply for the rows of a chat, in the order given. */
  function ListText(rows: seq<Meeting>): (r: string)
    requires AllWellFormed(rows)
    ensures rows != [] ==> FormatRow(rows[0]) <= r
    ensures |rows| == 1 ==> r == FormatRow(rows[0])
  {
    if rows == [] then NoMeetingsStored
    else Join("\n\n", seq(|rows|, k requires 0 <= k < |rows| => FormatRow(rows[k])))
  }

  /** Entry `i` of the digest, built as the digest loop builds it. */
  function DigestEntry(i: nat, m: Meeting): (r: string)
    requires WellFormed(m)
    ensures NatText(i) + ". " <= r
  {
    var part := NatText(i) + ". id: [" + IntText(m.id) + "] " + m.title + "\n" + TimeLine(m.start, m.end);
    if m.description != "" then part + "\ndesc: " + m.description else part
  }

  /** The digest's entries, numbered from 1. */
  function Numbered(rows: seq<Meeting>): seq<string>
    requires AllWellFormed(rows)
  {
    seq(|rows|, k requires 0 <= k < |rows| => DigestEntry(k + 1, rows[k]))
  }

  /** The weekly digest for the rows of the coming week. */
  function Digest(rows: seq<Meeting>): (r: string)
    requires AllWellFormed(rows)
    ensures rows != [] ==> DigestHeader <= r
  {
    if rows == [] then EmptyDigest else Join("\n\n", [DigestHeader] + Numbered(rows))
  }

  /** The digest loop of `send_weekly_for_chat`: the header, then one
      numbered entry per row, joined by blank lines. */
  method DigestText(rows: seq<Meeting>) returns (text: string)
    requires AllWellFormed(rows)
    ensures text == Digest(rows)
  {
    if rows == [] {
      return EmptyDigest;
    }
    var parts := [DigestHeader];
    var i := 1;
    while i <= |rows|
      invariant 1 <= i <= |rows| + 1
      invariant parts == [DigestHeader] + Numbered(rows)[..i - 1]
    {
      var entry := DigestEntry(i, rows[i - 1]);
      assert Numbered(rows)[i - 1] == entry;
      PrefixExtend(Numbered(rows), i - 1);
      ConcatAssoc([DigestHeader], Numbered(rows)[..i - 1], [entry]);
      parts := parts + [entry];
      i := i + 1;
    }
    assert Numbered(rows)[..|rows|] == Numbered(rows);
    text := Join("\n\n", parts);
  }

  // ---------------------------------------------------------------- properties

  /** `IntText` never prints a line break. */
  lemma IntTextAvoids(n: int, c: char)
    requires !IsDigit(c) && c != '-'
    ensures c !in IntText(n)
  {
    var t := NatText(if n < 0 then -n else n);
    assert IsNumeral(t);
    assert c !in t;
  }

  /** What follows the time line: nothing, or the description line. */
  function DescTail(m: Meeting): string {
    if m.description == "" then "" else "\ndesc: " + m.description
  }

  lemma FormatRowShape(m: Meeting)
    requires WellFormed(m)
    ensures FormatRow(m) == RowHead(m) + ['\n'] + (TimeLine(m.start, m.end) + DescTail(m))
  {
    var h, tl, d := RowHead(m), TimeLine(m.start, m.end), DescTail(m);
    assert FormatRow(m) == h + "\n" + tl + d;
    LineBreakAssoc(h, tl, d);
  }

  lemma LineBreakAssoc(h: string, t: string, d: string)
    ensures h + "\n" + t + d == h + ['\n'] + (t + d)
  {
  }

  /** The digest's first line is the row's head behind the number. */
  lemma NumberedHead(n: string, id: string, title: string, t: string)
    ensures n + ". id: [" + id + "] " + title + "\n" + t == n + ". " + ("id: [" + id + "] " + title + "\n" + t)
  {
  }

  /** A digest entry is the `/list` row of the same meeting behind its
      number: both print the same head, time line and description. */
  lemma DigestEntryIsNumberedRow(i: nat, m: Meeting)
    requires WellFormed(m)
    ensures DigestEntry(i, m) == NatText(i) + ". " + FormatRow(m)
  {
    var n, tl, d := NatText(i) + ". ", TimeLine(m.start, m.end), DescTail(m);
    var body := RowHead(m) + "\n" + tl;
    var part := NatText(i) + ". id: [" + IntText(m.id) + "] " + m.title + "\n" + tl;
    NumberedHead(NatText(i), IntText(m.id), m.title, tl);
    assert part == n + body;
    if m.description == "" {
      assert DigestEntry(i, m) == part + d;
    } else {
      ConcatAssoc(part, "\ndesc: ", m.description);
    }
    FormatRowShape(m);
    ConcatAssoc(RowHead(m) + "\n", tl, d);
    assert FormatRow(m) == body + d;
    ConcatAssoc(n, body, d);
  }

  /** Text without the separator is one piece. */
  lemma SplitWhole(s: string, c: char)
    requires c !in s
    ensures Split(s, c) == [s]
  {
  }

  /** With a description, the text after the time line is one more line
      break and the `desc:` line. */
  lemma DescTailLine(tl: string, m: Meeting)
    requires m.description != ""
    ensures tl + DescTail(m) == tl + ['\n'] + ("desc: " + m.description)
  {
    assert "\ndesc: " == ['\n'] + "desc: ";
    ConcatAssoc(['\n'], "desc: ", m.description);
    ConcatAssoc(tl, ['\n'], "desc: " + m.description);
  }

  /** Two lines joined by a line break split back into the two. */
  lemma TwoLines(a: string, b: string)
    requires '\n' !in a && '\n' !in b
    ensures Split(a + ['\n'] + b, '\n') == [a, b]
  {
    SplitCons(a, '\n', b);
    SplitWhole(b, '\n');
  }

  lemma DescLineUnbroken(desc: string)
    requires '\n' !in desc
    ensures '\n' !in "desc: " + desc
  {
    assert '\n' !in "desc: ";
  }

  /** The lines from the time line on. */
  lemma DescLines(tl: string, m: Meeting)
    requires '\n' !in tl
    ensures var ls := Split(tl + DescTail(m), '\n');
            ls[0] == tl
            && ('\n' !in m.description ==>
                  ls == [tl] + (if m.description == "" then [] else ["desc: " + m.description]))
  {
    if m.description == "" {
      assert tl + DescTail(m) == tl;
      SplitWhole(tl, '\n');
    } else {
      var d := "desc: " + m.description;
      DescTailLine(tl, m);
      SplitCons(tl, '\n', d);
      if '\n' !in m.description {
        DescLineUnbroken(m.description);
        TwoLines(tl, d);
      }
    }
  }

  lemma ConsTwo<T>(a: T, b: T, x: seq<T>)
    ensures [a] + ([b] + x) == [a, b] + x
  {
  }

  /** The head line has no line break when the title has none. */
  lemma RowHeadUnbroken(m: Meeting)
    requires '\n' !in m.title
    ensures '\n' !in RowHead(m)
  {
    IntTextAvoids(m.id, '\n');
  }

  /** The lines of a row, for a title without line breaks: the head line,
      the time line, and (for a description without line breaks) the
      description line when there is one. */
  lemma FormatRowLines(m: Meeting)
    requires WellFormed(m) && '\n' !in m.title
    ensures var ls := Split(FormatRow(m), '\n');
            |ls| >= 2 && ls[0] == RowHead(m) && ls[1] == TimeLine(m.start, m.end)
    ensures '\n' !in m.description ==>
              Split(FormatRow(m), '\n') == [RowHead(m), TimeLine(m.start, m.end)]
                                           + (if m.description == "" then [] else ["desc: " + m.description])
  {
    var head, tl := RowHead(m), TimeLine(m.start, m.end);
    RowHeadUnbroken(m);
    TimeLineAvoids(m.start, m.end, '\n');
    FormatRowShape(m);
    SplitCons(head, '\n', tl + DescTail(m));
    DescLines(tl, m);
    var rest := Split(tl + DescTail(m), '\n');
    assert Split(FormatRow(m), '\n') == [head] + rest;
    if '\n' !in m.description {
      var x := if m.description == "" then [] else ["desc: " + m.description];
      ConsTwo(head, tl, x);
    }
  }

  /** A listed meeting with an end: its time line is accepted by the add
      conversation's parser and gives back the stored start and end. */
  lemma ListedRangeRoundTrip(m: Meeting)
    requires WellFormed(m) && '\n' !in m.title
    requires m.end.Some? && SameDate(m.start, m.end.value)
    ensures ParseRange(Split(FormatRow(m), '\n')[1]) == Some(Range(m.start, m.end.value))
  {
    FormatRowLines(m);
    ParseRangeOfTimeLine(m.start, m.end.value);
  }

  /** A listed meeting without an end: its time line is a single timestamp,
      which the range parser rejects for lack of a `-`. */
  lemma ListedStartRoundTrip(m: Meeting)
    requires WellFormed(m) && '\n' !in m.title && m.end.None?
    ensures ParseSingle(Split(FormatRow(m), '\n')[1]) == Some(m.start)
    ensures ParseRange(Split(FormatRow(m), '\n')[1]).None?
  {
    FormatRowLines(m);
    ParseSingleOfTimeLine(m.start);
    StampTextAvoids(m.start, '-');
  }

  /** `/list` answers "No meetings stored." exactly when there is nothing to
      list: a non-empty listing starts with a row's `id: [`. */
  lemma ListTextEmpty(rows: seq<Meeting>)
    requires AllWellFormed(rows)
    ensures ListText(rows) == NoMeetingsStored <==> rows == []
  {
    if rows != [] {
      var out := seq(|rows|, k requires 0 <= k < |rows| => FormatRow(rows[k]));
      assert out[0] == FormatRow(rows[0]);
      assert ListText(rows)[0] == 'i';
    }
  }

  /** Every row shows up in the `/list` reply. */
  lemma ListTextShowsRow(rows: seq<Meeting>, k: int)
    requires AllWellFormed(rows) && 0 <= k < |rows|
    ensures Contains(ListText(rows), FormatRow(rows[k]))
  {
    var out := seq(|rows|, j requires 0 <= j < |rows| => FormatRow(rows[j]));
    JoinHasPart("\n\n", out, k);
  }

  /** The digest is the empty-week message exactly when there is nothing to
      report; otherwise it opens with the header. */
  lemma DigestEmpty(rows: seq<Meeting>)
    requires AllWellFormed(rows)
    ensures Digest(rows) == EmptyDigest <==> rows == []
    ensures rows != [] ==> DigestHeader <= Digest(rows)
  {
    if rows != [] {
      assert ([DigestHeader] + Numbered(rows))[0] == DigestHeader;
      assert Digest(rows)[0] == 'Y';
    }
  }

  /** The digest of a non-empty week is the header followed by the rows as
      `/list` prints them, in the same order, each behind its number from 1,
      all separated by blank lines. */
  lemma DigestIsNumberedListing(rows: seq<Meeting>)
    requires AllWellFormed(rows) && rows != []
    ensures Digest(rows)
         == Join("\n\n", [DigestHeader] + seq(|rows|, k requires 0 <= k < |rows| => NatText(k + 1) + ". " + FormatRow(rows[k])))
  {
    var listed := seq(|rows|, k requires 0 <= k < |rows| => NatText(k + 1) + ". " + FormatRow(rows[k]));
    forall k | 0 <= k < |rows|
      ensures Numbered(rows)[k] == listed[k]
    {
      DigestEntryIsNumberedRow(k + 1, rows[k]);
    }
    assert Numbered(rows) == listed;
  }

  /** Every row shows up in the digest, numbered by its position from 1 and
      printed as `/list` prints it. */
  lemma DigestShowsRow(rows: seq<Meeting>, k: int)
    requires AllWellFormed(rows) && 0 <= k < |rows|
    ensures Contains(Digest(rows), NatText(k + 1) + ". " + FormatRow(rows[k]))
    ensures Contains(Digest(rows), FormatRow(rows[k]))
  {
    var parts := [DigestHeader] + Numbered(rows);
    assert parts[k + 1] == DigestEntry(k + 1, rows[k]);
    JoinHasPart("\n\n", parts, k + 1);
    DigestEntryIsNumberedRow(k + 1, rows[k]);
    var n := NatText(k + 1) + ". ";
    assert n + FormatRow(rows[k]) + "" == parts[k + 1];
    ContainsPiece(Digest(rows), n, FormatRow(rows[k]), "");
  }
}
