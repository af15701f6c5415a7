/**
 * The quick command of the webhook handler `bot`: "remind me at HH:MM text"
 * turned into a reply and at most one new reminder, for a given clock reading.
 */
module QuickCommand {
  import opened Wrappers
  import opened Calendar
  import opened Text

  /** An hour and minute as read from the command. */
  datatype ClockTime = ClockTime(hour: int, minute: int)

  /** A scheduled reminder: the record {"time", "msg", "to"} of the reminder list. */
  datatype Reminder = Reminder(time: DateTime, msg: string, to: string)

  /** What one inbound message produces: the reply text and the reminder to append, if any. */
  datatype Outcome = Outcome(reply: string, added: Option<Reminder>)

  const CommandPrefix := "remind me at"
  const Usage := "remind me at HH:MM" + " Your message"
  const HelpReply := "To set a reminder, send:\n" + Usage
  const FormatErrorReply := "Invalid format. Use: " + Usage
  const ConfirmationHead := "Okay, I'll remind you at "
  const ConfirmationMark := "\U{2705}"

  predicate ValidClock(c: ClockTime) {
    0 <= c.hour <= 23 && 0 <= c.minute <= 59
  }

  // ---------------------------------------------------------------------
  // Reading and printing HH:MM

  predicate IsDigit(ch: char) {
    '0' <= ch <= '9'
  }

  function DigitValue(ch: char): int
    requires IsDigit(ch)
  {
    ch as int - '0' as int
  }

  function DigitChar(d: int): (ch: char)
    requires 0 <= d < 10
    ensures IsDigit(ch) && DigitValue(ch) == d
  {
    ('0' as int + d) as char
  }

  /** `%02d`: a number below 100 with two digits. */
  function Pad2(n: int): (s: string)
    requires 0 <= n < 100
    ensures |s| == 2
  {
    [DigitChar(n / 10), DigitChar(n % 10)]
  }

  /** The value of a numeral of one or two ASCII digits. */
  function Numeral(s: string): (r: Option<int>)
    ensures r.Some? ==> 1 <= |s| <= 2 && 0 <= r.value < 100
  {
    if |s| == 1 && IsDigit(s[0]) then Some(DigitValue(s[0]))
    else if |s| == 2 && IsDigit(s[0]) && IsDigit(s[1]) then Some(10 * DigitValue(s[0]) + DigitValue(s[1]))
    else None
  }

  function ClockFields(hs: string, ms: string): Option<ClockTime> {
    var h := Numeral(hs);
    var m := Numeral(ms);
    if h.Some? && m.Some? && h.value <= 23 && m.value <= 59
    then Some(ClockTime(h.value, m.value)) else None
  }

  /**
   * `datetime.strptime(s, "%H:%M")` reduced to the fields it yields: an hour
   * of one or two digits up to 23, a colon, a minute of one or two digits up
   * to 59, and nothing after it.
   */
  function ParseTime(s: string): (r: Option<ClockTime>)
    ensures r.Some? ==> ValidClock(r.value)
  {
    if |s| >= 2 && s[1] == ':' then ClockFields(s[..1], s[2..])
    else if |s| >= 3 && s[2] == ':' then ClockFields(s[..2], s[3..])
    else None
  }

  /** `strftime("%H:%M")`: both fields zero-padded to two digits. */
  function FormatClock(hour: int, minute: int): (s: string)
    requires 0 <= hour < 24 && 0 <= minute < 60
    ensures |s| == 5 && s[2] == ':'
    ensures IsDigit(s[0]) && IsDigit(s[1]) && IsDigit(s[3]) && IsDigit(s[4])
    ensures 10 * DigitValue(s[0]) + DigitValue(s[1]) == hour
    ensures 10 * DigitValue(s[3]) + DigitValue(s[4]) == minute
  {
    Pad2(hour) + ":" + Pad2(minute)
  }

  /** `s` is a way to write `n`: two digits, or one digit when `n` is below ten. */
  predicate Spells(s: string, n: int) {
    (0 <= n < 100 && s == Pad2(n)) || (0 <= n < 10 && s == [DigitChar(n)])
  }

  /** `s` writes the clock time `c` as hour, colon, minute. */
  predicate IsTimeToken(s: string, c: ClockTime) {
    && ValidClock(c)
    && exists k :: 1 <= k <= 2 && k < |s| && s[k] == ':' && Spells(s[..k], c.hour) && Spells(s[k + 1..], c.minute)
  }

  lemma NumeralSpells(s: string, n: int)
    ensures Numeral(s) == Some(n) <==> Spells(s, n)
  {
    if Spells(s, n) && |s| == 2 {
      assert s[0] == DigitChar(n / 10) && s[1] == DigitChar(n % 10);
    }
    if Numeral(s) == Some(n) && |s| == 2 {
      assert s == Pad2(n);
    }
  }

  /**
   * ParseTime accepts exactly the written forms of a valid clock time:
   * "7:05", "07:05", "7:5" and "07:5" all read as 07:05, and nothing else does.
   */
  lemma ParseTimeExactly(s: string, c: ClockTime)
    ensures ParseTime(s) == Some(c) <==> IsTimeToken(s, c)
  {
    if ParseTime(s) == Some(c) {
      var k := if s[1] == ':' then 1 else 2;
      NumeralSpells(s[..k], c.hour);
      NumeralSpells(s[k + 1..], c.minute);
      assert s[k] == ':' && Spells(s[..k], c.hour) && Spells(s[k + 1..], c.minute);
    }
    if IsTimeToken(s, c) {
      var k :| 1 <= k <= 2 && k < |s| && s[k] == ':' && Spells(s[..k], c.hour) && Spells(s[k + 1..], c.minute);
      NumeralSpells(s[..k], c.hour);
      NumeralSpells(s[k + 1..], c.minute);
      if k == 2 {
        assert s[1] != ':' by { assert IsDigit(s[..k][1]); }
      }
    }
  }

  /** What the reply echoes reads back as the hour and minute it was printed from. */
  lemma FormatThenParse(hour: int, minute: int)
    requires 0 <= hour < 24 && 0 <= minute < 60
    ensures ParseTime(FormatClock(hour, minute)) == Some(ClockTime(hour, minute))
  {
    var s := FormatClock(hour, minute);
    assert s[..2] == Pad2(hour) && s[3..] == Pad2(minute);
    NumeralSpells(Pad2(hour), hour);
    NumeralSpells(Pad2(minute), minute);
  }

  // ---------------------------------------------------------------------
  // Today or tomorrow

  /**
   * `strptime` yields the clock time on 1900-01-01 with seconds and
   * microseconds zero; `replace(year=…, month=…, day=…)` moves it to today's
   * date, which always exists.
   */
  function AtToday(c: ClockTime, now: DateTime): (t: DateTime)
    ensures t.date == now.date && t.hour == c.hour && t.minute == c.minute
    ensures t.second == 0 && t.micro == 0
    ensures ValidClock(c) && ValidDate(now.date) ==> ValidDateTime(t)
  {
    DateTime(now.date, c.hour, c.minute, 0, 0)
  }

  /** The same time of day one calendar day later. */
  function SameTimeTomorrow(now: DateTime): DateTime
    requires ValidDateTime(now)
  {
    now.(date := NextDay(now.date))
  }

  /**
   * The fire time: today at the clock time, or, if that moment is already
   * past, the same clock time with the day of the month increased by one.
   * On the last day of a month that day does not exist and no fire time
   * results.
   */
  function FireTime(c: ClockTime, now: DateTime): (r: Option<DateTime>)
    requires ValidClock(c) && ValidDateTime(now)
    ensures r.None? <==> Before(AtToday(c, now), now) && now.date.day == DaysInMonth(now.date.year, now.date.month)
    ensures r.Some? ==> ValidDateTime(r.value)
    ensures r.Some? ==> r.value.hour == c.hour && r.value.minute == c.minute
                        && r.value.second == 0 && r.value.micro == 0
    ensures r.Some? ==> !Before(r.value, now) && Before(r.value, SameTimeTomorrow(now))
    ensures r.Some? ==> (r.value.date == now.date <==> !Before(AtToday(c, now), now))
    ensures r.Some? && r.value.date != now.date ==> r.value.date == NextDay(now.date)
  {
    var today := AtToday(c, now);
    if Before(today, now) then
      ReplaceNextDay(today);
      ReplaceDay(today, today.date.day + 1)
    else Some(today)
  }

  /**
   * The fire time is the first moment at or after `now` that shows the
   * command's hour and minute with zero seconds.
   */
  lemma FireTimeIsNextOccurrence(c: ClockTime, now: DateTime, t: DateTime)
    requires ValidClock(c) && ValidDateTime(now) && ValidDateTime(t)
    requires FireTime(c, now).Some?
    requires t.hour == c.hour && t.minute == c.minute && t.second == 0 && t.micro == 0
    requires !Before(t, now)
    ensures !Before(t, FireTime(c, now).value)
  {
    var f := FireTime(c, now).value;
    if t.date == now.date {
      assert t == AtToday(c, now);
    } else {
      assert DateBefore(now.date, t.date);
      if f.date != now.date {
        assert !DateBefore(t.date, NextDay(now.date));
      }
    }
  }

  // ---------------------------------------------------------------------
  // The handler

  /** The confirmation; it echoes the fire time as HH:MM and then the message. */
  function Confirmation(t: DateTime, msg: string): (reply: string)
    requires 0 <= t.hour < 24 && 0 <= t.minute < 60
    ensures var n := |ConfirmationHead|;
            && |reply| == n + 5 + 1 + |msg| + 2
            && reply[..n] == ConfirmationHead
            && ParseTime(reply[n..n + 5]) == Some(ClockTime(t.hour, t.minute))
            && reply[n + 5] == ' '
            && reply[n + 6..|reply| - 2] == msg
            && reply[|reply| - 2..] == " " + ConfirmationMark
    ensures reply != HelpReply && reply != FormatErrorReply
  {
    var clock := FormatClock(t.hour, t.minute);
    FormatThenParse(t.hour, t.minute);
    FieldsOfConcat(ConfirmationHead, clock, msg, " " + ConfirmationMark);
    assert HelpReply[0] == 'T' && FormatErrorReply[0] == 'I' && ConfirmationHead[0] == 'O';
    ConfirmationHead + clock + " " + msg + (" " + ConfirmationMark)
  }

  lemma FieldsOfConcat(head: string, clock: string, msg: string, tail: string)
    ensures var s := head + clock + " " + msg + tail;
            && |s| == |head| + |clock| + 1 + |msg| + |tail|
            && s[..|head|] == head
            && s[|head|..|head| + |clock|] == clock
            && s[|head| + |clock|] == ' '
            && s[|head| + |clock| + 1..|s| - |tail|] == msg
            && s[|s| - |tail|..] == tail
            && (|head| > 0 ==> s[0] == head[0])
  {
    var s := head + clock + " " + msg + tail;
    assert s == head + (clock + (" " + (msg + tail)));
  }

  /** The message part: token 4 of the split, or empty when there is none. */
  function MessagePart(parts: seq<string>): string {
    if |parts| > 4 then parts[4] else ""
  }

  /**
   * The message is everything after the fourth single space, inner spaces
   * kept; it is empty exactly when the text has only three spaces.
   */
  lemma MessageIsRemainder(text: string)
    requires |Split(text, 4)| >= 4
    ensures var parts := Split(text, 4);
            && (Spaces(text) == 3 ==> MessagePart(parts) == "")
            && (Spaces(text) == 3 ==> text == Join(parts[..4]))
            && (Spaces(text) > 3 ==> text == Join(parts[..4]) + " " + MessagePart(parts))
  {
    var parts := Split(text, 4);
    SplitCount(text, 4);
    SplitJoin(text, 4);
    if |parts| == 5 {
      JoinSnoc(parts);
    } else {
      assert parts[..4] == parts;
    }
  }

  /**
   * The body of the `try` block for a text that starts with the command:
   * split it on single spaces at most four times, read token 3 as the time
   * and the rest as the message, and schedule it today or tomorrow. None
   * stands for every exception the block raises: no token 3, a time that
   * does not parse, a day past the end of the month.
   */
  function Schedule(text: string, sender: string, now: DateTime): (r: Option<Reminder>)
    requires ValidDateTime(now)
    ensures r.Some? ==>
              && r.value.to == sender
              && ValidDateTime(r.value.time)
              && r.value.time.second == 0 && r.value.time.micro == 0
              && !Before(r.value.time, now)
              && Before(r.value.time, SameTimeTomorrow(now))
  {
    var parts := Split(text, 4);
    if |parts| < 4 then None
    else match ParseTime(parts[3])
      case None => None
      case Some(c) =>
        match FireTime(c, now)
        case None => None
        case Some(t) => Some(Reminder(t, MessagePart(parts), sender))
  }

  /**
   * One inbound message of `body` from `sender` at clock reading `now`:
   * strip it; anything that does not start with "remind me at" in any case
   * gets the help text; a command is scheduled, and confirmed, or answered
   * with the format-error reply.
   */
  function Handle(body: string, sender: string, now: DateTime): (r: Outcome)
    requires ValidDateTime(now)
    ensures r.reply == HelpReply <==> !StartsWithIgnoringCase(Strip(body), CommandPrefix)
    ensures r.reply == HelpReply ==> r.added.None?
    ensures r.added.None? ==> r.reply == HelpReply || r.reply == FormatErrorReply
    ensures r.added.Some? ==>
              && r.added.value.to == sender
              && ValidDateTime(r.added.value.time)
              && !Before(r.added.value.time, now)
              && Before(r.added.value.time, SameTimeTomorrow(now))
              && r.reply == Confirmation(r.added.value.time, r.added.value.msg)
  {
    var text := Strip(body);
    if !StartsWithIgnoringCase(text, CommandPrefix) then Outcome(HelpReply, None)
    else match Schedule(text, sender, now)
      case None => Outcome(FormatErrorReply, None)
      case Some(rem) =>
        var reply := Confirmation(rem.time, rem.msg);
        Outcome(reply, Some(rem))
  }

  // ---------------------------------------------------------------------
  // What the handler does with a command

  /**
   * A command whose stripped text is its words joined by single spaces:
   * three words, the time token and possibly a message (which may itself
   * hold spaces). It is scheduled exactly when the token parses and the fire
   * time exists, and then the reminder carries the sender and the whole
   * message, inner spaces and case preserved; otherwise the reply is the
   * format error and nothing is added.
   */
  lemma CommandOutcome(body: string, sender: string, now: DateTime, parts: seq<string>)
    requires ValidDateTime(now)
    requires 4 <= |parts| <= 5
    requires forall i :: 0 <= i < 4 ==> NoSpace(parts[i])
    requires Strip(body) == Join(parts)
    requires StartsWithIgnoringCase(Strip(body), CommandPrefix)
    ensures var r := Handle(body, sender, now);
            var c := ParseTime(parts[3]);
            && (r.added.Some? <==> c.Some? && FireTime(c.value, now).Some?)
            && (r.added.None? ==> r.reply == FormatErrorReply)
            && (r.added.Some? ==>
                  r.added.value == Reminder(FireTime(c.value, now).value, MessagePart(parts), sender))
  {
    JoinSplit(parts, 4);
  }

  /**
   * A command with fewer than three spaces has no time token: the reply is
   * the format error and nothing is added.
   */
  lemma MissingTimeToken(body: string, sender: string, now: DateTime)
    requires ValidDateTime(now)
    requires StartsWithIgnoringCase(Strip(body), CommandPrefix)
    requires Spaces(Strip(body)) < 3
    ensures Handle(body, sender, now) == Outcome(FormatErrorReply, None)
  {
    SplitCount(Strip(body), 4);
  }

  /**
   * On the last day of a month a clock time that has already passed is
   * refused with the format error, as `replace(day=day + 1)` raises there.
   */
  lemma MonthEndRefused(body: string, sender: string, now: DateTime,
                        parts: seq<string>, c: ClockTime)
    requires ValidDateTime(now)
    requires 4 <= |parts| <= 5
    requires forall i :: 0 <= i < 4 ==> NoSpace(parts[i])
    requires Strip(body) == Join(parts)
    requires StartsWithIgnoringCase(Strip(body), CommandPrefix)
    requires ParseTime(parts[3]) == Some(c)
    requires Before(AtToday(c, now), now)
    requires now.date.day == DaysInMonth(now.date.year, now.date.month)
    ensures Handle(body, sender, now) == Outcome(FormatErrorReply, None)
  {
    CommandOutcome(body, sender, now, parts);
  }

  // ---------------------------------------------------------------------
  // Worked examples, on the text "remind me at 14:30 drink water"

  function DrinkWaterWords(): seq<string> {
    ["remind", "me", "at", "14:30", "drink water"]
  }

  lemma DrinkWaterJoined()
    ensures Join(DrinkWaterWords())
            == "remind" + " " + ("me" + " " + ("at" + " " + ("14:30" + " " + "drink water")))
  {
    JoinCons("14:30", ["drink water"]);
    JoinCons("at", ["14:30", "drink water"]);
    JoinCons("me", ["at", "14:30", "drink water"]);
    JoinCons("remind", ["me", "at", "14:30", "drink water"]);
  }

  /** The example text is already stripped and starts with the command. */
  lemma DrinkWaterIsCommand()
    ensures var body := Join(DrinkWaterWords());
            && Strip(body) == body
            && StartsWithIgnoringCase(body, CommandPrefix)
  {
    DrinkWaterJoined();
    DrinkWaterText();
  }

  lemma DrinkWaterText()
    ensures var body := "remind" + " " + ("me" + " " + ("at" + " " + ("14:30" + " " + "drink water")));
            && Strip(body) == body
            && StartsWithIgnoringCase(body, CommandPrefix)
  {
    var body := "remind" + " " + ("me" + " " + ("at" + " " + ("14:30" + " " + "drink water")));
    assert body[0] == 'r' && body[|body| - 1] == 'r';
    StripPadding([], body, []);
    assert [] + body + [] == body;
  }

  /** The example's words, time token and message. */
  lemma DrinkWaterFields()
    ensures var w := DrinkWaterWords();
            && |w| == 5
            && (forall i :: 0 <= i < 4 ==> NoSpace(w[i]))
            && ParseTime(w[3]) == Some(ClockTime(14, 30))
            && MessagePart(w) == "drink water"
  {
    FormatThenParse(14, 30);
  }

  /**
   * The example, padded or not, sent at 10:00 is scheduled for 14:30 the
   * same day.
   */
  lemma ExampleLaterToday(body: string, sender: string)
    requires Strip(body) == Join(DrinkWaterWords())
    ensures var now := DateTime(Date(2025, 8, 16), 10, 0, 0, 0);
            Handle(body, sender, now).added
            == Some(Reminder(DateTime(Date(2025, 8, 16), 14, 30, 0, 0), "drink water", sender))
  {
    var now := DateTime(Date(2025, 8, 16), 10, 0, 0, 0);
    DrinkWaterIsCommand();
    DrinkWaterFields();
    assert !Before(AtToday(ClockTime(14, 30), now), now);
    CommandOutcome(body, sender, now, DrinkWaterWords());
  }

  /** Sent at 15:00, after 14:30 has passed, it is scheduled for the next day. */
  lemma ExampleTomorrow(body: string, sender: string)
    requires Strip(body) == Join(DrinkWaterWords())
    ensures var now := DateTime(Date(2025, 8, 16), 15, 0, 0, 0);
            Handle(body, sender, now).added
            == Some(Reminder(DateTime(Date(2025, 8, 17), 14, 30, 0, 0), "drink water", sender))
  {
    var now := DateTime(Date(2025, 8, 16), 15, 0, 0, 0);
    DrinkWaterIsCommand();
    DrinkWaterFields();
    assert Before(AtToday(ClockTime(14, 30), now), now);
    CommandOutcome(body, sender, now, DrinkWaterWords());
  }

  /**
   * Sent at 15:00 on the last day of August, the next day does not exist as
   * day 32 of the month, and the reply is the format error.
   */
  lemma ExampleMonthEnd(body: string, sender: string)
    requires Strip(body) == Join(DrinkWaterWords())
    ensures var now := DateTime(Date(2025, 8, 31), 15, 0, 0, 0);
            Handle(body, sender, now) == Outcome(FormatErrorReply, None)
  {
    var now := DateTime(Date(2025, 8, 31), 15, 0, 0, 0);
    DrinkWaterIsCommand();
    DrinkWaterFields();
    MonthEndRefused(body, sender, now, DrinkWaterWords(), ClockTime(14, 30));
  }
}
