/**
 * One pass of the background worker over the reminder list, as values: which
 * reminders are due at a clock reading, the notices they produce, and what is
 * left pending. The pass itself, which walks a copy of the list and removes
 * entries from the live one, is `App.ReminderBot.Sweep`.
 */
module Worker {
  import opened Calendar
  import opened QuickCommand
  import opened Sequences

  /** One outbound message handed to the messaging client. */
  datatype Notice = Notice(from: string, to: string, body: string)

  const ReminderBanner := "\U{23F0} Reminder: "

  /**
   * `now >= r["time"]`: the reminder's time has come, that is, on valid
   * timestamps, it is now or earlier.
   */
  predicate IsDue(r: Reminder, now: DateTime): (due: bool)
    ensures ValidDateTime(r.time) && ValidDateTime(now) ==>
              (due <==> r.time == now || Before(r.time, now))
  {
    BeforeIsStrictTotalOrder(now, r.time, now);
    !Before(now, r.time)
  }

  /** The message sent for a due reminder, from the service's number to its recipient. */
  function Notify(r: Reminder, from: string): (n: Notice)
    ensures n.from == from && n.to == r.to
    ensures |n.body| == |ReminderBanner| + |r.msg|
    ensures n.body[..|ReminderBanner|] == ReminderBanner
    ensures n.body[|ReminderBanner|..] == r.msg
  {
    Notice(from, r.to, ReminderBanner + r.msg)
  }

  /** The notices for a list of reminders, in list order. */
  function Notices(s: seq<Reminder>, from: string): (ns: seq<Notice>)
    ensures |ns| == |s|
    ensures forall i :: 0 <= i < |s| ==> ns[i] == Notify(s[i], from)
  {
    seq(|s|, i requires 0 <= i < |s| => Notify(s[i], from))
  }

  /** The reminders of `s` that are due at `now`, in list order. */
  function DueAt(s: seq<Reminder>, now: DateTime): seq<Reminder> {
    if |s| == 0 then []
    else DueAt(s[..|s| - 1], now) + (if IsDue(s[|s| - 1], now) then [s[|s| - 1]] else [])
  }

  /** The reminders of `s` that are not yet due at `now`, in list order. */
  function PendingAt(s: seq<Reminder>, now: DateTime): seq<Reminder> {
    if |s| == 0 then []
    else PendingAt(s[..|s| - 1], now) + (if IsDue(s[|s| - 1], now) then [] else [s[|s| - 1]])
  }

  /**
   * `list.remove(x)`: the list without its first element equal to `x`. It
   * raises when there is none; the worker only removes entries it has just
   * seen in the list.
   */
  function RemoveFirst(s: seq<Reminder>, x: Reminder): (r: seq<Reminder>)
    requires x in s
    ensures |r| == |s| - 1
    ensures multiset(r) == multiset(s) - multiset{x}
  {
    assert s == [s[0]] + s[1..];
    if s[0] == x then s[1..] else [s[0]] + RemoveFirst(s[1..], x)
  }

  // ---------------------------------------------------------------------
  // Properties of one pass

  /** The element removed is the first occurrence: everything before it stays. */
  lemma {:induction false} RemoveFirstSkips(a: seq<Reminder>, x: Reminder, b: seq<Reminder>)
    requires x !in a
    ensures RemoveFirst(a + ([x] + b), x) == a + b
    decreases |a|
  {
    if a != [] {
      var t := a[1..] + ([x] + b);
      var s := a + ([x] + b);
      assert s == [a[0]] + t;
      RemoveFirstCons(a[0], t, x);
      RemoveFirstSkips(a[1..], x, b);
      assert RemoveFirst(s, x) == [a[0]] + (a[1..] + b);
      assert a == [a[0]] + a[1..];
      AppendAssoc([a[0]], a[1..], b);
    }
  }

  lemma RemoveFirstCons(y: Reminder, t: seq<Reminder>, x: Reminder)
    requires y != x && x in t
    ensures RemoveFirst([y] + t, x) == [y] + RemoveFirst(t, x)
  {
    assert ([y] + t)[1..] == t;
  }

  /** The filters of a list extended by one entry. */
  lemma FiltersOfSnoc(done: seq<Reminder>, r: Reminder, now: DateTime)
    ensures DueAt(done + [r], now) == DueAt(done, now) + (if IsDue(r, now) then [r] else [])
    ensures PendingAt(done + [r], now) == PendingAt(done, now) + (if IsDue(r, now) then [] else [r])
  {
    var s := done + [r];
    assert s[..|s| - 1] == done;
  }

  /**
   * One step of a pass over a copy of the list, `done` the entries already
   * visited and `r` the next one, due: removing `r` from the live list
   * `PendingAt(done) + [r] + rest` leaves the pending entries of `done + [r]`
   * followed by the rest, and its notice is the next one sent.
   */
  lemma StepDue(done: seq<Reminder>, r: Reminder, rest: seq<Reminder>, now: DateTime, from: string)
    requires IsDue(r, now)
    ensures r in PendingAt(done, now) + ([r] + rest)
    ensures RemoveFirst(PendingAt(done, now) + ([r] + rest), r) == PendingAt(done + [r], now) + rest
    ensures Notices(DueAt(done + [r], now), from) == Notices(DueAt(done, now), from) + [Notify(r, from)]
  {
    DueSnoc(done, r, now);
    DueMembers(done, now, r);
    RemoveSkipping(PendingAt(done, now), r, rest);
    NoticesOfConcat(DueAt(done, now), [r], from);
  }

  /** Removing an entry that does not occur earlier takes it out at its own place. */
  lemma RemoveSkipping(p: seq<Reminder>, r: Reminder, rest: seq<Reminder>)
    requires r !in p
    ensures r in p + ([r] + rest)
    ensures RemoveFirst(p + ([r] + rest), r) == p + rest
  {
    RemoveFirstSkips(p, r, rest);
    assert (p + ([r] + rest))[|p|] == r;
  }

  /** A due entry appended to the visited ones is sent, not kept. */
  lemma DueSnoc(done: seq<Reminder>, r: Reminder, now: DateTime)
    requires IsDue(r, now)
    ensures DueAt(done + [r], now) == DueAt(done, now) + [r]
    ensures PendingAt(done + [r], now) == PendingAt(done, now)
  {
    FiltersOfSnoc(done, r, now);
    assert PendingAt(done, now) + [] == PendingAt(done, now);
  }

  /** The same step when `r` is not due: the live list is unchanged and nothing is sent. */
  lemma StepPending(done: seq<Reminder>, r: Reminder, rest: seq<Reminder>, now: DateTime)
    requires !IsDue(r, now)
    ensures PendingAt(done, now) + ([r] + rest) == PendingAt(done + [r], now) + rest
    ensures DueAt(done + [r], now) == DueAt(done, now)
  {
    FiltersOfSnoc(done, r, now);
    assert DueAt(done, now) + [] == DueAt(done, now);
    AppendAssoc(PendingAt(done, now), [r], rest);
  }

  /** Membership: exactly the due entries are due, the others pending. */
  lemma {:induction false} DueMembers(s: seq<Reminder>, now: DateTime, x: Reminder)
    ensures x in DueAt(s, now) <==> x in s && IsDue(x, now)
    ensures x in PendingAt(s, now) <==> x in s && !IsDue(x, now)
    decreases |s|
  {
    if |s| > 0 {
      var init := s[..|s| - 1];
      assert s == init + [s[|s| - 1]];
      DueMembers(init, now, x);
    }
  }

  /** Every entry is either sent or kept, none twice: a partition of the list. */
  lemma {:induction false} DuePendingPartition(s: seq<Reminder>, now: DateTime)
    ensures multiset(DueAt(s, now)) + multiset(PendingAt(s, now)) == multiset(s)
    decreases |s|
  {
    if |s| > 0 {
      var init := s[..|s| - 1];
      assert s == init + [s[|s| - 1]];
      DuePendingPartition(init, now);
    }
  }

  /** Both filters keep list order: they distribute over concatenation. */
  lemma {:induction false} FiltersOfConcat(a: seq<Reminder>, b: seq<Reminder>, now: DateTime)
    ensures DueAt(a + b, now) == DueAt(a, now) + DueAt(b, now)
    ensures PendingAt(a + b, now) == PendingAt(a, now) + PendingAt(b, now)
    decreases |b|
  {
    if |b| == 0 {
      assert a + b == a;
    } else {
      var init := b[..|b| - 1];
      assert (a + b)[..|a + b| - 1] == a + init;
      FiltersOfConcat(a, init, now);
    }
  }

  /** Notices of a concatenation are the notices of the parts. */
  lemma NoticesOfConcat(a: seq<Reminder>, b: seq<Reminder>, from: string)
    ensures Notices(a + b, from) == Notices(a, from) + Notices(b, from)
  {
  }

  /** The filters on a one-element list. */
  lemma FiltersOfOne(x: Reminder, now: DateTime)
    ensures DueAt([x], now) == if IsDue(x, now) then [x] else []
    ensures PendingAt([x], now) == if IsDue(x, now) then [] else [x]
  {
    assert [x][..0] == [];
  }

  /**
   * A pass is idempotent: a second pass at the same reading sends nothing
   * and keeps the list as it is.
   */
  lemma {:induction false} PassIdempotent(s: seq<Reminder>, now: DateTime)
    ensures DueAt(PendingAt(s, now), now) == []
    ensures PendingAt(PendingAt(s, now), now) == PendingAt(s, now)
    decreases |s|
  {
    if |s| > 0 {
      var init := s[..|s| - 1];
      var last := s[|s| - 1];
      PassIdempotent(init, now);
      var p := PendingAt(init, now);
      if IsDue(last, now) {
        assert PendingAt(s, now) == p + [];
        assert p + [] == p;
      } else {
        assert PendingAt(s, now) == p + [last];
        FiltersOfConcat(p, [last], now);
        FiltersOfOne(last, now);
      }
    }
  }

  /**
   * Passes at increasing readings: a pass at `earlier` followed by one at
   * `later` keeps what one pass at `later` keeps.
   */
  lemma {:induction false} PassesKeep(s: seq<Reminder>, earlier: DateTime, later: DateTime)
    requires !Before(later, earlier)
    ensures PendingAt(PendingAt(s, earlier), later) == PendingAt(s, later)
    decreases |s|
  {
    if |s| > 0 {
      var init := s[..|s| - 1];
      var last := s[|s| - 1];
      PassesKeep(init, earlier, later);
      var p := PendingAt(init, earlier);
      if IsDue(last, earlier) {
        DueLater(last, earlier, later);
        assert PendingAt(s, earlier) == p + [];
        assert p + [] == p;
        assert PendingAt(s, later) == PendingAt(init, later) + [];
      } else {
        assert PendingAt(s, earlier) == p + [last];
        FiltersOfConcat(p, [last], later);
        FiltersOfOne(last, later);
      }
    }
  }

  /**
   * Between them, a pass at `earlier` and a pass at `later` send what one
   * pass at `later` sends, each reminder once.
   */
  lemma PassesSend(s: seq<Reminder>, earlier: DateTime, later: DateTime)
    requires !Before(later, earlier)
    ensures multiset(DueAt(s, earlier)) + multiset(DueAt(PendingAt(s, earlier), later))
            == multiset(DueAt(s, later))
  {
    var p := PendingAt(s, earlier);
    DuePendingPartition(s, earlier);
    DuePendingPartition(p, later);
    DuePendingPartition(s, later);
    PassesKeep(s, earlier, later);
    MultisetCancel(multiset(DueAt(s, earlier)), multiset(DueAt(p, later)),
                   multiset(PendingAt(s, later)), multiset(DueAt(s, later)));
  }

  /** A reminder due at one reading is due at every later one. */
  lemma DueLater(r: Reminder, earlier: DateTime, later: DateTime)
    requires IsDue(r, earlier) && !Before(later, earlier)
    ensures IsDue(r, later)
  {
  }
}
