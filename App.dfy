/**
 * The service's mutable state: the module-level reminder list that the
 * webhook appends to and the worker drains, and the messaging client the
 * worker sends through.
 */
module App {
  import opened Wrappers
  import opened Calendar
  import opened QuickCommand
  import opened Worker
  import opened Sequences

  /**
   * The outbound messaging client. Every call is recorded in `attempts`;
   * whether the provider accepted it is not under the service's control.
   */
  class MessagingClient {
    var attempts: seq<Notice>

    constructor ()
      ensures attempts == []
    {
      attempts := [];
    }

    /** `client.messages.create(...)`: `delivered` is false where the call raises. */
    method Create(n: Notice) returns (delivered: bool)
      modifies this
      ensures attempts == old(attempts) + [n]
    {
      attempts := attempts + [n];
      delivered := *;
    }
  }

  class ReminderBot {
    /** The module-level list `reminders`, in insertion order. */
    var reminders: seq<Reminder>
    /** The service's own number, the `from_` of every notice. */
    const number: string
    const client: MessagingClient

    constructor (number: string, client: MessagingClient)
      ensures reminders == [] && this.number == number && this.client == client
    {
      reminders := [];
      this.number := number;
      this.client := client;
    }

    /**
     * The webhook `bot` for one inbound message `body` from `sender`, with
     * `now` the clock reading: the reply text, and the new reminder, when
     * there is one, appended to the list.
     */
    method Bot(body: string, sender: string, now: DateTime) returns (reply: string)
      requires ValidDateTime(now)
      modifies this
      ensures var o := Handle(body, sender, now);
              && reply == o.reply
              && reminders == old(reminders) + (if o.added.Some? then [o.added.value] else [])
    {
      var o := Handle(body, sender, now);
      reply := o.reply;
      if o.added.Some? {
        reminders := reminders + [o.added.value];
      }
    }

    /**
     * One pass of `reminder_worker` at clock reading `now`: walk a copy of
     * the list; for every due entry hand its notice to the client and, sent
     * or not, remove it from the live list.
     */
    method Sweep(now: DateTime)
      modifies this, client
      ensures reminders == PendingAt(old(reminders), now)
      ensures client.attempts == old(client.attempts) + Notices(DueAt(old(reminders), now), number)
    {
      var snapshot := reminders;
      ghost var sent := client.attempts;
      var i := 0;
      while i < |snapshot|
        invariant 0 <= i <= |snapshot|
        invariant reminders == PendingAt(snapshot[..i], now) + snapshot[i..]
        invariant client.attempts == sent + Notices(DueAt(snapshot[..i], now), number)
      {
        var r := snapshot[i];
        ghost var done, rest := snapshot[..i], snapshot[i + 1..];
        SliceStep(snapshot, i);
        if IsDue(r, now) {
          var delivered := client.Create(Notify(r, number));
          StepDue(done, r, rest, now, number);
          AppendAssoc(sent, Notices(DueAt(done, now), number), [Notify(r, number)]);
          reminders := RemoveFirst(reminders, r);
        } else {
          StepPending(done, r, rest, now);
        }
        assert reminders == PendingAt(done + [r], now) + rest;
        assert client.attempts == sent + Notices(DueAt(done + [r], now), number);
        i := i + 1;
      }
      assert snapshot[..i] == snapshot;
    }
  }
}
