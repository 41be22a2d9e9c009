/** User reminders: `set_reminder` stores a record with `notified = false` and
    registers a one-shot scheduler job under the record's id; `send_reminder`
    delivers the record once and sets its flag. The reminder collection is a
    sequence indexed by id, the scheduler's job table a map from job id to
    the time it fires at, and sent messages an append-only outbox. */
module Reminders {
  import opened Options
  import opened Text
  import opened Timestamps

  datatype Reminder = Reminder(user: int, message: string, time: DateTime, notified: bool)

  /** A reminder message sent to chat `chat`: its text and its time as
      `strftime('%Y-%m-%d %H:%M')` shows it. */
  datatype Delivery = Delivery(reminder: nat, chat: int, message: string, when: string)

  /** The first year APScheduler's cron trigger accepts; an earlier year
      makes the trigger raise `ValueError`. */
  const CronMinYear: int := 1970

  /** A time the one-shot cron trigger can be built for (`Valid` already
      bounds the year by 9999, the trigger's maximum). */
  predicate Schedulable(t: DateTime)
  {
    t.year >= CronMinYear
  }

  /** What `set_reminder` was asked to store. */
  datatype Request = Request(message: string, time: DateTime)

  /** What `set_reminder` answers: usage text, the format error, or the
      confirmation echoing the date and time arguments as typed. */
  datatype SetReply = Usage | InvalidDateTime | Scheduled(date: string, time: string)

  /** The argument checks of `set_reminder`: at least three arguments, then
      a date and time that parse; the text is the remaining arguments joined
      by single spaces. */
  function ParseRequest(args: seq<string>): (r: Result<Request, SetReply>)
    ensures r == Err(Usage) <==> |args| < 3
    ensures r == Err(InvalidDateTime) <==> |args| >= 3 && Parse(args[0], args[1]).None?
    ensures r.Err? ==> r.error == Usage || r.error == InvalidDateTime
    ensures r.Ok? ==> |args| >= 3 && Parse(args[0], args[1]) == Some(r.value.time) && Valid(r.value.time)
    ensures r.Ok? ==> Parse(FormatDate(r.value.time), FormatTime(r.value.time)) == Some(r.value.time)
  {
    if |args| < 3 then Err(Usage)
    else
      var message := Join(args[2..], ' ');
      var time := Parse(args[0], args[1]);
      if time.None? then Err(InvalidDateTime)
      else
        ParseFormat(time.value);
        Ok(Request(message, time.value))
  }

  /** The stored text splits back into the words typed after the date and
      time (Telegram's arguments never contain a space). */
  lemma ReminderTextRoundTrip(args: seq<string>)
    requires ParseRequest(args).Ok?
    requires forall i :: 2 <= i < |args| ==> ' ' !in args[i]
    ensures Split(ParseRequest(args).value.message, ' ') == args[2..]
  {
    SplitJoin(args[2..], ' ');
  }

  /** Number of messages sent for reminder `id`. */
  function DeliveriesOf(outbox: seq<Delivery>, id: nat): nat
    decreases |outbox|
  {
    if outbox == [] then 0
    else DeliveriesOf(outbox[..|outbox| - 1], id) + (if outbox[|outbox| - 1].reminder == id then 1 else 0)
  }

  /** The reminder invariant: every stored time is a real minute, each job
      fires at its reminder's time, every message belongs to a stored
      reminder, and a reminder has been sent once if it is marked notified
      and never otherwise. */
  predicate Consistent(reminders: seq<Reminder>, jobs: map<nat, DateTime>, outbox: seq<Delivery>)
  {
    && (forall id :: 0 <= id < |reminders| ==> Valid(reminders[id].time))
    && (forall id :: id in jobs ==> id < |reminders| && jobs[id] == reminders[id].time)
    && (forall i :: 0 <= i < |outbox| ==> outbox[i].reminder < |reminders|)
    && (forall id :: 0 <= id < |reminders| ==>
          DeliveriesOf(outbox, id) == if reminders[id].notified then 1 else 0)
  }

  /** An id with no message in the outbox has been delivered zero times. */
  lemma {:induction false} DeliveriesOfAbsent(outbox: seq<Delivery>, id: nat)
    requires forall i :: 0 <= i < |outbox| ==> outbox[i].reminder != id
    ensures DeliveriesOf(outbox, id) == 0
    decreases |outbox|
  {
    if outbox != [] {
      DeliveriesOfAbsent(outbox[..|outbox| - 1], id);
    }
  }

  /** In a consistent state no reminder id, stored or not, has been sent more
      than once. */
  lemma AtMostOnce(reminders: seq<Reminder>, jobs: map<nat, DateTime>, outbox: seq<Delivery>, id: nat)
    requires Consistent(reminders, jobs, outbox)
    ensures DeliveriesOf(outbox, id) <= 1
  {
    if id >= |reminders| {
      DeliveriesOfAbsent(outbox, id);
    }
  }

  /** Storing a fresh reminder with `notified = false` and its job keeps the
      invariant. */
  lemma AddKeepsConsistent(reminders: seq<Reminder>, jobs: map<nat, DateTime>, outbox: seq<Delivery>, r: Reminder)
    requires Consistent(reminders, jobs, outbox)
    requires Valid(r.time) && !r.notified
    ensures Consistent(reminders + [r], jobs[|reminders| := r.time], outbox)
  {
    DeliveriesOfAbsent(outbox, |reminders|);
  }

  /** Storing an unnotified reminder without registering a job keeps the
      invariant. */
  lemma AddUnscheduledKeepsConsistent(reminders: seq<Reminder>, jobs: map<nat, DateTime>, outbox: seq<Delivery>, r: Reminder)
    requires Consistent(reminders, jobs, outbox)
    requires Valid(r.time) && !r.notified
    ensures Consistent(reminders + [r], jobs, outbox)
  {
    DeliveriesOfAbsent(outbox, |reminders|);
  }

  /** Sending an unnotified reminder and setting its flag keeps the invariant. */
  lemma FireKeepsConsistent(reminders: seq<Reminder>, jobs: map<nat, DateTime>, outbox: seq<Delivery>, id: nat)
    requires Consistent(reminders, jobs, outbox)
    requires id < |reminders| && !reminders[id].notified
    ensures
      var r := reminders[id];
      Consistent(reminders[id := r.(notified := true)], jobs,
                 outbox + [Delivery(id, r.user, r.message, Format(r.time))])
  {
    var r := reminders[id];
    var outbox' := outbox + [Delivery(id, r.user, r.message, Format(r.time))];
    assert outbox'[..|outbox|] == outbox;
  }

  class ReminderService {
    var reminders: seq<Reminder>
    var jobs: map<nat, DateTime>
    var outbox: seq<Delivery>

    ghost predicate Valid()
      reads this
    {
      Consistent(reminders, jobs, outbox)
    }

    constructor ()
      ensures Valid() && reminders == [] && jobs == map[] && outbox == []
    {
      reminders := [];
      jobs := map[];
      outbox := [];
    }

    /** `set_reminder`: on bad arguments nothing is stored and no job is
        registered. Otherwise one reminder with `notified = false` is stored
        under the next id. If the scheduler's cron trigger accepts its year,
        the job under that id fires at its time, replacing any job that had
        the id; if not, the trigger's `ValueError` comes after the insert, so
        the record stays, no job is registered and the format error is the
        reply. */
    method SetReminder(user: int, args: seq<string>) returns (reply: SetReply)
      requires Valid()
      modifies this
      ensures Valid()
      ensures outbox == old(outbox)
      ensures ParseRequest(args).Err? ==>
        reply == ParseRequest(args).error && reminders == old(reminders) && jobs == old(jobs)
      ensures ParseRequest(args).Ok? ==>
        var req := ParseRequest(args).value;
        reminders == old(reminders) + [Reminder(user, req.message, req.time, false)]
      ensures ParseRequest(args).Ok? && Schedulable(ParseRequest(args).value.time) ==>
        && reply == Scheduled(args[0], args[1])
        && jobs == old(jobs)[|old(reminders)| := ParseRequest(args).value.time]
      ensures ParseRequest(args).Ok? && !Schedulable(ParseRequest(args).value.time) ==>
        reply == InvalidDateTime && jobs == old(jobs)
    {
      var request := ParseRequest(args);
      if request.Err? {
        return request.error;
      }
      var r := Reminder(user, request.value.message, request.value.time, false);
      var id := |reminders|;
      if !Schedulable(r.time) {
        AddUnscheduledKeepsConsistent(reminders, jobs, outbox, r);
        reminders := reminders + [r];
        return InvalidDateTime;
      }
      AddKeepsConsistent(reminders, jobs, outbox, r);
      reminders := reminders + [r];
      jobs := jobs[id := r.time];
      reply := Scheduled(args[0], args[1]);
    }

    /** `send_reminder`: sends only when the record exists and is not yet
        notified, then marks it notified; afterwards the record, if it
        exists, is notified, so a later call for the same id sends nothing. */
    method SendReminder(id: nat)
      requires Valid()
      modifies this
      ensures Valid()
      ensures jobs == old(jobs)
      ensures id < |old(reminders)| && !old(reminders)[id].notified ==>
        var r := old(reminders)[id];
        && reminders == old(reminders)[id := r.(notified := true)]
        && outbox == old(outbox) + [Delivery(id, r.user, r.message, Format(r.time))]
      ensures !(id < |old(reminders)| && !old(reminders)[id].notified) ==>
        reminders == old(reminders) && outbox == old(outbox)
      ensures id < |reminders| ==> reminders[id].notified
    {
      if id < |reminders| && !reminders[id].notified {
        var r := reminders[id];
        FireKeepsConsistent(reminders, jobs, outbox, id);
        outbox := outbox + [Delivery(id, r.user, r.message, Format(r.time))];
        reminders := reminders[id := r.(notified := true)];
      }
    }
  }

  /** The scheduler firing the same reminder job twice: at most one message
      goes out, and none if the reminder was already notified. */
  method FireTwice(service: ReminderService, id: nat)
    requires service.Valid()
    modifies service
    ensures service.Valid()
    ensures |service.outbox| <= |old(service.outbox)| + 1
    ensures id < |old(service.reminders)| && old(service.reminders)[id].notified ==>
      service.outbox == old(service.outbox)
  {
    service.SendReminder(id);
    service.SendReminder(id);
  }
}
