/** The reminders cog: the in-memory dictionary of reminders, the snapshot last
    written to disk, the periodic due check and the four slash commands.
    The clock, the timespan parser and the chat platform's channel and user
    lookups are parameters of the methods that use them. */
module ReminderCog {
  import opened ReminderStore
  import opened ReminderCommands
  import opened DueCheck

  /** What `remind` and `remindme` answer: the new reminder's id, or why the
      request was refused. */
  datatype CreateOutcome = Created(id: Id) | Refused(error: CreateError)

  class Reminders {
    /** `self.reminders`: id → record, iterated in `order` (insertion order). */
    var reminders: map<Id, Reminder>
    var order: seq<Id>
    /** The contents of the reminders file, as last written or read. */
    ghost var persisted: Snapshot

    ghost predicate Valid()
      reads this`reminders, this`order
    {
      Enumerates(order, reminders.Keys)
    }

    /** `__init__` with `load_reminders`: read the file if there is one,
        otherwise start empty and write the empty dictionary out. */
    constructor Load(file: Option<Snapshot>)
      ensures Valid()
      ensures file.None? ==> reminders == map[] && order == [] && persisted == []
      ensures file.Some? ==> (order, reminders) == FromPairs(file.value) && persisted == file.value
    {
      reminders, order, persisted := map[], [], [];
      new;
      match file
      case None =>
        Save();
      case Some(contents) =>
        var loaded := FromPairs(contents);
        order, reminders := loaded.0, loaded.1;
        persisted := contents;
    }

    /** `save_reminders`: the file now holds the dictionary, in order. */
    method Save()
      requires Valid()
      modifies this`persisted
      ensures persisted == ToPairs(order, reminders)
    {
      persisted := ToPairs(order, reminders);
    }

    /** `self.reminders[id] = record` followed by a save. */
    method Put(id: Id, record: Reminder)
      requires Valid()
      modifies this
      ensures Valid()
      ensures reminders == old(reminders)[id := record]
      ensures order == PutOrder(old(order), old(reminders).Keys, id)
      ensures persisted == ToPairs(order, reminders)
    {
      PutKeepsEnumeration(order, reminders, id, record);
      order := PutOrder(order, reminders.Keys, id);
      reminders := reminders[id := record];
      Save();
    }

    /** `remind`: check the delay, then store a one-time reminder due `now`
        plus the delay under id str(len + 1), and save. */
    method Remind(user: UserId, channel: ChannelId, time: string, message: string,
                  now: int, parse: string -> Option<int>) returns (outcome: CreateOutcome)
      requires Valid()
      modifies this
      ensures Valid()
      ensures CheckDuration(parse(time)).Rejected? ==>
                outcome == Refused(CheckDuration(parse(time)).error) && unchanged(this)
      ensures CheckDuration(parse(time)).Accepted? ==>
                var id := NextId(old(reminders));
                && outcome == Created(id)
                && reminders == old(reminders)[id := Reminder(user, channel, message, now + parse(time).value, OneTime)]
                && order == PutOrder(old(order), old(reminders).Keys, id)
                && persisted == ToPairs(order, reminders)
    {
      var checked := CheckDuration(parse(time));
      if checked.Rejected? {
        return Refused(checked.error);
      }
      var id := NextId(reminders);
      Put(id, Reminder(user, channel, message, now + checked.seconds, OneTime));
      outcome := Created(id);
    }

    /** `remindme`: the same delay check on `time` only; the interval text is
        stored as given, without being parsed. */
    method Remindme(user: UserId, channel: ChannelId, time: string, interval: string, message: string,
                    now: int, parse: string -> Option<int>) returns (outcome: CreateOutcome)
      requires Valid()
      modifies this
      ensures Valid()
      ensures CheckDuration(parse(time)).Rejected? ==>
                outcome == Refused(CheckDuration(parse(time)).error) && unchanged(this)
      ensures CheckDuration(parse(time)).Accepted? ==>
                var id := NextId(old(reminders));
                && outcome == Created(id)
                && reminders == old(reminders)[id := Reminder(user, channel, message, now + parse(time).value, Recurring(interval))]
                && order == PutOrder(old(order), old(reminders).Keys, id)
                && persisted == ToPairs(order, reminders)
    {
      var checked := CheckDuration(parse(time));
      if checked.Rejected? {
        return Refused(checked.error);
      }
      var id := NextId(reminders);
      Put(id, Reminder(user, channel, message, now + checked.seconds, Recurring(interval)));
      outcome := Created(id);
    }

    /** `cancelreminder`: only the owner's own reminder is deleted, and only
        then is the file rewritten. */
    method CancelReminder(user: UserId, id: Id) returns (outcome: CancelOutcome)
      requires Valid()
      modifies this
      ensures Valid()
      ensures outcome == CancelDecision(old(reminders), user, id)
      ensures outcome != Cancelled ==> unchanged(this)
      ensures outcome == Cancelled ==>
                && reminders == old(reminders) - {id}
                && order == Filter(old(order), {id})
                && persisted == ToPairs(order, reminders)
    {
      if id in reminders {
        if reminders[id].userId == user {
          DeleteKeepsEnumeration(order, reminders, id);
          reminders := reminders - {id};
          order := Filter(order, {id});
          Save();
          outcome := Cancelled;
        } else {
          outcome := Forbidden;
        }
      } else {
        outcome := NotFound;
      }
    }

    /** One run of `check_reminders` at clock `now`. Every due reminder whose
        channel and user resolve is notified; a due recurring reminder is moved on by its interval
        in place, a due one-time reminder is collected and all collected ids
        are deleted after the scan; the file is rewritten only if something
        was deleted. If a due recurring reminder's interval does not parse,
        the scan stops there (`failure`): reminders moved earlier in the scan
        stay moved in memory, nothing is deleted and nothing is saved. The new
        store never depends on whether channels or users resolved. */
    method CheckReminders(now: int, parse: string -> Option<int>,
                          channelKnown: ChannelId -> bool, userKnown: UserId -> bool)
      returns (sent: seq<Notice>, failure: Option<Id>)
      requires Valid()
      modifies this
      ensures Valid()
      ensures failure.Some? <==> FirstStuck(old(order), old(reminders), now, parse) < |old(order)|
      ensures failure.None? ==>
                && reminders == TickStore(old(reminders), now, parse)
                && order == Filter(old(order), FiredKeys(old(reminders), now))
                && sent == Notices(old(order), |old(order)|, old(reminders), now, channelKnown, userKnown)
                && persisted == if FiredKeys(old(reminders), now) == {} then old(persisted)
                                else ToPairs(order, reminders)
      ensures failure.Some? ==>
                var j := FirstStuck(old(order), old(reminders), now, parse);
                && failure.value == old(order)[j]
                && reminders == Advance(old(reminders), KeysBefore(old(order), j), now, parse)
                && order == old(order)
                && sent == Notices(old(order), j + 1, old(reminders), now, channelKnown, userKnown)
                && persisted == old(persisted)
    {
      ghost var m0 := reminders;
      var store, toRemove;
      store, toRemove, sent, failure := Scan(order, reminders, now, parse, channelKnown, userKnown);
      reminders := store;
      if failure.Some? {
        return;
      }
      FullScanIsTick(order, m0, now, parse);
      FiredInAll(order, m0, now);
      DeleteAll(toRemove);
      if |toRemove| > 0 {
        assert toRemove[0] in FiredKeys(m0, now);
        Save();
      } else {
        assert FiredKeys(m0, now) == {} by {
          forall k | k in FiredKeys(m0, now) ensures k in toRemove { }
        }
      }
    }

    /** The batch deletion closing `check_reminders`: `del` each collected id. */
    method DeleteAll(ids: seq<Id>)
      requires Valid()
      modifies this`reminders, this`order
      ensures Valid()
      ensures reminders == old(reminders) - KeySet(ids)
      ensures order == Filter(old(order), KeySet(ids))
    {
      var m, o := reminders, order;
      FilterNothing(o, {});
      assert m - {} == m;
      var t := 0;
      while t < |ids|
        invariant 0 <= t <= |ids|
        invariant Enumerates(Filter(old(order), KeysBefore(ids, t)), (old(reminders) - KeysBefore(ids, t)).Keys)
        invariant m == old(reminders) - KeysBefore(ids, t)
        invariant o == Filter(old(order), KeysBefore(ids, t))
      {
        var id := ids[t];
        DeleteOneMore(old(order), old(reminders), KeysBefore(ids, t), id);
        m := m - {id};
        o := Filter(o, {id});
        t := t + 1;
      }
      KeysBeforeAll(ids, |ids|);
      assert KeysBefore(ids, |ids|) == KeySet(ids);
      reminders, order := m, o;
    }
  }
}
