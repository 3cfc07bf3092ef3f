/** What one run of the periodic due check (`check_reminders`) does to the
    store, stated on values: which reminders are due, what firing does to each,
    where an unparsable interval interrupts the scan, and which notifications
    go out. The tick itself is ReminderCog.Reminders.CheckReminders. */
module DueCheck {
  import opened ReminderStore
  import opened ReminderCommands

  /** A notification handed to the chat platform: the channel, the user to
      mention, and the reminder text. */
  datatype Notice = Notice(channelId: ChannelId, userId: UserId, message: string)

  /** A reminder is due once the clock has reached its time. */
  predicate Due(r: Reminder, now: int) {
    now >= r.time
  }

  /** A due one-time reminder: the tick removes it. */
  predicate FiresOnce(r: Reminder, now: int) {
    Due(r, now) && r.kind.OneTime?
  }

  /** A due recurring reminder whose interval text does not parse: handling it
      raises out of the tick. */
  predicate Stuck(r: Reminder, now: int, parse: string -> Option<int>) {
    Due(r, now) && r.kind.Recurring? && parse(r.kind.interval).None?
  }

  predicate StuckAt(m: map<Id, Reminder>, k: Id, now: int, parse: string -> Option<int>) {
    k in m && Stuck(m[k], now, parse)
  }

  /** The record after it fires: a recurring reminder whose interval parses
      moves on from its OLD due time by that interval; nothing else changes. */
  function Rescheduled(r: Reminder, parse: string -> Option<int>): (r': Reminder)
    ensures r'.(time := r.time) == r
    ensures r.kind.Recurring? && parse(r.kind.interval).Some? ==>
              r'.time == r.time + parse(r.kind.interval).value
    ensures r.kind.OneTime? || parse(r.kind.interval).None? ==> r' == r
  {
    match r.kind
    case OneTime => r
    case Recurring(interval) =>
      match parse(interval)
      case None => r
      case Some(seconds) => r.(time := r.time + seconds)
  }

  /** The position in `ks` of the first stuck reminder, or |ks| if none is. */
  function FirstStuck(ks: seq<Id>, m: map<Id, Reminder>, now: int, parse: string -> Option<int>): (j: nat)
    ensures j <= |ks|
    ensures j < |ks| ==> StuckAt(m, ks[j], now, parse)
    ensures forall i :: 0 <= i < j ==> !StuckAt(m, ks[i], now, parse)
  {
    if ks == [] then 0
    else if StuckAt(m, ks[0], now, parse) then 0
    else 1 + FirstStuck(ks[1..], m, now, parse)
  }

  /** In a duplicate-free order, a key at position n or later has not been
      visited after n iterations. */
  lemma {:induction false} NotYetVisited(order: seq<Id>, n: nat, j: nat)
    requires Distinct(order) && n <= j < |order|
    ensures order[j] !in KeysBefore(order, n)
  {
    if n > 0 {
      NotYetVisited(order, n - 1, j);
      DistinctAt(order, n - 1, j);
    }
  }

  /** Only keys of the dictionary are ever visited. */
  lemma {:induction false} VisitedWithin(order: seq<Id>, n: nat, keys: set<Id>)
    requires Enumerates(order, keys) && n <= |order|
    ensures KeysBefore(order, n) <= keys
  {
    if n > 0 {
      VisitedWithin(order, n - 1, keys);
    }
  }

  /** A full pass visits every key of the dictionary. */
  lemma VisitedAll(order: seq<Id>, keys: set<Id>)
    requires Enumerates(order, keys)
    ensures KeysBefore(order, |order|) == keys
  {
    VisitedWithin(order, |order|, keys);
    var v := KeysBefore(order, |order|);
    forall k | k in keys
      ensures k in v
    {
      var i :| 0 <= i < |order| && order[i] == k;
    }
  }

  /** The store once the scan has visited the keys in `visited`: each visited
      due reminder has fired in place; removals come later, in one batch. */
  function Advance(m: map<Id, Reminder>, visited: set<Id>, now: int, parse: string -> Option<int>): (a: map<Id, Reminder>)
    ensures a.Keys == m.Keys
  {
    map k | k in m :: if k in visited && Due(m[k], now) then Rescheduled(m[k], parse) else m[k]
  }

  /** The ids `to_remove` collects in the first n iterations: the due one-time
      reminders among the visited keys, in scan order. */
  function FiredIn(order: seq<Id>, n: nat, m: map<Id, Reminder>, now: int): (r: seq<Id>)
    requires n <= |order|
    ensures |r| <= n
  {
    if n == 0 then []
    else
      var k := order[n - 1];
      FiredIn(order, n - 1, m, now) + (if k in m && FiresOnce(m[k], now) then [k] else [])
  }

  /** An id is collected exactly when it was visited and its reminder is a due
      one-time reminder. */
  lemma {:induction false} FiredInExactly(order: seq<Id>, n: nat, m: map<Id, Reminder>, now: int)
    requires n <= |order|
    ensures forall k :: k in FiredIn(order, n, m, now) ==> k in KeysBefore(order, n) && k in m && FiresOnce(m[k], now)
    ensures forall i :: 0 <= i < n && order[i] in m && FiresOnce(m[order[i]], now) ==> order[i] in FiredIn(order, n, m, now)
  {
    if n > 0 {
      FiredInExactly(order, n - 1, m, now);
    }
  }

  /** What `channel.send` carries for a reminder: its channel, the owner to
      mention, and the text. */
  function NoticeOf(r: Reminder): Notice {
    Notice(r.channelId, r.userId, r.message)
  }

  /** The notifications sent in the first n iterations: one per due reminder
      whose channel and user both resolve, in scan order. */
  function Notices(order: seq<Id>, n: nat, m: map<Id, Reminder>, now: int,
                   channelKnown: ChannelId -> bool, userKnown: UserId -> bool): (ns: seq<Notice>)
    requires n <= |order|
    ensures |ns| <= n
  {
    if n == 0 then []
    else
      var k := order[n - 1];
      var front := Notices(order, n - 1, m, now, channelKnown, userKnown);
      if k in m && Due(m[k], now) && channelKnown(m[k].channelId) && userKnown(m[k].userId)
      then front + [NoticeOf(m[k])]
      else front
  }

  /** Every notification sent is the text of a visited due reminder,
      addressed to that reminder's channel and owner. */
  lemma {:induction false} NoticesComeFromDueReminders(order: seq<Id>, n: nat, m: map<Id, Reminder>, now: int,
                                                       channelKnown: ChannelId -> bool, userKnown: UserId -> bool, x: Notice)
    requires n <= |order|
    requires x in Notices(order, n, m, now, channelKnown, userKnown)
    ensures exists i :: 0 <= i < n && order[i] in m && Due(m[order[i]], now) && x == NoticeOf(m[order[i]])
  {
    if x in Notices(order, n - 1, m, now, channelKnown, userKnown) {
      NoticesComeFromDueReminders(order, n - 1, m, now, channelKnown, userKnown, x);
    } else {
      assert order[n - 1] in m && x == NoticeOf(m[order[n - 1]]);
    }
  }

  /** Notifications go only to channels and users that resolve. */
  lemma {:induction false} NoticesReachKnownRecipients(order: seq<Id>, n: nat, m: map<Id, Reminder>, now: int,
                                                       channelKnown: ChannelId -> bool, userKnown: UserId -> bool)
    requires n <= |order|
    ensures forall x :: x in Notices(order, n, m, now, channelKnown, userKnown) ==>
              channelKnown(x.channelId) && userKnown(x.userId)
  {
    if n > 0 {
      NoticesReachKnownRecipients(order, n - 1, m, now, channelKnown, userKnown);
    }
  }

  /** Every visited due reminder whose channel and user both resolve is
      notified. */
  lemma {:induction false} NoticesReachEveryResolvedDue(order: seq<Id>, n: nat, m: map<Id, Reminder>, now: int,
                                                        channelKnown: ChannelId -> bool, userKnown: UserId -> bool)
    requires n <= |order|
    ensures forall i :: 0 <= i < n && order[i] in m && Due(m[order[i]], now) &&
                        channelKnown(m[order[i]].channelId) && userKnown(m[order[i]].userId) ==>
              NoticeOf(m[order[i]]) in Notices(order, n, m, now, channelKnown, userKnown)
  {
    if n > 0 {
      NoticesReachEveryResolvedDue(order, n - 1, m, now, channelKnown, userKnown);
    }
  }

  /** The ids a completed tick removes. */
  function FiredKeys(m: map<Id, Reminder>, now: int): (ks: set<Id>)
    ensures forall k {:trigger k in ks} :: k in ks <==> k in m && FiresOnce(m[k], now)
  {
    set k | k in m && FiresOnce(m[k], now)
  }

  /** The store after a completed tick, independent of scan order and of
      whether channels and users resolve: due one-time reminders are gone, due recurring ones have fired
      once, the rest are untouched. */
  function TickStore(m: map<Id, Reminder>, now: int, parse: string -> Option<int>): (t: map<Id, Reminder>)
    ensures t.Keys == m.Keys - FiredKeys(m, now)
  {
    map k | k in m && !FiresOnce(m[k], now) :: if Due(m[k], now) then Rescheduled(m[k], parse) else m[k]
  }

  // ---------------------------------------------------------------------------
  // Linking the scan to the order-free description

  /** Scanning every key then deleting the collected ids yields TickStore. */
  lemma FullScanIsTick(order: seq<Id>, m: map<Id, Reminder>, now: int, parse: string -> Option<int>)
    requires Enumerates(order, m.Keys)
    ensures Advance(m, KeysBefore(order, |order|), now, parse) - FiredKeys(m, now) == TickStore(m, now, parse)
  {
    VisitedAll(order, m.Keys);
    var a, t := Advance(m, KeysBefore(order, |order|), now, parse) - FiredKeys(m, now), TickStore(m, now, parse);
    assert a.Keys == t.Keys;
  }

  /** A full scan collects exactly the ids a completed tick removes. */
  lemma FiredInAll(order: seq<Id>, m: map<Id, Reminder>, now: int)
    requires Enumerates(order, m.Keys)
    ensures KeySet(FiredIn(order, |order|, m, now)) == FiredKeys(m, now)
  {
    VisitedAll(order, m.Keys);
    FiredInExactly(order, |order|, m, now);
    var r := FiredIn(order, |order|, m, now);
    forall k | k in FiredKeys(m, now)
      ensures k in r
    {
      var i :| 0 <= i < |order| && order[i] == k;
    }
  }

  /** Visiting one more key fires that key's reminder in place, if it is due. */
  lemma AdvanceStep(m: map<Id, Reminder>, v: set<Id>, k: Id, now: int, parse: string -> Option<int>)
    requires k in m && k !in v
    ensures !Due(m[k], now) || Rescheduled(m[k], parse) == m[k] ==>
              Advance(m, v + {k}, now, parse) == Advance(m, v, now, parse)
    ensures Due(m[k], now) ==>
              Advance(m, v + {k}, now, parse) == Advance(m, v, now, parse)[k := Rescheduled(m[k], parse)]
  {
    var a, b := Advance(m, v + {k}, now, parse), Advance(m, v, now, parse);
    if Due(m[k], now) {
      assert a.Keys == b[k := Rescheduled(m[k], parse)].Keys;
    }
    if !Due(m[k], now) || Rescheduled(m[k], parse) == m[k] {
      assert a.Keys == b.Keys;
    }
  }

  /** One iteration of the scan at position i: the key there still holds its
      original record, and visiting it fires it in place if due, collects it
      if it is a due one-time reminder, and notifies if it is due and its
      channel and user resolve. */
  lemma ScanStep(order: seq<Id>, m: map<Id, Reminder>, i: nat, now: int, parse: string -> Option<int>,
                 channelKnown: ChannelId -> bool, userKnown: UserId -> bool)
    requires Enumerates(order, m.Keys) && i < |order|
    ensures var k, v := order[i], KeysBefore(order, i);
            && k in m && Advance(m, v, now, parse)[k] == m[k]
            && (!Due(m[k], now) || Rescheduled(m[k], parse) == m[k] ==>
                  Advance(m, KeysBefore(order, i + 1), now, parse) == Advance(m, v, now, parse))
            && (Due(m[k], now) ==>
                  Advance(m, KeysBefore(order, i + 1), now, parse) == Advance(m, v, now, parse)[k := Rescheduled(m[k], parse)])
            && FiredIn(order, i + 1, m, now) == FiredIn(order, i, m, now) + (if FiresOnce(m[k], now) then [k] else [])
            && Notices(order, i + 1, m, now, channelKnown, userKnown) ==
               Notices(order, i, m, now, channelKnown, userKnown) +
               (if Due(m[k], now) && channelKnown(m[k].channelId) && userKnown(m[k].userId) then [NoticeOf(m[k])] else [])
  {
    NotYetVisited(order, i, i);
    AdvanceStep(m, KeysBefore(order, i), order[i], now, parse);
  }

  /** The scan of `check_reminders` over the dictionary `store` in its key
      order `ids`: notify every due reminder whose channel and user resolve,
      move each due recurring reminder on by its interval, collect the due
      one-time ones;
      stop at the first due recurring reminder whose interval does not parse.
      `store'` is the dictionary as the scan leaves it. */
  method Scan(ids: seq<Id>, store: map<Id, Reminder>, now: int, parse: string -> Option<int>,
              channelKnown: ChannelId -> bool, userKnown: UserId -> bool)
    returns (store': map<Id, Reminder>, toRemove: seq<Id>, sent: seq<Notice>, failure: Option<Id>)
    requires Enumerates(ids, store.Keys)
    ensures failure.Some? <==> FirstStuck(ids, store, now, parse) < |ids|
    ensures failure.Some? ==>
              var j := FirstStuck(ids, store, now, parse);
              && failure.value == ids[j]
              && store' == Advance(store, KeysBefore(ids, j), now, parse)
              && sent == Notices(ids, j + 1, store, now, channelKnown, userKnown)
    ensures failure.None? ==>
              && store' == Advance(store, KeysBefore(ids, |ids|), now, parse)
              && toRemove == FiredIn(ids, |ids|, store, now)
              && sent == Notices(ids, |ids|, store, now, channelKnown, userKnown)
  {
    store', toRemove, sent, failure := store, [], [], None;
    var i := 0;
    while i < |ids|
      invariant 0 <= i <= |ids| && i <= FirstStuck(ids, store, now, parse)
      invariant store' == Advance(store, KeysBefore(ids, i), now, parse)
      invariant toRemove == FiredIn(ids, i, store, now)
      invariant sent == Notices(ids, i, store, now, channelKnown, userKnown)
    {
      var id := ids[i];
      ScanStep(ids, store, i, now, parse, channelKnown, userKnown);
      var r := store'[id];
      if now >= r.time {
        if channelKnown(r.channelId) && userKnown(r.userId) {
          sent := sent + [NoticeOf(r)];
        }
        match r.kind
        case Recurring(interval) =>
          var seconds := parse(interval);
          if seconds.None? {
            assert StuckAt(store, id, now, parse);
            failure := Some(id);
            return;
          }
          assert r.(time := r.time + seconds.value) == Rescheduled(r, parse);
          store' := store'[id := r.(time := r.time + seconds.value)];
        case OneTime =>
          toRemove := toRemove + [id];
      }
      i := i + 1;
    }
  }

  /** When the scan stops at a stuck reminder, the stuck reminder and every
      reminder after it keep their old records, and every due reminder before
      it has already fired in memory. */
  lemma InterruptedScan(order: seq<Id>, m: map<Id, Reminder>, now: int, parse: string -> Option<int>)
    requires Enumerates(order, m.Keys)
    requires FirstStuck(order, m, now, parse) < |order|
    ensures var j := FirstStuck(order, m, now, parse);
            var a := Advance(m, KeysBefore(order, j), now, parse);
            && a.Keys == m.Keys
            && (forall i :: j <= i < |order| ==> a[order[i]] == m[order[i]])
            && (forall i :: 0 <= i < j ==> a[order[i]] == if Due(m[order[i]], now) then Rescheduled(m[order[i]], parse) else m[order[i]])
  {
    var j := FirstStuck(order, m, now, parse);
    forall i | j <= i < |order|
      ensures order[i] !in KeysBefore(order, j)
    {
      NotYetVisited(order, j, i);
    }
  }

  // ---------------------------------------------------------------------------
  // Properties of a completed tick

  /** The due rule: a reminder that is not due is left exactly as it was. */
  lemma NotDueUntouched(m: map<Id, Reminder>, now: int, parse: string -> Option<int>, k: Id)
    requires k in m && !Due(m[k], now)
    ensures k in TickStore(m, now, parse) && TickStore(m, now, parse)[k] == m[k]
  {
  }

  /** A due one-time reminder is gone after the tick, from the store and from
      its owner's listing, and no reminder left behind fires once at the same
      clock: a one-time reminder fires exactly once. */
  lemma OneTimeFiresOnce(m: map<Id, Reminder>, now: int, parse: string -> Option<int>, k: Id)
    requires k in m && FiresOnce(m[k], now)
    ensures k !in TickStore(m, now, parse)
    ensures k !in ListReminders(TickStore(m, now, parse), m[k].userId)
    ensures FiredKeys(TickStore(m, now, parse), now) == {}
  {
  }

  /** A due recurring reminder stays, moved on by its interval from its old due
      time (not from `now`), so a late tick does not shift the schedule, and a
      reminder more than one interval behind is still due afterwards: it fires
      at most once per tick. */
  lemma RecurringAdvancesFromDueTime(m: map<Id, Reminder>, now: int, parse: string -> Option<int>, k: Id, seconds: int)
    requires k in m && Due(m[k], now) && m[k].kind.Recurring?
    requires parse(m[k].kind.interval) == Some(seconds)
    ensures k in TickStore(m, now, parse)
    ensures TickStore(m, now, parse)[k] == m[k].(time := m[k].time + seconds)
    ensures TickStore(m, now, parse)[k].time == now + seconds <==> m[k].time == now
    ensures m[k].time + seconds <= now <==> Due(TickStore(m, now, parse)[k], now)
  {
  }

  /** A tick never changes who owns a reminder, where it is delivered, its
      text or whether it recurs. */
  lemma TickKeepsOwnership(m: map<Id, Reminder>, now: int, parse: string -> Option<int>, k: Id)
    requires k in TickStore(m, now, parse)
    ensures var r := TickStore(m, now, parse)[k];
            r.userId == m[k].userId && r.channelId == m[k].channelId &&
            r.message == m[k].message && r.kind == m[k].kind
  {
  }

  /** The tick removes exactly the fired one-time reminders and no others. */
  lemma TickSize(m: map<Id, Reminder>, now: int, parse: string -> Option<int>)
    ensures |TickStore(m, now, parse)| == |m| - |FiredKeys(m, now)|
  {
    var t := TickStore(m, now, parse);
    assert m.Keys == t.Keys + FiredKeys(m, now);
    assert t.Keys !! FiredKeys(m, now);
  }

  /** A tick in which nothing is due changes nothing. */
  lemma NothingDueNothingChanges(m: map<Id, Reminder>, now: int, parse: string -> Option<int>)
    requires forall k :: k in m ==> !Due(m[k], now)
    ensures TickStore(m, now, parse) == m
    ensures FiredKeys(m, now) == {}
  {
    assert TickStore(m, now, parse).Keys == m.Keys;
  }

  /** A tick that only reschedules (nothing fired once) but moves some reminder
      leaves memory different from what was last written to disk if disk held
      the pre-tick store: the tick does not save, so the file is stale. */
  lemma RescheduleOnlyLeavesSnapshotStale(order: seq<Id>, m: map<Id, Reminder>, now: int,
                                          parse: string -> Option<int>, k: Id)
    requires Enumerates(order, m.Keys)
    requires FiredKeys(m, now) == {}
    requires k in m && Due(m[k], now) && m[k].kind.Recurring?
    requires parse(m[k].kind.interval).Some? && parse(m[k].kind.interval).value != 0
    ensures Enumerates(order, TickStore(m, now, parse).Keys)
    ensures ToPairs(order, TickStore(m, now, parse)) != ToPairs(order, m)
  {
    var t := TickStore(m, now, parse);
    assert t.Keys == m.Keys;
    var i :| 0 <= i < |order| && order[i] == k;
    assert ToPairs(order, t)[i].1 != ToPairs(order, m)[i].1;
  }
}
