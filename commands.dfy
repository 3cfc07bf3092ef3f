/** The decisions behind the cog's slash commands: the duration check shared by
    `remind` and `remindme`, the ownership decision of `cancelreminder`, and the
    owner filter of `reminders`. The commands' effects on the store are the
    methods of ReminderCog.Reminders; these functions say what they decide. */
module ReminderCommands {
  import opened ReminderStore

  /** Shortest and longest accepted reminder delay, in seconds (one minute, one week). */
  const MinSeconds: int := 60
  const MaxSeconds: int := 604800

  /** Why a create command is refused: the time text does not parse
      (`InvalidTimespan`), or the delay is under a minute or over a week. */
  datatype CreateError = InvalidTimespan | TooShort | TooLong

  datatype Checked = Accepted(seconds: int) | Rejected(error: CreateError)

  /** The checks `remind` and `remindme` run on the parsed `time` argument, in
      the order they run them. */
  function CheckDuration(parsed: Option<int>): (c: Checked)
    ensures c.Accepted? <==> parsed.Some? && MinSeconds <= parsed.value <= MaxSeconds
    ensures c.Accepted? ==> c.seconds == parsed.value
    ensures c == Rejected(InvalidTimespan) <==> parsed.None?
    ensures c == Rejected(TooShort) <==> parsed.Some? && parsed.value < MinSeconds
    ensures c == Rejected(TooLong) <==> parsed.Some? && parsed.value > MaxSeconds
  {
    match parsed
    case None => Rejected(InvalidTimespan)
    case Some(seconds) =>
      if seconds < 60 then Rejected(TooShort)
      else if seconds > 604800 then Rejected(TooLong)
      else Accepted(seconds)
  }

  /** The boundary delays: 59 s and 604801 s are refused, 60 s and 604800 s accepted. */
  lemma DurationBoundaries()
    ensures CheckDuration(Some(59)) == Rejected(TooShort)
    ensures CheckDuration(Some(60)) == Accepted(60)
    ensures CheckDuration(Some(604800)) == Accepted(604800)
    ensures CheckDuration(Some(604801)) == Rejected(TooLong)
  {
  }

  datatype CancelOutcome = NotFound | Forbidden | Cancelled

  /** `cancelreminder`: an unknown id is not found, someone else's reminder
      is forbidden, and only the owner's own reminder is cancelled. */
  function CancelDecision(m: map<Id, Reminder>, user: UserId, id: Id): (o: CancelOutcome)
    ensures o == NotFound <==> id !in m
    ensures o == Forbidden <==> id in m && m[id].userId != user
    ensures o == Cancelled <==> id in m && m[id].userId == user
  {
    if id in m then
      if m[id].userId == user then Cancelled else Forbidden
    else NotFound
  }

  /** `reminders`: the caller's own entries, with their ids. */
  function ListReminders(m: map<Id, Reminder>, user: UserId): (r: map<Id, Reminder>)
    ensures forall k :: k in r <==> k in m && m[k].userId == user
    ensures forall k :: k in r ==> r[k] == m[k]
  {
    map k | k in m && m[k].userId == user :: m[k]
  }

  /** Every reminder shows in its owner's listing and in nobody else's. */
  lemma ListingsPartition(m: map<Id, Reminder>, k: Id, user: UserId)
    requires k in m
    ensures k in ListReminders(m, user) <==> user == m[k].userId
  {
  }

  /** A cancelled id leaves its owner's listing; the rest of every listing is
      as before. */
  lemma CancelledLeavesListing(m: map<Id, Reminder>, user: UserId, id: Id, viewer: UserId)
    requires CancelDecision(m, user, id) == Cancelled
    ensures id !in ListReminders(m - {id}, viewer)
    ensures ListReminders(m - {id}, viewer) == ListReminders(m, viewer) - {id}
  {
    var a, b := ListReminders(m - {id}, viewer), ListReminders(m, viewer) - {id};
    assert a.Keys == b.Keys;
  }

  /** A forbidden cancel's id stays in its owner's listing and is not in the
      requester's. */
  lemma RefusedCancelKeepsReminder(m: map<Id, Reminder>, user: UserId, id: Id)
    requires CancelDecision(m, user, id) == Forbidden
    ensures id in ListReminders(m, m[id].userId)
    ensures id !in ListReminders(m, user)
  {
  }

  /** A created reminder shows in its owner's listing under the allocated id. */
  lemma CreatedShowsInListing(m: map<Id, Reminder>, r: Reminder)
    ensures var l := ListReminders(m[NextId(m) := r], r.userId);
            NextId(m) in l && l[NextId(m)] == r
  {
  }
}
