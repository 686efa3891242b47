/**
 * The web server's event loops, one message at a time: the tag service that
 * counts tag reads once the event has started, the hub that fans notifications
 * out to the browser clients' queues, and the form that assigns a range of
 * tags to a team.
 */
module Server {
  import opened GoStd
  import opened SqlStore

  // ---------------------------------------------------------------------
  // Tag reads
  // ---------------------------------------------------------------------

  /** A reader's message is a tag id in decimal; anything else is dropped. */
  function LapsMessage(msg: string): (r: Option<int>)
    ensures r.Some? ==> InInt64(r.value)
  {
    Atoi(msg)
  }

  /** Every tag id a reader can send arrives as itself. */
  lemma LapsMessageItoa(tagID: int)
    requires InInt64(tagID)
    ensures LapsMessage(Itoa(tagID)) == Some(tagID)
  {
    AtoiItoa(tagID);
  }

  /** What serving one message did: no read waiting, a dropped read, or a read handed to IncrementLaps. */
  datatype ReadOutcome = NoRead | NotStarted | Counted | Refused(error: LapError)

  /**
   * serviceTagChannel's state: the event has started once an hour update has
   * arrived; reads wait in the tag channel (pending) and notifications are published
   * on the notify channel, both in order.
   */
  class TagService {
    var started: bool
    var hour: bv64
    var pending: seq<int>
    var published: seq<Notification>
    const ds: DataStore

    constructor (ds: DataStore, hour: bv64)
      ensures this.ds == ds && this.hour == hour && !started && pending == [] && published == []
    {
      this.ds := ds;
      this.hour := hour;
      started := false;
      pending := [];
      published := [];
    }

    /** handleLaps, one message: a decimal tag id joins the tag channel; anything else is only logged. */
    method HandleLapsMessage(msg: string)
      modifies this
      ensures pending == old(pending) + (if LapsMessage(msg).Some? then [LapsMessage(msg).value] else [])
      ensures started == old(started) && hour == old(hour) && published == old(published)
    {
      var tagID := Atoi(msg);
      if tagID.Some? {
        pending := pending + [tagID.value];
      }
    }

    /** The updateHour case: the event is started from now on, and reads count against the new hour. */
    method UpdateHour(newHour: bv64)
      modifies this
      ensures started && hour == newHour
      ensures pending == old(pending) && published == old(published)
    {
      hour := newHour;
      started := true;
    }

    /**
     * The tags case, for the oldest waiting read at time now: before the
     * start it is dropped and nothing else happens; afterwards it goes to
     * IncrementLaps, and exactly one notification is published when that
     * succeeds, none when it fails.  The start flag and the hour stay.
     */
    method ServeRead(now: int) returns (outcome: ReadOutcome)
      modifies this, ds
      ensures started == old(started) && hour == old(hour)
      ensures old(pending) == [] ==> outcome == NoRead && pending == [] && published == old(published) && ds.Snapshot() == old(ds.Snapshot())
      ensures old(pending) != [] ==> pending == old(pending)[1..]
      ensures old(pending) != [] && !started ==>
        outcome == NotStarted && published == old(published) && ds.Snapshot() == old(ds.Snapshot())
      ensures old(pending) != [] && started ==>
        var tagID := old(pending)[0];
        && ds.Snapshot() == AfterIncrementLaps(old(ds.Snapshot()), tagID, hour, now)
        && (outcome == Counted <==> tagID in old(ds.tags) && !IsDuplicateRead(old(ds.tags)[tagID].lastUpdated, now))
        && (outcome == Counted ==>
              && |published| == |old(published)| + 1 && published[..|old(published)|] == old(published)
              && exists board :: IsLeaderboard(ds.Snapshot(), LEADERBOARD_SIZE, board) &&
                   published[|old(published)|] == LapNotification(ds.Snapshot(), tagID, old(ds.tags)[tagID].teamID, TeamRank(board, old(ds.tags)[tagID].teamID)))
        && (outcome != Counted ==> published == old(published) && outcome.Refused?)
    {
      if pending == [] {
        return NoRead;
      }
      var tagID := pending[0];
      pending := pending[1..];
      if !started {
        return NotStarted;
      }
      var r, board := ds.IncrementLaps(tagID, hour, now);
      if r.Ok? {
        published := published + [r.value];
        assert published[..|old(published)|] == old(published);
        outcome := Counted;
      } else {
        outcome := Refused(r.error);
      }
    }
  }

  // ---------------------------------------------------------------------
  // Notifications
  // ---------------------------------------------------------------------

  /** Each browser client's queue holds at most this many notifications. */
  const CLIENT_QUEUE_SIZE: nat := 10

  /** A browser client: the notifications waiting to be written to its websocket. */
  class NotifyClient {
    var queue: seq<Notification>

    constructor ()
      ensures queue == []
    {
      queue := [];
    }
  }

  lemma SomeClient(s: set<NotifyClient>)
    ensures s == {} || exists c :: c in s
  {
    if !(exists c :: c in s) {
      assert s == {};
    }
  }

  /** How a publish ended: on every queue, or waiting on a client whose queue is full. */
  datatype PublishOutcome = Delivered | Blocked(client: NotifyClient)

  /** serviceNotifyChannel's state: the registered clients. */
  class NotifyHub {
    var clients: set<NotifyClient>

    constructor ()
      ensures clients == {}
    {
      clients := {};
    }

    method Register(c: NotifyClient)
      modifies this
      ensures clients == old(clients) + {c}
    {
      clients := clients + {c};
    }

    /** Unregistering a client that is not registered changes nothing. */
    method Unregister(c: NotifyClient)
      modifies this
      ensures clients == old(clients) - {c}
      ensures c !in old(clients) ==> clients == old(clients)
    {
      clients := clients - {c};
    }

    /**
     * The notify case: the notification goes once onto every registered
     * client's queue, in no fixed order, and onto no other.  A full queue
     * blocks the hub; this step then ends on that client, whose queue is
     * untouched, with each other client served at most once.
     */
    method Publish(n: Notification) returns (outcome: PublishOutcome)
      modifies clients
      ensures outcome == Delivered <==> forall c :: c in clients ==> |old(c.queue)| < CLIENT_QUEUE_SIZE
      ensures outcome == Delivered ==> forall c :: c in clients ==> c.queue == old(c.queue) + [n]
      ensures outcome.Blocked? ==>
        && outcome.client in clients && |old(outcome.client.queue)| >= CLIENT_QUEUE_SIZE
        && outcome.client.queue == old(outcome.client.queue)
        && forall c :: c in clients ==> c.queue == old(c.queue) || c.queue == old(c.queue) + [n]
    {
      var remaining := clients;
      while remaining != {}
        invariant remaining <= clients
        invariant forall c :: c in remaining ==> c.queue == old(c.queue)
        invariant forall c :: c in clients && c !in remaining ==> c.queue == old(c.queue) + [n] && |old(c.queue)| < CLIENT_QUEUE_SIZE
        decreases remaining
      {
        SomeClient(remaining);
        var c :| c in remaining;
        if |c.queue| >= CLIENT_QUEUE_SIZE {
          return Blocked(c);
        }
        c.queue := c.queue + [n];
        remaining := remaining - {c};
      }
      outcome := Delivered;
    }
  }

  // ---------------------------------------------------------------------
  // The tag form
  // ---------------------------------------------------------------------

  /**
   * Why the form was refused: a field that is not a number, a range ending
   * at MaxInt64 (on which handleTeam's tag loop never ends), or the inserts'
   * error.
   */
  datatype FormError = BadTeamID | BadFirstTag | BadLastTag | EndlessTagRange | InsertFailed(error: InsertError)

  /**
   * handleTeam's POST: team_id must be a number; tag_ids is split at '-',
   * its first part must be a number and so must the second when there is
   * one; a single number is a range of one.  Parts after the second are
   * ignored.  A range ending at MaxInt64 is the one whose loop never ends.
   */
  function ParseTagForm(teamIDField: string, tagIDsField: string): Result<seq<Tag>, FormError> {
    var parts := Split(tagIDsField, '-');
    if Atoi(teamIDField).None? then Err(BadTeamID)
    else if Atoi(parts[0]).None? then Err(BadFirstTag)
    else if |parts| > 1 && Atoi(parts[1]).None? then Err(BadLastTag)
    else
      var first := Atoi(parts[0]).value;
      var last := if |parts| > 1 then Atoi(parts[1]).value else first;
      if TagLoopEndless(first, last) then Err(EndlessTagRange)
      else Ok(TagRange(first, last, Atoi(teamIDField).value))
  }

  /** "a-b" gives the tags a..b of the team, none when b < a, and never ends when a <= b == MaxInt64. */
  lemma TagFormRange(teamID: int, first: nat, last: nat)
    requires InInt64(teamID) && InInt64(first) && InInt64(last)
    ensures ParseTagForm(Itoa(teamID), Itoa(first) + "-" + Itoa(last)) ==
      if TagLoopEndless(first, last) then Err(EndlessTagRange) else Ok(TagRange(first, last, teamID))
    ensures last < first ==> ParseTagForm(Itoa(teamID), Itoa(first) + "-" + Itoa(last)) == Ok([])
  {
    AtoiItoa(teamID);
    AtoiItoa(first);
    AtoiItoa(last);
    ItoaPlain(first);
    ItoaPlain(last);
    SplitTwo(Itoa(first), '-', Itoa(last));
    assert Itoa(first) + "-" + Itoa(last) == Itoa(first) + ['-'] + Itoa(last);
  }

  /** "a" gives the single tag a, except that the loop over "MaxInt64" never ends. */
  lemma TagFormSingle(teamID: int, tagID: nat)
    requires InInt64(teamID) && InInt64(tagID)
    ensures ParseTagForm(Itoa(teamID), Itoa(tagID)) ==
      if tagID == MAX_INT64 then Err(EndlessTagRange) else Ok([Tag(0, 0, tagID, teamID)])
  {
    AtoiItoa(teamID);
    AtoiItoa(tagID);
    ItoaPlain(tagID);
    SplitWithoutSep(Itoa(tagID), '-');
    assert TagRange(tagID, tagID, teamID) == [Tag(0, 0, tagID, teamID)];
  }

  /** A form with a part that is not a number is refused. */
  lemma TagFormRefused(teamIDField: string, tagIDsField: string)
    ensures Atoi(teamIDField).None? ==> ParseTagForm(teamIDField, tagIDsField) == Err(BadTeamID)
    ensures Atoi(teamIDField).Some? && Atoi(Split(tagIDsField, '-')[0]).None? ==>
      ParseTagForm(teamIDField, tagIDsField) == Err(BadFirstTag)
    ensures ParseTagForm(teamIDField, tagIDsField).Ok? ==>
      Atoi(teamIDField).Some? && forall i :: 0 <= i < |Split(tagIDsField, '-')| && i < 2 ==> Atoi(Split(tagIDsField, '-')[i]).Some?
  {
  }

  /** Every tag of an accepted form belongs to the form's team, and the ids count up from the first. */
  lemma TagFormTeam(teamIDField: string, tagIDsField: string)
    requires ParseTagForm(teamIDField, tagIDsField).Ok?
    ensures var tags := ParseTagForm(teamIDField, tagIDsField).value;
      forall k :: 0 <= k < |tags| ==>
        tags[k].teamID == Atoi(teamIDField).value && tags[k].tagID == Atoi(Split(tagIDsField, '-')[0]).value + k &&
        tags[k].laps == 0 && tags[k].lastUpdated == 0
  {
  }

  /**
   * The POST itself: a refused form inserts nothing; an accepted one goes
   * through the non-transactional tag inserts, which keep the tags stored up
   * to the first failing one.
   */
  method PostTagForm(ds: DataStore, teamIDField: string, tagIDsField: string) returns (r: Result<int, FormError>)
    modifies ds
    ensures ds.teams == old(ds.teams)
    ensures ParseTagForm(teamIDField, tagIDsField).Err? ==>
      r == Err(ParseTagForm(teamIDField, tagIDsField).error) && ds.tags == old(ds.tags)
    ensures ParseTagForm(teamIDField, tagIDsField).Ok? ==>
      var (rows, err) := InsertTagRows(old(ds.tags), ds.teams.Keys, ds.foreignKeys, ParseTagForm(teamIDField, tagIDsField).value);
      && ds.tags == rows
      && r == (if err.Some? then Err(InsertFailed(err.value)) else Ok(Atoi(teamIDField).value))
  {
    var teamID := Atoi(teamIDField);
    if teamID.None? {
      return Err(BadTeamID);
    }
    var firstLast := Split(tagIDsField, '-');
    var first := Atoi(firstLast[0]);
    if first.None? {
      return Err(BadFirstTag);
    }
    var last := first.value;
    if |firstLast| > 1 {
      var parsed := Atoi(firstLast[1]);
      if parsed.None? {
        return Err(BadLastTag);
      }
      last := parsed.value;
    }
    if first.value <= last && last == MAX_INT64 {
      return Err(EndlessTagRange);
    }
    var tags := AppendTagRange([], first.value, last, teamID.value);
    assert tags == TagRange(first.value, last, teamID.value);
    var err := ds.InsertTagsNoTx(tags);
    if err.Some? {
      return Err(InsertFailed(err.value));
    }
    r := Ok(teamID.value);
  }
}
