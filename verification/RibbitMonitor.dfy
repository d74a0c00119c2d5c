/** The monitor: summaries come in, sequence numbers are stored, listeners hear of every new largest one. */
module RibbitMonitor {
  import opened Bytes
  import opened Concatenation

  type SequenceId = n: nat | n < TWO_TO_32

  datatype Record = Record(product: string, sequenceId: SequenceId, flags: string)

  datatype Notice = Notice(product: string, sequenceId: SequenceId)

  /** What one timer tick brings: it was cancelled, no summary came, or one did. */
  datatype Tick = Aborted | Unanswered | Summary(records: seq<Record>)

  type Database = map<string, nat>

  // ----- what should happen -----

  /** The unflagged sequence numbers of a product, in the order in which they come. */
  function IdsOf(product: string, records: seq<Record>): seq<SequenceId> {
    if records == [] then []
    else
      (if records[0].product == product && records[0].flags == "" then [records[0].sequenceId] else []) +
      IdsOf(product, records[1..])
  }

  function AllRecords(ticks: seq<Tick>): seq<Record> {
    if ticks == [] then []
    else (if ticks[0].Summary? then ticks[0].records else []) + AllRecords(ticks[1..])
  }

  /** The numbers that are larger than everything before them, and than what was stored. */
  function Maxima(ids: seq<SequenceId>, stored: Option<nat>): seq<SequenceId> {
    if ids == [] then []
    else if stored.None? || stored.value < ids[0] then [ids[0]] + Maxima(ids[1..], Some(ids[0]))
    else Maxima(ids[1..], stored)
  }

  function Largest(ids: seq<SequenceId>, stored: Option<nat>): Option<nat> {
    if ids == [] then stored
    else if stored.None? || stored.value < ids[0] then Largest(ids[1..], Some(ids[0]))
    else Largest(ids[1..], stored)
  }

  function Stored(database: Database, product: string): Option<nat> {
    if product in database then Some(database[product]) else None
  }

  function NoticesOf(product: string, notices: seq<Notice>): seq<SequenceId> {
    if notices == [] then []
    else (if notices[0].product == product then [notices[0].sequenceId] else []) + NoticesOf(product, notices[1..])
  }

  /** Between two states of the database, these notices were sent for these records: for every product exactly its new
      largest numbers, and the largest is what is stored. */
  ghost predicate Follows(before: Database, records: seq<Record>, notices: seq<Notice>, after: Database) {
    forall product: string :: FollowsFor(product, before, records, notices, after)
  }

  ghost predicate FollowsFor(product: string, before: Database, records: seq<Record>, notices: seq<Notice>, after: Database) {
    && NoticesOf(product, notices) == Maxima(IdsOf(product, records), Stored(before, product))
    && Stored(after, product) == Largest(IdsOf(product, records), Stored(before, product))
  }

  // ----- meaning of the specification -----

  ghost predicate Increasing(ids: seq<SequenceId>) {
    forall i, j | 0 <= i < j < |ids| :: ids[i] < ids[j]
  }

  ghost predicate Above(ids: seq<SequenceId>, stored: Option<nat>) {
    stored.None? || forall n | n in ids :: stored.value < n
  }

  /** Notified numbers increase strictly, and start above what was stored. */
  lemma {:induction false} MaximaIncrease(ids: seq<SequenceId>, stored: Option<nat>)
    ensures Increasing(Maxima(ids, stored)) && Above(Maxima(ids, stored), stored)
  {
    if ids != [] {
      var rises := stored.None? || stored.value < ids[0];
      MaximaIncrease(ids[1..], if rises then Some(ids[0]) else stored);
      if rises {
        var rest := Maxima(ids[1..], Some(ids[0]));
        forall j | 0 <= j < |rest| ensures ids[0] < rest[j] { assert rest[j] in rest; }
      }
    }
  }

  /** What is stored in the end is the largest of what was stored and what came. */
  lemma {:induction false} LargestIs(ids: seq<SequenceId>, stored: Option<nat>)
    ensures var last := Largest(ids, stored);
      && (last.None? <==> stored.None? && ids == [])
      && (last.Some? ==> (stored == last || last.value in ids) && forall n | n in ids :: n <= last.value)
      && (stored.Some? ==> stored.value <= last.value)
  {
    if ids != [] {
      var floor := if stored.None? || stored.value < ids[0] then Some(ids[0] as nat) else stored;
      LargestIs(ids[1..], floor);
      var last := Largest(ids, stored);
      forall n | n in ids ensures n <= last.value {
        if n != ids[0] { assert n in ids[1..]; }
      }
    }
  }

  /** The numbers that count for a product are those of its records without flags. */
  lemma {:induction false} IdsAre(product: string, records: seq<Record>, n: SequenceId)
    ensures n in IdsOf(product, records) <==> exists r | r in records :: r.product == product && r.flags == "" && r.sequenceId == n
  {
    if records != [] { IdsAre(product, records[1..], n); }
  }

  predicate IsMaximumAt(ids: seq<SequenceId>, stored: Option<nat>, i: nat)
    requires i < |ids|
  {
    (stored.None? || stored.value < ids[i]) && forall j | 0 <= j < i :: ids[j] < ids[i]
  }

  function TimesIn(n: SequenceId, ids: seq<SequenceId>): nat {
    multiset(ids)[n]
  }

  /** Every number that exceeds what was stored and all that came before it is notified, and each such number once. */
  lemma {:induction false} MaximaAre(ids: seq<SequenceId>, stored: Option<nat>, n: SequenceId)
    ensures TimesIn(n, Maxima(ids, stored)) == if exists i: nat | i < |ids| :: ids[i] == n && IsMaximumAt(ids, stored, i) then 1 else 0
  {
    if ids != [] {
      var rises := stored.None? || stored.value < ids[0];
      var floor := if rises then Some(ids[0]) else stored;
      MaximaAre(ids[1..], floor, n);
      if i: nat :| i < |ids| && ids[i] == n && IsMaximumAt(ids, stored, i) {
        if i > 0 { assert ids[1..][i - 1] == n && IsMaximumAt(ids[1..], floor, i - 1); }
        else { NotAbove(ids[1..], floor, n); }
      }
      if i: nat :| i < |ids| - 1 && ids[1..][i] == n && IsMaximumAt(ids[1..], floor, i) {
        MaximumLater(ids, stored, i);
      }
      if rises {
        assert Maxima(ids, stored) == [ids[0]] + Maxima(ids[1..], floor);
        assert multiset(Maxima(ids, stored)) == multiset{ids[0]} + multiset(Maxima(ids[1..], floor));
      }
    }
  }

  lemma MaximumLater(ids: seq<SequenceId>, stored: Option<nat>, i: nat)
    requires ids != [] && i < |ids| - 1
    requires IsMaximumAt(ids[1..], if stored.None? || stored.value < ids[0] then Some(ids[0]) else stored, i)
    ensures IsMaximumAt(ids, stored, i + 1)
  {
    forall j | 0 <= j < i + 1 ensures ids[j] < ids[i + 1] {
      if j > 0 { assert ids[1..][j - 1] == ids[j]; }
    }
  }

  /** Once a number is reached it is no record any more. */
  lemma NotAbove(ids: seq<SequenceId>, stored: Option<nat>, n: SequenceId)
    requires stored.Some? && n <= stored.value
    ensures forall i: nat | i < |ids| :: ids[i] == n ==> !IsMaximumAt(ids, stored, i)
  {
  }

  // ----- one after the other -----

  lemma {:induction false} IdsConcat(product: string, a: seq<Record>, b: seq<Record>)
    ensures IdsOf(product, a + b) == IdsOf(product, a) + IdsOf(product, b)
  {
    if a == [] {
      assert a + b == b;
    } else {
      assert (a + b)[1..] == a[1..] + b;
      IdsConcat(product, a[1..], b);
    }
  }

  lemma {:induction false} NoticesConcat(product: string, a: seq<Notice>, b: seq<Notice>)
    ensures NoticesOf(product, a + b) == NoticesOf(product, a) + NoticesOf(product, b)
  {
    if a == [] {
      assert a + b == b;
    } else {
      var first := if a[0].product == product then [a[0].sequenceId] else [];
      assert (a + b)[1..] == a[1..] + b && (a + b)[0] == a[0];
      NoticesConcat(product, a[1..], b);
      Associates(first, NoticesOf(product, a[1..]), NoticesOf(product, b));
    }
  }

  lemma {:induction false} MaximaConcat(a: seq<SequenceId>, b: seq<SequenceId>, stored: Option<nat>)
    ensures Maxima(a + b, stored) == Maxima(a, stored) + Maxima(b, Largest(a, stored))
    ensures Largest(a + b, stored) == Largest(b, Largest(a, stored))
  {
    if a == [] {
      assert a + b == b;
    } else {
      assert (a + b)[1..] == a[1..] + b;
      MaximaConcat(a[1..], b, if stored.None? || stored.value < a[0] then Some(a[0]) else stored);
    }
  }

  lemma FollowsConcat(before: Database, a: seq<Record>, m: seq<Notice>, middle: Database, b: seq<Record>, n: seq<Notice>, after: Database)
    requires Follows(before, a, m, middle) && Follows(middle, b, n, after)
    ensures Follows(before, a + b, m + n, after)
  {
    forall product: string
      ensures FollowsFor(product, before, a + b, m + n, after)
    {
      assert FollowsFor(product, before, a, m, middle) && FollowsFor(product, middle, b, n, after);
      IdsConcat(product, a, b);
      NoticesConcat(product, m, n);
      MaximaConcat(IdsOf(product, a), IdsOf(product, b), Stored(before, product));
    }
  }

  lemma FollowsNothing(database: Database)
    ensures Follows(database, [], [], database)
  {
    forall product: string ensures FollowsFor(product, database, [], [], database) {}
  }

  /** One record: passed over, or stored and notified. */
  lemma FollowsOne(before: Database, r: Record)
    ensures var rises := r.flags == "" && (r.product !in before || before[r.product] < r.sequenceId);
      Follows(before, [r], if rises then [Notice(r.product, r.sequenceId)] else [],
              if rises then before[r.product := r.sequenceId] else before)
  {
    var rises := r.flags == "" && (r.product !in before || before[r.product] < r.sequenceId);
    var notices := if rises then [Notice(r.product, r.sequenceId)] else [];
    var after := if rises then before[r.product := r.sequenceId] else before;
    forall product: string
      ensures FollowsFor(product, before, [r], notices, after)
    {
      assert [r][1..] == [] && IdsOf(product, [r]) == if r.product == product && r.flags == "" then [r.sequenceId] else [];
      if rises { assert notices[1..] == []; }
      if r.product == product && r.flags == "" { assert [r.sequenceId][1..] == []; }
    }
  }

  // ----- the monitor -----

  class Monitor {
    var database: Database
    var inboxes: seq<seq<Notice>>   // what each listener was called with
    ghost var start: Database       // what was stored before the first tick
    ghost var seen: seq<Record>
    ghost var sent: seq<Notice>

    ghost predicate Valid()
      reads this
    {
      Follows(start, seen, sent, database) && forall inbox | inbox in inboxes :: inbox == sent
    }

    constructor (database: Database, listeners: nat)
      ensures Valid() && this.database == database && start == database && seen == [] && sent == [] && |inboxes| == listeners
    {
      this.database, start := database, database;
      inboxes := seq(listeners, i => []);
      seen, sent := [], [];
      new;
      FollowsNothing(database);
    }

    /** Calls the listeners one after the other. */
    method NotifyProductUpdate(product: string, sequenceId: SequenceId)
      requires forall inbox | inbox in inboxes :: inbox == sent
      modifies this`inboxes, this`sent
      ensures sent == old(sent) + [Notice(product, sequenceId)] && |inboxes| == |old(inboxes)|
      ensures forall inbox | inbox in inboxes :: inbox == sent
    {
      var notice := Notice(product, sequenceId);
      assert forall k | 0 <= k < |inboxes| :: inboxes[k] in inboxes;
      for i := 0 to |inboxes|
        invariant |inboxes| == |old(inboxes)| && sent == old(sent)
        invariant forall k | 0 <= k < |inboxes| :: inboxes[k] == if k < i then old(sent) + [notice] else old(sent)
      {
        inboxes := inboxes[i := inboxes[i] + [notice]];
      }
      sent := sent + [notice];
    }

    /** The loop over the records of a summary; a tick that was cancelled or brought none does nothing. */
    method OnUpdate(tick: Tick)
      requires Valid()
      modifies this
      ensures Valid() && start == old(start) && |inboxes| == |old(inboxes)|
      ensures seen == old(seen) + if tick.Summary? then tick.records else []
    {
      if !tick.Summary? { return; }
      var records := tick.records;
      for i := 0 to |records|
        invariant Valid() && start == old(start) && |inboxes| == |old(inboxes)|
        invariant seen == old(seen) + records[..i]
      {
        assert old(seen) + records[..i + 1] == (old(seen) + records[..i]) + [records[i]];
        OnRecord(records[i]);
      }
      assert records[..|records|] == records;
    }

    method OnRecord(record: Record)
      requires Valid()
      modifies this
      ensures Valid() && start == old(start) && |inboxes| == |old(inboxes)| && seen == old(seen) + [record]
    {
      FollowsOne(database, record);
      ghost var before, told := database, sent;
      if record.flags == "" {
        if record.product !in database || database[record.product] < record.sequenceId {
          database := database[record.product := record.sequenceId];
          NotifyProductUpdate(record.product, record.sequenceId);
        }
      }
      assert sent == told + sent[|told|..];
      FollowsConcat(start, seen, told, before, [record], sent[|told|..], database);
      seen := seen + [record];
    }
  }

  /** Over any run of ticks, starting from any database: every listener hears, for each product, exactly the new largest
      unflagged numbers in increasing order; the database ends with the largest. */
  method Watch(database: Database, listeners: nat, ticks: seq<Tick>) returns (after: Database, inboxes: seq<seq<Notice>>)
    ensures |inboxes| == listeners
    ensures forall inbox | inbox in inboxes :: Follows(database, AllRecords(ticks), inbox, after)
    ensures forall product: string :: Stored(after, product) == Largest(IdsOf(product, AllRecords(ticks)), Stored(database, product))
  {
    var monitor := new Monitor(database, listeners);
    assert AllRecords(ticks[..0]) == [];
    for i := 0 to |ticks|
      invariant monitor.Valid() && monitor.start == database && |monitor.inboxes| == listeners
      invariant monitor.seen == AllRecords(ticks[..i])
      invariant fresh(monitor)
    {
      RecordsNext(ticks, i);
      monitor.OnUpdate(ticks[i]);
    }
    assert ticks[..|ticks|] == ticks;
    after, inboxes := monitor.database, monitor.inboxes;
    forall product: string
      ensures Stored(after, product) == Largest(IdsOf(product, AllRecords(ticks)), Stored(database, product))
    {
      assert FollowsFor(product, database, AllRecords(ticks), monitor.sent, after);
    }
  }

  lemma {:induction false} AllRecordsAppend(ticks: seq<Tick>, last: Tick)
    ensures AllRecords(ticks + [last]) == AllRecords(ticks) + if last.Summary? then last.records else []
  {
    if ticks == [] {
      assert ticks + [last] == [last] && AllRecords([last][1..]) == [];
    } else {
      var first := if ticks[0].Summary? then ticks[0].records else [];
      assert (ticks + [last])[1..] == ticks[1..] + [last] && (ticks + [last])[0] == ticks[0];
      AllRecordsAppend(ticks[1..], last);
      Associates(first, AllRecords(ticks[1..]), if last.Summary? then last.records else []);
    }
  }

  lemma RecordsNext(ticks: seq<Tick>, i: nat)
    requires i < |ticks|
    ensures AllRecords(ticks[..i + 1]) == AllRecords(ticks[..i]) + if ticks[i].Summary? then ticks[i].records else []
  {
    assert ticks[..i + 1] == ticks[..i] + [ticks[i]];
    AllRecordsAppend(ticks[..i], ticks[i]);
  }
}
