/** Why a page is taken to come from one snapshot. The serving side reads its log once per
    call: the origins, then each origin's rows, then the arrivals. Ops may arrive between
    any two of these reads. This is what such a page does to a puller, and exactly when
    it does no harm. */
module PullTorn {
  import opened OrderKeys
  import opened Logs
  import opened PullServer
  import opened PullPages
  import opened PullClient
  import opened PullLink

  // ------------------------------------------------------------ reads over time

  /** How long the log was when each origin's rows were read; 0 for an origin that was not
      on the list. */
  type Reads = DeviceId -> nat

  /** The log as it was at its first `n` arrivals. */
  function LogAt(log: Log, n: nat): Log
    requires n <= |log.arrivals|
  {
    Built(log.epoch, log.arrivals[..n])
  }

  /** Channel A, each segment read from the log of its own moment. */
  ghost function ServeAcross(log: Log, readAt: Reads, plan: seq<Segment>, room: Room): Channel
    requires forall d :: readAt(d) <= |log.arrivals|
    decreases |plan|
  {
    if plan == [] then Channel([], None)
    else
      var shelf := Shelf(LogAt(log, readAt(plan[0].origin)).ops, None, PAGE_BYTE_BUDGET);
      var served := ServedRows(shelf, plan[0], room);
      if CutIn(shelf, plan[0], room) then Channel(served, Some(Keyed(Some(plan[0].origin), LastKey(served))))
      else Then(served, ServeAcross(log, readAt, plan[1..], RoomAfter(shelf, plan[0], room)))
  }

  /** The origins were listed at length `listed`, and each listed one was read no earlier. */
  ghost predicate Ordered(log: Log, listed: nat, readAt: Reads) {
    && listed <= |log.arrivals|
    && forall d :: if d in OriginList(LogAt(log, listed).ops) then listed <= readAt(d) <= |log.arrivals| else readAt(d) == 0
  }

  ghost function ChannelAcross(log: Log, listed: nat, readAt: Reads, own: DeviceId, claims: Claims, resume: Option<Resume>, count: nat): Channel
    requires Ordered(log, listed, readAt)
  {
    ServeAcross(log, readAt, Plan(OriginList(LogAt(log, listed).ops), own, claims, false, resume), Room(count, 0))
  }

  /** The page put together from these reads, with channel B read last, from `log`. */
  ghost function PageAcross(log: Log, listed: nat, readAt: Reads, own: DeviceId, claims: Claims, resume: Option<Resume>, after: nat, limit: nat): PullPage
    requires Ordered(log, listed, readAt)
  {
    if resume.Some? && resume.value.Backfill? then BackfillPage(log, claims, [], resume.value.afterSeq, limit)
    else
      var ch := ChannelAcross(log, listed, readAt, own, claims, resume, limit);
      if ch.cut.Some? then DataPage(log, [], ch.keyed, after, ch.cut, None)
      else if |ch.keyed| >= limit then DataPage(log, [], ch.keyed, after, Some(Backfill(after)), None)
      else BackfillPage(log, claims, ch.keyed, after, limit - |ch.keyed|)
  }

  // ------------------------------------------------- the log channel A has seen

  /** The arrivals channel A could see: those that came before their origin was read. */
  ghost function Seen(arrivals: seq<SignedOp>, readAt: Reads): seq<SignedOp> {
    if arrivals == [] then []
    else
      var init, last := arrivals[..|arrivals| - 1], arrivals[|arrivals| - 1];
      if |init| < readAt(last.device) then Seen(init, readAt) + [last] else Seen(init, readAt)
  }

  ghost function SeenLog(log: Log, readAt: Reads): Log {
    Built(log.epoch, Seen(log.arrivals, readAt))
  }

  ghost predicate SeenAt(arrivals: seq<SignedOp>, readAt: Reads, op: SignedOp, i: nat) {
    i < |arrivals| && arrivals[i] == op && i < readAt(op.device)
  }

  lemma {:induction false} SeenExactly(arrivals: seq<SignedOp>, readAt: Reads, op: SignedOp)
    ensures op in Seen(arrivals, readAt) <==> exists i :: SeenAt(arrivals, readAt, op, i)
  {
    if arrivals != [] {
      var init, last := arrivals[..|arrivals| - 1], arrivals[|arrivals| - 1];
      SeenExactly(init, readAt, op);
      if exists i :: SeenAt(init, readAt, op, i) {
        var i: nat :| SeenAt(init, readAt, op, i);
        assert SeenAt(arrivals, readAt, op, i);
      }
      if exists i :: SeenAt(arrivals, readAt, op, i) {
        var i: nat :| SeenAt(arrivals, readAt, op, i);
        assert i < |init| ==> SeenAt(init, readAt, op, i);
      }
      assert |init| < readAt(last.device) ==> SeenAt(arrivals, readAt, last, |init|);
    }
  }

  lemma SeenLogIsValid(log: Log, readAt: Reads)
    requires log.Valid()
    ensures SeenLog(log, readAt).Valid()
    ensures forall op :: op in SeenLog(log, readAt).ops <==> exists i :: SeenAt(log.arrivals, readAt, op, i)
  {
    var seen := Seen(log.arrivals, readAt);
    forall op
      ensures op in seen <==> exists i :: SeenAt(log.arrivals, readAt, op, i)
    {
      SeenExactly(log.arrivals, readAt, op);
    }
    forall i, j | 0 <= i < |seen| && 0 <= j < |seen| && seen[i].id == seen[j].id
      ensures seen[i] == seen[j]
    {
      assert seen[i] in seen && seen[j] in seen;
    }
    BuiltHolds(log.epoch, seen);
  }

  lemma LogAtIsValid(log: Log, n: nat)
    requires log.Valid() && n <= |log.arrivals|
    ensures LogAt(log, n).Valid() && forall op :: op in LogAt(log, n).ops <==> op in log.arrivals[..n]
  {
    BuiltHolds(log.epoch, log.arrivals[..n]);
  }

  /** For one origin, the log of its own moment and the log channel A has seen are alike. */
  lemma SameOriginRows(log: Log, readAt: Reads, d: DeviceId, after: Option<OrderKey>)
    requires log.Valid() && readAt(d) <= |log.arrivals|
    ensures OriginRows(LogAt(log, readAt(d)).ops, d, after, None) == OriginRows(SeenLog(log, readAt).ops, d, after, None)
  {
    var then', seen := LogAt(log, readAt(d)).ops, SeenLog(log, readAt).ops;
    LogAtIsValid(log, readAt(d));
    SeenLogIsValid(log, readAt);
    OriginRowsExact(then', d, after, None);
    OriginRowsExact(seen, d, after, None);
    OriginRowsAscend(then', d, after, None);
    OriginRowsAscend(seen, d, after, None);
    hide OriginRows;
    hide LogAt;
    hide SeenLog;
    forall op: SignedOp | op.device == d
      ensures op in log.arrivals[..readAt(d)] <==> exists i :: SeenAt(log.arrivals, readAt, op, i)
    {
      if op in log.arrivals[..readAt(d)] {
        var i :| 0 <= i < readAt(d) && log.arrivals[i] == op;
        assert SeenAt(log.arrivals, readAt, op, i);
      }
    }
    AscendingUnique(OriginRows(then', d, after, None), OriginRows(seen, d, after, None));
  }

  lemma SameSegment(a: Shelf, b: Shelf, s: Segment, room: Room)
    requires OriginRows(a.ops, s.origin, s.after, a.store) == OriginRows(b.ops, s.origin, s.after, b.store) && a.budget == b.budget
    ensures ServedRows(a, s, room) == ServedRows(b, s, room) && CutIn(a, s, room) == CutIn(b, s, room)
         && RoomAfter(a, s, room) == RoomAfter(b, s, room)
  {
    hide OriginRows;
    hide Bytes;
    hide Served;
  }

  /** So reading origin by origin is reading the log channel A has seen. */
  lemma {:induction false} ServeAcrossIsServe(log: Log, readAt: Reads, plan: seq<Segment>, room: Room)
    requires log.Valid() && forall d :: readAt(d) <= |log.arrivals|
    ensures ServeAcross(log, readAt, plan, room) == Serve(Shelf(SeenLog(log, readAt).ops, None, PAGE_BYTE_BUDGET), plan, room)
    decreases |plan|
  {
    hide OriginRows;
    hide LogAt;
    hide SeenLog;
    hide ServedRows;
    hide CutIn;
    hide RoomAfter;
    hide Ascending;
    hide DistinctIds;
    if plan != [] {
      var s := plan[0];
      SameOriginRows(log, readAt, s.origin, s.after);
      var shelf := Shelf(LogAt(log, readAt(s.origin)).ops, None, PAGE_BYTE_BUDGET);
      SameSegment(shelf, Shelf(SeenLog(log, readAt).ops, None, PAGE_BYTE_BUDGET), s, room);
      ServeAcrossIsServe(log, readAt, plan[1..], RoomAfter(shelf, s, room));
    }
  }

  lemma {:induction false} AscendingIdsUnique(a: seq<DeviceId>, b: seq<DeviceId>)
    requires AscendingIds(a) && AscendingIds(b) && forall d :: d in a <==> d in b
    ensures a == b
  {
    if a == [] {
      EmptyHasNoMember(b);
    } else {
      assert a[0] in a && a[0] in b;
      assert b[0] in b && b[0] in a;
      assert a[0] == b[0];
      forall d
        ensures d in a[1..] <==> d in b[1..]
      {
        assert d in a[1..] <==> d in a && d != a[0];
        assert d in b[1..] <==> d in b && d != b[0];
      }
      AscendingIdsUnique(a[1..], b[1..]);
    }
  }

  lemma SameOrigins(log: Log, listed: nat, readAt: Reads)
    requires log.Valid() && Ordered(log, listed, readAt)
    ensures OriginList(LogAt(log, listed).ops) == OriginList(SeenLog(log, readAt).ops)
  {
    var then', seen := LogAt(log, listed).ops, SeenLog(log, readAt).ops;
    LogAtIsValid(log, listed);
    SeenLogIsValid(log, readAt);
    OriginListExact(then');
    OriginListExact(seen);
    hide OriginList;
    hide LogAt;
    hide SeenLog;
    forall d
      ensures d in OriginList(then') <==> d in OriginList(seen)
    {
      if d in OriginList(then') {
        var op :| op in then' && op.device == d;
        var i :| 0 <= i < listed && log.arrivals[i] == op;
        assert SeenAt(log.arrivals, readAt, op, i);
      }
      if d in OriginList(seen) {
        var op :| op in seen && op.device == d;
        var i :| SeenAt(log.arrivals, readAt, op, i);
      }
    }
    AscendingIdsUnique(OriginList(then'), OriginList(seen));
  }

  /** Channel A across its reads is channel A of the log it has seen. */
  lemma ChannelAcrossIsChannel(log: Log, listed: nat, readAt: Reads, own: DeviceId, claims: Claims, resume: Option<Resume>, count: nat)
    requires log.Valid() && Ordered(log, listed, readAt) && count > 0
    ensures ChannelAcross(log, listed, readAt, own, claims, resume, count)
         == KeyedChannel(SeenLog(log, readAt), own, claims, false, resume, None, count, PAGE_BYTE_BUDGET)
  {
    hide Serve;
    hide ServeAcross;
    hide Plan;
    hide OriginList;
    hide LogAt;
    hide SeenLog;
    SameOrigins(log, listed, readAt);
    ServeAcrossIsServe(log, readAt, Plan(OriginList(LogAt(log, listed).ops), own, claims, false, resume), Room(count, 0));
  }

  // ------------------------------------------------------------------ torn pages

  /** What the puller may rely on: channel A is honest for the log it has seen, channel B
      for the log it was read from. */
  ghost predicate TornPage(log: Log, readAt: Reads, claims: Claims, after: nat, page: PullPage) {
    && !page.reset && page.epoch == log.epoch
    && KeyedClosed(SeenLog(log, readAt), claims, page.keyed)
    && (exists n :: Orderly(page.keyed, n))
    && after <= page.nextRelaySeq <= log.Head()
    && page.backfill == CoveredBetween(log.arrivals, claims, after, page.nextRelaySeq)
  }

  lemma PageAcrossIsTorn(log: Log, listed: nat, readAt: Reads, own: DeviceId, claims: Claims, resume: Option<Resume>, after: nat, limit: nat)
    requires log.Valid() && Ordered(log, listed, readAt) && Coherent(resume, claims, after) && after <= log.Head() && limit > 0
    ensures TornPage(log, readAt, claims, after, PageAcross(log, listed, readAt, own, claims, resume, after, limit))
  {
    hide KeyedChannel;
    hide ChannelAcross;
    hide KeyedClosed;
    hide Orderly;
    hide CoveredBetween;
    hide BackfillPage;
    hide ServesAll;
    hide SeenLog;
    hide LogAt;
    hide OriginList;
    hide Ascending;
    hide DistinctIds;
    SeenLogIsValid(log, readAt);
    if resume.Some? && resume.value.Backfill? {
      EmptyChannelIsHonest(SeenLog(log, readAt), claims);
      BackfillPageIsHonest(log, claims, [], after, limit);
    } else {
      ChannelAcrossIsChannel(log, listed, readAt, own, claims, resume, limit);
      KeyedChannelIsHonest(SeenLog(log, readAt), own, claims, resume, after, limit);
      var ch := ChannelAcross(log, listed, readAt, own, claims, resume, limit);
      if ch.cut.Some? || |ch.keyed| >= limit {
        NothingBetween(log.arrivals, claims, after);
      } else {
        BackfillPageIsHonest(log, claims, ch.keyed, after, limit - |ch.keyed|);
      }
    }
  }

  lemma NothingBetween(arrivals: seq<SignedOp>, claims: Claims, at: nat)
    requires at <= |arrivals|
    ensures CoveredBetween(arrivals, claims, at, at) == []
  {
  }

  /** An op that arrived after its origin was read, that the cursor passed because the claims
      did not cover it, and that sorts no higher than an op admitted from channel A. */
  ghost predicate Undercut(log: Log, readAt: Reads, c: Client, admitted: seq<SignedOp>, reached: nat, i: nat) {
    && i < |log.arrivals| && readAt(log.arrivals[i].device) <= i < reached
    && !Covers(c.claims, log.arrivals[i].Key()) && log.arrivals[i].id !in c.held
    && ServedAbove(admitted, log.arrivals[i])
  }

  ghost predicate ServedAbove(keyed: seq<SignedOp>, op: SignedOp) {
    exists k :: k in keyed && k.device == op.device && AtMost(op.Key(), k.Key())
  }

  /** A claim comes to cover an op exactly when the channel served one at or above it. */
  lemma CoveredExactly(claims: Claims, claims': Claims, keyed: seq<SignedOp>, op: SignedOp)
    requires RaisedBy(claims, claims', keyed) && !Covers(claims, op.Key())
    ensures Covers(claims', op.Key()) <==> ServedAbove(keyed, op)
  {
    if Covers(claims', op.Key()) {
      assert Names(keyed, op.device, claims'[op.device]);
    }
    if ServedAbove(keyed, op) {
      var k :| k in keyed && k.device == op.device && AtMost(op.Key(), k.Key());
      assert Covers(claims', k.Key());
    }
  }

  /** What a torn page, or the part of it that was not refused, leaves: `n` entries of channel
      A are admitted and the cursor has reached `reached`. */
  ghost predicate TornResult(log: Log, c: Client, c': Client, page: PullPage, n: nat, reached: nat) {
    && n <= |page.keyed| && Position(c.cursor, log.epoch) <= reached <= page.nextRelaySeq
    && c'.cursor == Some(Cursor(log.epoch, reached))
    && RaisedBy(c.claims, c'.claims, page.keyed[..n])
    && c.held + FirstIds(page.keyed, n) <= c'.held
    && c'.held <= c.held + FirstIds(OpsOf(page.backfill), |page.backfill|) + FirstIds(page.keyed, n)
    && HoldsCovered(log, c.claims, c'.held, Position(c.cursor, log.epoch), reached)
  }

  /** The positional part of a torn page, as far as it was admitted. */
  lemma TornBackfill(log: Log, c: Client, page: PullPage, w: World, tick: nat)
    requires var pos := Position(c.cursor, log.epoch);
             pos <= page.nextRelaySeq <= log.Head() && page.backfill == CoveredBetween(log.arrivals, c.claims, pos, page.nextRelaySeq)
    ensures var pos := Position(c.cursor, log.epoch);
            var (c2, a) := ApplyBackfill(c, Cursor(log.epoch, pos), page.backfill, w, tick);
            && c2.cursor.Some? && c2.cursor.value.after <= page.nextRelaySeq
            && TornResult(log, c, c2, page, 0, c2.cursor.value.after)
            && (!a.failed ==> TornResult(log, c, c2.(cursor := Some(Cursor(log.epoch, page.nextRelaySeq))), page, 0, page.nextRelaySeq))
  {
    hide Covers;
    hide CoveredBetween;
    hide AcceptedCount;
    var pos := Position(c.cursor, log.epoch);
    BackfillEffect(log, c, page.nextRelaySeq, w, tick);
    var (c2, a) := ApplyBackfill(c, Cursor(log.epoch, pos), page.backfill, w, tick);
    FirstIdsNone(page.keyed);
    NothingIsRaised(c.claims, page.keyed);
    var ops := OpsOf(page.backfill);
    assert FirstIds(ops, a.admitted) <= FirstIds(ops, |ops|);
    hide HoldsCovered;
    hide FirstIds;
    hide RaisedBy;
  }

  lemma NothingIsRaised(claims: Claims, keyed: seq<SignedOp>)
    ensures RaisedBy(claims, claims, keyed[..0])
  {
    assert keyed[..0] == [];
    NothingRaised(claims);
  }

  /** The keyed part behind it. */
  lemma TornKeyed(log: Log, c: Client, c3: Client, page: PullPage, w: World, tick: nat) returns (n: nat)
    requires TornResult(log, c, c3, page, 0, page.nextRelaySeq) && c3.claims == c.claims && OrderError(page.keyed).None?
    ensures var r := AdmitRuns(c3, Runs(page.keyed), w, tick);
            TornResult(log, c, r.c, page, n, page.nextRelaySeq) && (r.error.None? ==> n == |page.keyed|)
  {
    hide OrderError;
    hide AdmitRuns;
    hide Runs;
    hide RaisedBy;
    RunsAreGood(page.keyed);
    n := AdmitRunsEffect(c3, Runs(page.keyed), w, tick);
    var r := AdmitRuns(c3, Runs(page.keyed), w, tick);
    FirstIdsNone(page.keyed);
    HoldsCoveredMore(log, c.claims, c3.held, r.c.held, Position(c.cursor, log.epoch), page.nextRelaySeq);
    hide HoldsCovered;
    hide FirstIds;
  }

  lemma BackfillLeavesClaims(c: Client, cur: Cursor, backfill: seq<(nat, SignedOp)>, w: World, tick: nat)
    ensures ApplyBackfill(c, cur, backfill, w, tick).0.claims == c.claims
  {
  }

  /** Applying a torn page, whatever is refused on the way. */
  lemma TornEffect(log: Log, readAt: Reads, c: Client, page: PullPage, w: World, tick: nat) returns (n: nat, reached: nat)
    requires c.cursor.None? || c.cursor.value.epoch == log.epoch
    requires TornPage(log, readAt, c.claims, Position(c.cursor, log.epoch), page)
    ensures var r := ApplyPage(c, page, w, tick);
            && TornResult(log, c, r.c, page, n, reached)
            && (r.error.None? ==> n == |page.keyed| && reached == page.nextRelaySeq)
  {
    hide Covers;
    hide CoveredBetween;
    hide KeyedClosed;
    hide SeenLog;
    hide Orderly;
    hide OrderError;
    hide SeqsAdvance;
    hide AdmitRuns;
    hide Runs;
    hide TornResult;
    var pos := Position(c.cursor, log.epoch);
    var cur := Cursor(log.epoch, pos);
    CoveredBetweenInOrder(log.arrivals, c.claims, pos, page.nextRelaySeq);
    InOrderAdvances(log.arrivals, c.claims, page.backfill, pos, page.nextRelaySeq);
    hide InOrder;
    TornBackfill(log, c, page, w, tick);
    BackfillLeavesClaims(c, cur, page.backfill, w, tick);
    var k :| Orderly(page.keyed, k);
    OrderlyHasNoError(page.keyed, k);
    var (c2, a) := ApplyBackfill(c, cur, page.backfill, w, tick);
    hide ApplyBackfill;
    n, reached := 0, c2.cursor.value.after;
    if !a.failed {
      var c3 := c2.(cursor := Some(Cursor(log.epoch, page.nextRelaySeq)));
      n := TornKeyed(log, c, c3, page, w, a.tick);
      reached := page.nextRelaySeq;
    }
  }

  /** A part of channel A from the front is as closed as the whole. */
  lemma KeyedClosedPrefix(log: Log, claims: Claims, keyed: seq<SignedOp>, n: nat)
    requires KeyedClosed(log, claims, keyed) && n <= |keyed|
    ensures KeyedClosed(log, claims, keyed[..n])
  {
    hide Covers;
    hide Precedes;
    var part := keyed[..n];
    forall op | op in part
      ensures op in log.ops && !Covers(claims, op.Key())
    {
      assert op in keyed;
    }
    forall j, op | 0 <= j < |part| && op in log.ops && Precedes(claims, op, part[j])
      ensures op in part[..j + 1]
    {
      PartOfPart(keyed, n, j + 1);
    }
  }

  lemma PartOfPart(keyed: seq<SignedOp>, n: nat, j: nat)
    requires j <= n <= |keyed|
    ensures keyed[..n][..j] == keyed[..j]
  {
  }

  /** An uncovered arrival that channel A has seen, no higher than an op it served, was
      served. */
  lemma SeenIsServed(log: Log, readAt: Reads, claims: Claims, keyed: seq<SignedOp>, i: nat)
    requires log.Valid() && KeyedClosed(SeenLog(log, readAt), claims, keyed)
    requires i < |log.arrivals| && i < readAt(log.arrivals[i].device)
    requires !Covers(claims, log.arrivals[i].Key()) && ServedAbove(keyed, log.arrivals[i])
    ensures log.arrivals[i].id in FirstIds(keyed, |keyed|)
  {
    hide Covers;
    SeenLogIsValid(log, readAt);
    hide SeenLog;
    var op := log.arrivals[i];
    assert SeenAt(log.arrivals, readAt, op, i);
    assert op in SeenLog(log, readAt).ops;
    var k :| k in keyed && k.device == op.device && AtMost(op.Key(), k.Key());
    var j :| 0 <= j < |keyed| && keyed[j] == k;
    assert Precedes(claims, op, keyed[j]);
    assert op in keyed[..j + 1];
    var m :| 0 <= m < j + 1 && keyed[m] == op;
    assert keyed[m].id in FirstIds(keyed, |keyed|);
  }

  /** What channel A served had arrived when its origin was read. */
  lemma ServedWasSeen(log: Log, readAt: Reads, claims: Claims, keyed: seq<SignedOp>, i: nat)
    requires log.Valid() && KeyedClosed(SeenLog(log, readAt), claims, keyed)
    requires i < |log.arrivals| && readAt(log.arrivals[i].device) <= i
    ensures log.arrivals[i].id !in FirstIds(keyed, |keyed|)
  {
    hide Covers;
    hide Ascending;
    SeenLogIsValid(log, readAt);
    hide SeenLog;
    forall k | 0 <= k < |keyed|
      ensures keyed[k].id != log.arrivals[i].id
    {
      assert keyed[k] in keyed;
      assert keyed[k] in SeenLog(log, readAt).ops;
      var j :| SeenAt(log.arrivals, readAt, keyed[k], j);
    }
  }

  /** What channel B carried was covered, so it is no uncovered arrival. */
  lemma BackfillIsCovered(log: Log, claims: Claims, lo: nat, hi: nat, i: nat)
    requires DistinctIds(log.arrivals) && lo <= hi <= |log.arrivals|
    requires i < |log.arrivals| && !Covers(claims, log.arrivals[i].Key())
    ensures var entries := CoveredBetween(log.arrivals, claims, lo, hi);
            log.arrivals[i].id !in FirstIds(OpsOf(entries), |entries|)
  {
    hide Covers;
    hide CoveredBetween;
    var entries := CoveredBetween(log.arrivals, claims, lo, hi);
    CoveredBetweenInOrder(log.arrivals, claims, lo, hi);
    forall k | 0 <= k < |entries|
      ensures OpsOf(entries)[k].id != log.arrivals[i].id
    {
      assert IsArrival(log.arrivals, claims, entries[k]);
    }
  }

  lemma TornPageAccounts(log: Log, readAt: Reads, c: Client, c': Client, page: PullPage, n: nat, reached: nat, i: nat)
    requires log.Valid() && Safe(log, c) && i < |log.arrivals|
    requires TornPage(log, readAt, c.claims, Position(c.cursor, log.epoch), page) && TornResult(log, c, c', page, n, reached)
    ensures Accounted(c', log.epoch, log.arrivals[i], i + 1) <==> !Undercut(log, readAt, c, page.keyed[..n], reached, i)
  {
    hide CoveredBetween;
    hide Orderly;
    hide ServedAbove;
    hide SeenLog;
    var op, part := log.arrivals[i], page.keyed[..n];
    assert Accounted(c, log.epoch, op, i + 1);
    KeyedClosedPrefix(SeenLog(log, readAt), c.claims, page.keyed, n);
    hide KeyedClosed;
    assert FirstIds(part, n) == FirstIds(page.keyed, n);
    hide FirstIds;
    if !Covers(c.claims, op.Key()) {
      CoveredExactly(c.claims, c'.claims, part, op);
    }
    if Undercut(log, readAt, c, part, reached, i) {
      ServedWasSeen(log, readAt, c.claims, part, i);
      BackfillIsCovered(log, c.claims, Position(c.cursor, log.epoch), page.nextRelaySeq, i);
    } else if i < reached && op.id !in c.held && !Covers(c.claims, op.Key()) && i < readAt(op.device) && ServedAbove(part, op) {
      SeenIsServed(log, readAt, c.claims, part, i);
    }
  }

  /** However much of a torn page is admitted, every op stays accounted for if and only if no
      op undercuts what was admitted from channel A. A page that goes through is admitted
      whole. */
  lemma TornPageSafeExactly(log: Log, readAt: Reads, c: Client, page: PullPage, w: World, tick: nat) returns (n: nat, reached: nat)
    requires log.Valid() && Safe(log, c)
    requires c.cursor.None? || c.cursor.value.epoch == log.epoch
    requires TornPage(log, readAt, c.claims, Position(c.cursor, log.epoch), page)
    ensures var r := ApplyPage(c, page, w, tick);
            && n <= |page.keyed| && RaisedBy(c.claims, r.c.claims, page.keyed[..n]) && r.c.cursor == Some(Cursor(log.epoch, reached))
            && (r.error.None? ==> n == |page.keyed| && reached == page.nextRelaySeq)
            && (Safe(log, r.c) <==> forall i: nat :: !Undercut(log, readAt, c, page.keyed[..n], reached, i))
  {
    n, reached := TornEffect(log, readAt, c, page, w, tick);
    var c' := ApplyPage(c, page, w, tick).c;
    hide ApplyPage;
    hide TornPage;
    hide RaisedBy;
    hide Accounted;
    forall i: nat | i < |log.arrivals|
      ensures Accounted(c', log.epoch, log.arrivals[i], i + 1) <==> !Undercut(log, readAt, c, page.keyed[..n], reached, i)
    {
      TornPageAccounts(log, readAt, c, c', page, n, reached, i);
    }
    assert forall i: nat :: Undercut(log, readAt, c, page.keyed[..n], reached, i) ==> i < |log.arrivals|;
  }

  // ------------------------------------------------------------------ going through

  /** A world in which every op passes its checks. */
  ghost predicate Agreeable(w: World) {
    (forall t, op :: w.accepts(t, op)) && forall t :: w.replays(t)
  }

  lemma {:induction false} AllAccepted(ops: seq<SignedOp>, w: World, tick: nat)
    requires Agreeable(w)
    ensures AcceptedCount(ops, w, tick) == |ops|
  {
    if ops != [] {
      AllAccepted(ops[1..], w, tick + 1);
    }
  }

  lemma {:induction false} RunsGoThrough(c: Client, runs: seq<Run>, w: World, tick: nat)
    requires Agreeable(w)
    ensures AdmitRuns(c, runs, w, tick).error.None?
    decreases |runs|
  {
    if runs != [] {
      AllAccepted(runs[0].ops, w, tick);
      hide AcceptedCount;
      var r := AdmitRun(c, runs[0], w, tick);
      RunsGoThrough(r.c, runs[1..], w, r.tick);
    }
  }

  /** No torn page is refused for its shape. */
  lemma TornPageGoesThrough(log: Log, readAt: Reads, c: Client, page: PullPage, w: World, tick: nat)
    requires c.cursor.None? || c.cursor.value.epoch == log.epoch
    requires TornPage(log, readAt, c.claims, Position(c.cursor, log.epoch), page) && Agreeable(w)
    ensures ApplyPage(c, page, w, tick).error.None?
  {
    hide Covers;
    hide CoveredBetween;
    hide KeyedClosed;
    hide SeenLog;
    hide Orderly;
    hide OrderError;
    hide SeqsAdvance;
    hide AdmitRuns;
    hide Runs;
    var pos := Position(c.cursor, log.epoch);
    CoveredBetweenInOrder(log.arrivals, c.claims, pos, page.nextRelaySeq);
    InOrderAdvances(log.arrivals, c.claims, page.backfill, pos, page.nextRelaySeq);
    hide InOrder;
    AllAccepted(OpsOf(page.backfill), w, tick);
    hide AcceptedCount;
    var n :| Orderly(page.keyed, n);
    OrderlyHasNoError(page.keyed, n);
    var (c2, a) := ApplyBackfill(c, Cursor(log.epoch, pos), page.backfill, w, tick);
    assert !a.failed by { FirstIdsNone(OpsOf(page.backfill)); }
    hide ApplyBackfill;
    RunsGoThrough(c2.(cursor := Some(Cursor(log.epoch, MaxNat(c2.cursor.value.after, page.nextRelaySeq)))), Runs(page.keyed), w, a.tick);
  }

  // ------------------------------------------------------------------ an example

  function OpOf(id: nat, d: DeviceId): SignedOp {
    SignedOp(id, id, d, "s", [], 1)
  }

  /** Device 1's op of hlc 2, an op of device 2, then device 1's op of hlc 1. */
  function ThreeArrivals(): Log {
    Log(1, [OpOf(1, 1), OpOf(2, 1), OpOf(3, 2)], [OpOf(2, 1), OpOf(3, 2), OpOf(1, 1)])
  }

  /** Device 1 was read before the last of them arrived, device 2 after. */
  ghost function TwoReads(): Reads {
    d => if d == 1 then 2 else if d == 2 then 3 else 0
  }

  lemma ThreeArrivalsIsValid()
    ensures ThreeArrivals().Valid()
  {
  }

  lemma TwoAreSeen()
    ensures Seen(ThreeArrivals().arrivals, TwoReads()) == ThreeArrivals().arrivals[..2]
  {
    var y, z, x, readAt := OpOf(2, 1), OpOf(3, 2), OpOf(1, 1), TwoReads();
    assert [y, z, x][..2] == [y, z] && [y, z][..1] == [y] && [y][..0] == [];
    assert Seen([], readAt) == [];
    assert Seen([y], readAt) == [] + [y] == [y];
    assert Seen([y, z], readAt) == [y] + [z] == [y, z];
  }

  lemma TwoBuilt()
    ensures Built(1, ThreeArrivals().arrivals[..2]) == Log(1, [OpOf(2, 1), OpOf(3, 2)], [OpOf(2, 1), OpOf(3, 2)])
  {
    var y, z := OpOf(2, 1), OpOf(3, 2);
    assert ThreeArrivals().arrivals[..2] == [y, z] && [y, z][..1] == [y] && [y][..0] == [];
    assert Built(1, []) == Log(1, [], []);
    assert Built(1, [y]) == Log(1, [y], [y]);
    assert Insert([y], z) == [y] + Insert([], z) == [y, z] by { assert [y][1..] == []; }
  }

  lemma TwoListed()
    ensures OriginList([OpOf(2, 1), OpOf(3, 2)]) == [1, 2]
  {
    var ops := [OpOf(2, 1), OpOf(3, 2)];
    assert ops[..1] == [ops[0]] && [ops[0]][..0] == [] && [1][1..] == [];
    assert InsertDevice([], 1) == [1] && InsertDevice([1], 2) == [1] + InsertDevice([], 2) == [1, 2];
    assert OriginList([ops[0]]) == [1];
  }

  lemma TwoPlanned()
    ensures Plan([1, 2], 1, map[], false, None) == [Segment(1, None), Segment(2, None)]
  {
    var none: Option<Resume> := None;
    assert [1, 2][1..] == [2] && [2][1..] == [];
    assert Segments([], Some(1), map[], false, none) == [];
    assert Segments([2], Some(1), map[], false, none) == [Segment(2, None)];
  }

  lemma TwoOrdered()
    ensures Ordered(ThreeArrivals(), 2, TwoReads())
  {
    TwoBuilt();
    TwoListed();
    hide Built;
    hide OriginList;
  }

  /** A segment of one small row fits. */
  lemma OneRowFits(shelf: Shelf, s: Segment, room: Room, op: SignedOp)
    requires OriginRows(shelf.ops, s.origin, s.after, shelf.store) == [op] && op.wireLen == 1
    requires room.remaining > 1 && room.bytes + 1 < shelf.budget
    ensures ServedRows(shelf, s, room) == [op] && !CutIn(shelf, s, room) && RoomAfter(shelf, s, room) == Room(room.remaining - 1, room.bytes + 1)
  {
    hide OriginRows;
    assert [op][1..] == [] && [op][..1] == [op] && [op][..0] == [];
    assert Bytes([op]) == 1;
  }

  lemma TwoRows()
    ensures OriginRows([OpOf(2, 1), OpOf(3, 2)], 1, None, None) == [OpOf(2, 1)]
    ensures OriginRows([OpOf(2, 1), OpOf(3, 2)], 2, None, None) == [OpOf(3, 2)]
  {
    var y, z := OpOf(2, 1), OpOf(3, 2);
    assert [y, z][..1] == [y] && [y][..0] == [];
    assert OriginRows([y], 1, None, None) == [y] && OriginRows([y], 2, None, None) == [];
  }

  lemma TwoServed()
    ensures Serve(Shelf([OpOf(2, 1), OpOf(3, 2)], None, PAGE_BYTE_BUDGET), [Segment(1, None), Segment(2, None)], Room(PAGE_LIMIT_MAX, 0))
         == Channel([OpOf(2, 1), OpOf(3, 2)], None)
  {
    hide OriginRows;
    hide ServedRows;
    hide CutIn;
    hide RoomAfter;
    TwoRows();
    var y, z, s, t := OpOf(2, 1), OpOf(3, 2), Segment(1, None), Segment(2, None);
    var shelf := Shelf([y, z], None, PAGE_BYTE_BUDGET);
    OneRowFits(shelf, s, Room(PAGE_LIMIT_MAX, 0), y);
    OneRowFits(shelf, t, Room(PAGE_LIMIT_MAX - 1, 1), z);
    assert [t][1..] == [] && [s, t][1..] == [t];
    assert Serve(shelf, [t], Room(PAGE_LIMIT_MAX - 1, 1)) == Channel([z] + [], None);
    assert Serve(shelf, [s, t], Room(PAGE_LIMIT_MAX, 0)) == Channel([y] + [z], None);
  }

  lemma ChannelOfThree()
    ensures Ordered(ThreeArrivals(), 2, TwoReads())
    ensures ChannelAcross(ThreeArrivals(), 2, TwoReads(), 1, map[], None, PAGE_LIMIT_MAX) == Channel([OpOf(2, 1), OpOf(3, 2)], None)
  {
    hide Ordered;
    hide Plan;
    hide OriginList;
    hide ChannelAcross;
    hide Built;
    hide Seen;
    hide Serve;
    hide Ascending;
    hide DistinctIds;
    ThreeArrivalsIsValid();
    TwoOrdered();
    TwoAreSeen();
    TwoBuilt();
    TwoListed();
    TwoPlanned();
    TwoServed();
    ChannelAcrossIsChannel(ThreeArrivals(), 2, TwoReads(), 1, map[], None, PAGE_LIMIT_MAX);
  }

  /** The whole page: complete, with the last arrival scanned past. */
  lemma TornPageOfThree()
    ensures Ordered(ThreeArrivals(), 2, TwoReads())
    ensures var page := PageAcross(ThreeArrivals(), 2, TwoReads(), 1, map[], None, 0, PAGE_LIMIT_MAX);
            page.keyed == [OpOf(2, 1), OpOf(3, 2)] && page.nextRelaySeq == 3 && page.complete
  {
    hide ChannelAcross;
    hide Ordered;
    ChannelOfThree();
    var log, keyed, claims: Claims := ThreeArrivals(), [OpOf(2, 1), OpOf(3, 2)], map[];
    ScanExact(log.arrivals, claims, 0, PAGE_LIMIT_MAX - 2, Bytes(keyed), false);
    RelayRowsShape(log.arrivals, 0, PAGE_LIMIT_MAX - 2);
    hide Scan;
    hide RelayRows;
    NothingClaimed(log.arrivals, 0, Scan(RelayRows(log.arrivals, 0, PAGE_LIMIT_MAX - 2), claims, 0, Bytes(keyed), false).next);
  }

  lemma {:induction false} NothingClaimed(arrivals: seq<SignedOp>, lo: nat, hi: nat)
    requires lo <= hi <= |arrivals|
    ensures CoveredBetween(arrivals, map[], lo, hi) == []
    decreases hi - lo
  {
    if lo < hi {
      NothingClaimed(arrivals, lo + 1, hi);
    }
  }

  /** Nothing arrives between the two channels, only between the reads of two origins on
      channel A. The page is complete and goes through, and device 1's late op is lost:
      not held, below the claim, and behind the cursor. */
  lemma TornPageLosesOp(w: World, tick: nat)
    requires Agreeable(w)
    ensures ThreeArrivals().Valid() && Ordered(ThreeArrivals(), 2, TwoReads()) && TwoReads()(2) == ThreeArrivals().Head()
    ensures var c, page := Client({}, map[], None), PageAcross(ThreeArrivals(), 2, TwoReads(), 1, map[], None, 0, PAGE_LIMIT_MAX);
            page.complete && ApplyPage(c, page, w, tick).error.None? && !Safe(ThreeArrivals(), ApplyPage(c, page, w, tick).c)
  {
    ThreeArrivalsIsValid();
    TornPageOfThree();
    hide PageAcross;
    hide Ordered;
    hide TornPage;
    hide ApplyPage;
    hide Safe;
    hide Agreeable;
    hide Ascending;
    hide DistinctIds;
    var log, c := ThreeArrivals(), Client({}, map[], None);
    var page := PageAcross(log, 2, TwoReads(), 1, map[], None, 0, PAGE_LIMIT_MAX);
    assert page.keyed[0] in page.keyed;
    assert ServedAbove(page.keyed, OpOf(1, 1));
    assert page.keyed[..|page.keyed|] == page.keyed;
    assert Undercut(log, TwoReads(), c, page.keyed[..|page.keyed|], page.nextRelaySeq, 2);
    hide Undercut;
    PageAcrossIsTorn(log, 2, TwoReads(), 1, map[], None, 0, PAGE_LIMIT_MAX);
    TornPageGoesThrough(log, TwoReads(), c, page, w, tick);
    SafeAtStart(log, c);
    var n, reached := TornPageSafeExactly(log, TwoReads(), c, page, w, tick);
  }
}
