/** What a page guarantees, whatever the log and the claims: bounds on every page,
    closure of the keyed channel under smaller keys, and exactness of a page that
    was neither resumed nor cut. */
module PullPages {
  import opened OrderKeys
  import opened Logs
  import opened PullServer

  // ------------------------------------------------------------ keyed channel

  predicate DistinctOrigins(plan: seq<Segment>) {
    forall i, j | 0 <= i < j < |plan| :: plan[i].origin != plan[j].origin
  }

  predicate AscendingPlan(plan: seq<Segment>) {
    forall i, j | 0 <= i < j < |plan| :: plan[i].origin < plan[j].origin
  }

  lemma ServedRowsPrefix(shelf: Shelf, s: Segment, room: Room)
    ensures ServedRows(shelf, s, room) <= OriginRows(shelf.ops, s.origin, s.after, shelf.store)
    ensures forall op | op in ServedRows(shelf, s, room) :: op in shelf.ops && Wanted(op, s.origin, s.after, shelf.store)
    ensures !CutIn(shelf, s, room) ==> ServedRows(shelf, s, room) == OriginRows(shelf.ops, s.origin, s.after, shelf.store)
  {
    OriginRowsExact(shelf.ops, s.origin, s.after, shelf.store);
    var served := ServedRows(shelf, s, room);
    forall op | op in served
      ensures op in OriginRows(shelf.ops, s.origin, s.after, shelf.store)
    {
      var i :| 0 <= i < |served| && served[i] == op;
    }
  }

  /** One segment uses at most the room it is given, passes the byte budget only with
      its last row, and a cut leaves at least one row on the page. */
  lemma ServedRowsBounds(shelf: Shelf, s: Segment, room: Room)
    requires room.remaining > 0 && room.bytes < shelf.budget
    ensures var served, next := ServedRows(shelf, s, room), RoomAfter(shelf, s, room);
            && |served| + next.remaining == room.remaining
            && room.bytes + Bytes(served) == next.bytes
            && WithinBudget(room.bytes, served, shelf.budget)
            && (CutIn(shelf, s, room) ==> served != [])
            && (!CutIn(shelf, s, room) ==> next.remaining > 0 && next.bytes < shelf.budget)
  {
    var rows, served := SegmentRows(shelf, s, room.remaining), ServedRows(shelf, s, room);
    ServedBudget(rows, room.bytes, shelf.budget);
    assert served != [] ==> served[..|served| - 1] == rows[..|served| - 1];
  }

  /** Entries that pass the budget, on top of `bytes`, with the last one at most. */
  predicate WithinBudget(bytes: nat, ops: seq<SignedOp>, budget: nat) {
    ops != [] ==> bytes + Bytes(ops[..|ops| - 1]) < budget
  }

  lemma NothingIsWithin(budget: nat)
    ensures WithinBudget(0, [], budget)
  {
  }

  lemma WholeIsWithin(bytes: nat, ops: seq<SignedOp>, budget: nat)
    requires bytes + Bytes(ops) < budget
    ensures WithinBudget(bytes, ops, budget)
  {
  }

  lemma OneIsWithin(bytes: nat, op: SignedOp, budget: nat)
    requires bytes < budget
    ensures WithinBudget(bytes, [op], budget) && Bytes([op]) == op.wireLen
  {
    assert [op][..0] == [];
  }

  lemma ConcatIsWithin(bytes: nat, a: seq<SignedOp>, b: seq<SignedOp>, budget: nat)
    requires WithinBudget(bytes, a, budget) && WithinBudget(bytes + Bytes(a), b, budget)
    ensures WithinBudget(bytes, a + b, budget)
  {
    if b == [] {
      hide WithinBudget;
      assert a + b == a;
    } else {
      EndsWithin(bytes, a, b, budget);
    }
  }

  lemma EndsWithin(bytes: nat, a: seq<SignedOp>, b: seq<SignedOp>, budget: nat)
    requires b != [] && bytes + Bytes(a) + Bytes(b[..|b| - 1]) < budget
    ensures WithinBudget(bytes, a + b, budget)
  {
    BytesOfInit(a, b);
  }

  lemma BytesOfInit(a: seq<SignedOp>, b: seq<SignedOp>)
    requires b != []
    ensures Bytes((a + b)[..|a + b| - 1]) == Bytes(a) + Bytes(b[..|b| - 1])
  {
    BytesConcat(a, b[..|b| - 1]);
    assert (a + b)[..|a + b| - 1] == a + b[..|b| - 1];
  }

  /** A channel that keeps to its count, passes the byte budget only with its last entry,
      and is cut only right after an entry, which the token names. */
  ghost predicate Bounded(room: Room, budget: nat, ch: Channel) {
    && |ch.keyed| <= room.remaining
    && WithinBudget(room.bytes, ch.keyed, budget)
    && (ch.cut.None? ==> |ch.keyed| < room.remaining && room.bytes + Bytes(ch.keyed) < budget)
    && (ch.cut.Some? ==>
          && ch.keyed != []
          && var last := ch.keyed[|ch.keyed| - 1];
             ch.cut.value == Keyed(Some(last.device), Some(last.Key())))
  }

  lemma BoundedConcat(room: Room, budget: nat, served: seq<SignedOp>, next: Room, rest: Channel)
    requires |served| + next.remaining == room.remaining && room.bytes + Bytes(served) == next.bytes
    requires WithinBudget(room.bytes, served, budget) && Bounded(next, budget, rest)
    ensures Bounded(room, budget, Then(served, rest))
  {
    hide Bytes;
    hide WithinBudget;
    BytesConcat(served, rest.keyed);
    ConcatIsWithin(room.bytes, served, rest.keyed, budget);
  }

  /** So is channel A, for any plan. */
  lemma {:induction false} ServeBounds(shelf: Shelf, plan: seq<Segment>, room: Room)
    requires room.remaining > 0 && room.bytes < shelf.budget
    ensures Bounded(room, shelf.budget, Serve(shelf, plan, room))
  {
    hide ServedRows;
    hide CutIn;
    hide RoomAfter;
    hide WithinBudget;
    if plan == [] {
      WholeIsWithin(room.bytes, [], shelf.budget);
    } else {
      hide Bytes;
      var s := plan[0];
      var served, next := ServedRows(shelf, s, room), RoomAfter(shelf, s, room);
      ServedRowsBounds(shelf, s, room);
      if CutIn(shelf, s, room) {
        ServedRowsPrefix(shelf, s, room);
        assert served[|served| - 1] in served;
      } else {
        hide Bounded;
        ServeBounds(shelf, plan[1..], next);
        BoundedConcat(room, shelf.budget, served, next, Serve(shelf, plan[1..], next));
      }
    }
  }

  /** Everything served is an op some segment asked for. */
  lemma {:induction false} ServeMember(shelf: Shelf, plan: seq<Segment>, room: Room, j: nat) returns (i: nat)
    requires j < |Serve(shelf, plan, room).keyed|
    ensures i < |plan|
    ensures var op := Serve(shelf, plan, room).keyed[j];
            op in shelf.ops && Wanted(op, plan[i].origin, plan[i].after, shelf.store)
  {
    hide ServedRows;
    hide CutIn;
    hide RoomAfter;
    hide Wanted;
    var s := plan[0];
    var served := ServedRows(shelf, s, room);
    ServedRowsPrefix(shelf, s, room);
    if j < |served| {
      assert served[j] in served;
      i := 0;
    } else {
      i := ServeMember(shelf, plan[1..], RoomAfter(shelf, s, room), j - |served|);
      i := i + 1;
    }
  }

  /** An uncut channel serves all its segments in full. */
  lemma {:induction false} ServeComplete(shelf: Shelf, plan: seq<Segment>, room: Room, i: nat, op: SignedOp)
    requires Serve(shelf, plan, room).cut.None?
    requires i < |plan| && op in shelf.ops && Wanted(op, plan[i].origin, plan[i].after, shelf.store)
    ensures op in Serve(shelf, plan, room).keyed
  {
    var s := plan[0];
    ServedRowsPrefix(shelf, s, room);
    if i == 0 {
      OriginRowsExact(shelf.ops, s.origin, s.after, shelf.store);
    } else {
      ServeComplete(shelf, plan[1..], RoomAfter(shelf, s, room), i - 1, op);
    }
  }

  /** One segment serves its rows in order. */
  lemma ServedRowsClosed(shelf: Shelf, s: Segment, room: Room, j: nat, op: SignedOp) returns (at: nat)
    requires Ascending(shelf.ops) && j < |ServedRows(shelf, s, room)|
    requires op in shelf.ops && Wanted(op, s.origin, s.after, shelf.store) && AtMost(op.Key(), ServedRows(shelf, s, room)[j].Key())
    ensures at <= j && ServedRows(shelf, s, room)[at] == op
  {
    ServedRowsPrefix(shelf, s, room);
    hide ServedRows;
    var rows := OriginRows(shelf.ops, s.origin, s.after, shelf.store);
    OriginRowsExact(shelf.ops, s.origin, s.after, shelf.store);
    OriginRowsAscend(shelf.ops, s.origin, s.after, shelf.store);
    hide OriginRows;
    at :| 0 <= at < |rows| && rows[at] == op;
  }

  /** Whatever is served of an origin, everything of it that the segment asked for
      and that sorts at or below is served no later. */
  lemma {:induction false} ServeClosed(shelf: Shelf, plan: seq<Segment>, room: Room, j: nat, i: nat, op: SignedOp)
    requires Ascending(shelf.ops) && DistinctOrigins(plan)
    requires j < |Serve(shelf, plan, room).keyed|
    requires i < |plan| && op in shelf.ops && Wanted(op, plan[i].origin, plan[i].after, shelf.store)
    requires Serve(shelf, plan, room).keyed[j].device == op.device
    requires AtMost(op.Key(), Serve(shelf, plan, room).keyed[j].Key())
    ensures op in Serve(shelf, plan, room).keyed[..j + 1]
  {
    hide ServedRows;
    hide CutIn;
    hide RoomAfter;
    hide OriginRows;
    hide Ascending;
    var s := plan[0];
    var served := ServedRows(shelf, s, room);
    var keyed := Serve(shelf, plan, room).keyed;
    ServedRowsPrefix(shelf, s, room);
    if j < |served| {
      assert served[j] in served;
      assert i == 0;
      var at := ServedRowsClosed(shelf, s, room, j, op);
      assert keyed[..j + 1][at] == op;
    } else {
      var rest := Serve(shelf, plan[1..], RoomAfter(shelf, s, room));
      var at := ServeMember(shelf, plan[1..], RoomAfter(shelf, s, room), j - |served|);
      assert plan[1..][at].origin == op.device;
      assert plan[0].origin != plan[at + 1].origin;
      assert i > 0;
      ServeClosed(shelf, plan[1..], RoomAfter(shelf, s, room), j - |served|, i - 1, op);
      var k :| 0 <= k < j - |served| + 1 && rest.keyed[k] == op;
      assert keyed[..j + 1][|served| + k] == op;
    }
  }

  /** Origins in plan order, keys ascending within each. */
  predicate SortedByOrigin(keyed: seq<SignedOp>) {
    forall i, j | 0 <= i < j < |keyed| ::
      keyed[i].device < keyed[j].device || (keyed[i].device == keyed[j].device && Less(keyed[i].Key(), keyed[j].Key()))
  }

  lemma {:induction false} ServeSorted(shelf: Shelf, plan: seq<Segment>, room: Room)
    requires Ascending(shelf.ops) && AscendingPlan(plan)
    ensures SortedByOrigin(Serve(shelf, plan, room).keyed)
  {
    hide ServedRows;
    hide CutIn;
    hide RoomAfter;
    if plan != [] {
      var s := plan[0];
      var served := ServedRows(shelf, s, room);
      ServedRowsPrefix(shelf, s, room);
      OriginRowsAscend(shelf.ops, s.origin, s.after, shelf.store);
      assert forall i | 0 <= i < |served| :: served[i] in served;
      if !CutIn(shelf, s, room) {
        var rest := Serve(shelf, plan[1..], RoomAfter(shelf, s, room));
        ServeSorted(shelf, plan[1..], RoomAfter(shelf, s, room));
        forall j | 0 <= j < |rest.keyed|
          ensures s.origin < rest.keyed[j].device
        {
          var at := ServeMember(shelf, plan[1..], RoomAfter(shelf, s, room), j);
          assert plan[1..][at] == plan[at + 1];
        }
      }
    }
  }

  // -------------------------------------------------------------------- plans

  /** A resume token the puller's own state has caught up with. A drain only ever
      presents such tokens: it returns them after applying the page they came on. */
  predicate Coherent(resume: Option<Resume>, claims: Claims, after: nat) {
    match resume
    case None => true
    case Some(Backfill(s)) => s == after
    case Some(Keyed(origin, key)) =>
      origin.Some? && key.Some? && key.value.device == origin.value && Covers(claims, key.value)
  }

  lemma {:induction false} SegmentsFrom(origins: seq<DeviceId>, fronted: Option<DeviceId>, claims: Claims, resume: Option<Resume>)
    requires AscendingIds(origins)
    ensures var plan := Segments(origins, fronted, claims, false, resume);
            && AscendingPlan(plan)
            && forall i | 0 <= i < |plan| ::
                 && plan[i] == SegmentOf(plan[i].origin, claims, false, resume)
                 && plan[i].origin in origins && fronted != Some(plan[i].origin)
  {
    hide SegmentOf;
    if origins != [] {
      SegmentsFrom(origins[1..], fronted, claims, resume);
      SegmentOfOrigin(origins[0], claims, resume);
    }
  }

  lemma SegmentOfOrigin(origin: DeviceId, claims: Claims, resume: Option<Resume>)
    ensures SegmentOf(origin, claims, false, resume).origin == origin
  {
  }

  lemma {:induction false} SegmentsReach(origins: seq<DeviceId>, fronted: Option<DeviceId>, claims: Claims, resume: Option<Resume>, d: DeviceId)
    returns (i: nat)
    requires d in origins && fronted != Some(d)
    ensures i < |Segments(origins, fronted, claims, false, resume)|
    ensures Segments(origins, fronted, claims, false, resume)[i].origin == d
  {
    hide SegmentOf;
    SegmentOfOrigin(origins[0], claims, resume);
    if d == origins[0] {
      i := 0;
    } else {
      i := SegmentsReach(origins[1..], fronted, claims, resume, d);
      i := if fronted == Some(origins[0]) then i else i + 1;
    }
  }

  lemma {:induction false} DropBelowSuffix(origins: seq<DeviceId>, origin: DeviceId)
    requires AscendingIds(origins)
    ensures AscendingIds(DropBelow(origins, origin))
    ensures forall d :: d in DropBelow(origins, origin) <==> d in origins && d >= origin
  {
    if origins != [] && origins[0] < origin {
      DropBelowSuffix(origins[1..], origin);
      assert origins == [origins[0]] + origins[1..];
    }
  }

  /** The plan of a coherent, non-audit request: distinct origins, each served above
      its claim, ascending after a possibly fronted first. */
  ghost predicate GoodPlan(plan: seq<Segment>, claims: Claims) {
    && DistinctOrigins(plan)
    && (forall i | 0 <= i < |plan| :: plan[i].after == Claim(claims, false, plan[i].origin))
    && (plan != [] ==> AscendingPlan(plan[1..]))
  }

  lemma SegmentsAreGood(plan: seq<Segment>, claims: Claims, resume: Option<Resume>, after: nat)
    requires AscendingPlan(plan) && Coherent(resume, claims, after)
    requires forall i | 0 <= i < |plan| :: plan[i] == SegmentOf(plan[i].origin, claims, false, resume)
    ensures GoodPlan(plan, claims)
  {
  }

  lemma FrontedIsGood(own: DeviceId, plan: seq<Segment>, claims: Claims)
    requires GoodPlan(plan, claims) && AscendingPlan(plan) && forall i | 0 <= i < |plan| :: plan[i].origin != own
    ensures GoodPlan([Segment(own, Claim(claims, false, own))] + plan, claims)
  {
  }

  lemma PlanIsGood(origins: seq<DeviceId>, own: DeviceId, claims: Claims, resume: Option<Resume>, after: nat)
    requires AscendingIds(origins)
    requires Coherent(resume, claims, after)
    ensures GoodPlan(Plan(origins, own, claims, false, resume), claims)
  {
    hide SegmentOf;
    hide Coherent;
    hide Claim;
    hide GoodPlan;
    hide Segments;
    if resume.None? && own in origins {
      SegmentsFrom(origins, Some(own), claims, resume);
      SegmentsAreGood(Segments(origins, Some(own), claims, false, resume), claims, resume, after);
      FrontedIsGood(own, Segments(origins, Some(own), claims, false, resume), claims);
    } else {
      var from := if ResumeOrigin(resume).Some? then DropBelow(origins, ResumeOrigin(resume).value) else origins;
      if ResumeOrigin(resume).Some? {
        DropBelowSuffix(origins, ResumeOrigin(resume).value);
      }
      SegmentsFrom(from, None, claims, resume);
      SegmentsAreGood(Segments(from, None, claims, false, resume), claims, resume, after);
    }
  }

  /** A fresh request's plan reaches every origin of the log. */
  lemma FreshPlanReaches(origins: seq<DeviceId>, own: DeviceId, claims: Claims, d: DeviceId) returns (i: nat)
    requires d in origins
    ensures i < |Plan(origins, own, claims, false, None)|
    ensures Plan(origins, own, claims, false, None)[i].origin == d
  {
    if own in origins && d == own {
      i := 0;
    } else if own in origins {
      i := SegmentsReach(origins, Some(own), claims, None, d);
      i := i + 1;
    } else {
      i := SegmentsReach(origins, None, claims, None, d);
    }
  }

  // -------------------------------------------------------- positional channel

  /** The covered arrivals numbered from `lo + 1` to `hi`, in arrival order. */
  function CoveredBetween(arrivals: seq<SignedOp>, claims: Claims, lo: nat, hi: nat): (r: seq<(nat, SignedOp)>)
    requires lo <= hi <= |arrivals|
    ensures |r| <= hi - lo
    decreases hi - lo
  {
    if lo == hi then []
    else if Covers(claims, arrivals[lo].Key()) then
      [(lo + 1, arrivals[lo])] + CoveredBetween(arrivals, claims, lo + 1, hi)
    else CoveredBetween(arrivals, claims, lo + 1, hi)
  }

  /** An entry of the positional channel: a covered arrival under its own number. */
  predicate IsArrival(arrivals: seq<SignedOp>, claims: Claims, e: (nat, SignedOp)) {
    0 < e.0 <= |arrivals| && e.1 == arrivals[e.0 - 1] && Covers(claims, e.1.Key())
  }

  /** Entries carry their own arrival, strictly ascending within the range. */
  predicate InOrder(arrivals: seq<SignedOp>, claims: Claims, r: seq<(nat, SignedOp)>, lo: nat, hi: nat) {
    && (forall i | 0 <= i < |r| :: lo < r[i].0 <= hi && IsArrival(arrivals, claims, r[i]))
    && (forall i, j | 0 <= i < j < |r| :: r[i].0 < r[j].0)
  }

  lemma {:induction false} CoveredBetweenInOrder(arrivals: seq<SignedOp>, claims: Claims, lo: nat, hi: nat)
    requires lo <= hi <= |arrivals|
    ensures InOrder(arrivals, claims, CoveredBetween(arrivals, claims, lo, hi), lo, hi)
    decreases hi - lo
  {
    if lo < hi {
      CoveredBetweenInOrder(arrivals, claims, lo + 1, hi);
      var rest := CoveredBetween(arrivals, claims, lo + 1, hi);
      if Covers(claims, arrivals[lo].Key()) {
        InOrderCons(arrivals, claims, rest, lo, hi);
      }
    }
  }

  lemma InOrderCons(arrivals: seq<SignedOp>, claims: Claims, rest: seq<(nat, SignedOp)>, lo: nat, hi: nat)
    requires lo < hi <= |arrivals| && InOrder(arrivals, claims, rest, lo + 1, hi)
    requires Covers(claims, arrivals[lo].Key())
    ensures InOrder(arrivals, claims, [(lo + 1, arrivals[lo])] + rest, lo, hi)
  {
  }

  /** No covered arrival in the range is left out. */
  lemma {:induction false} CoveredBetweenHas(arrivals: seq<SignedOp>, claims: Claims, lo: nat, hi: nat, s: nat)
    returns (i: nat)
    requires lo < s <= hi <= |arrivals| && Covers(claims, arrivals[s - 1].Key())
    ensures i < |CoveredBetween(arrivals, claims, lo, hi)|
    ensures CoveredBetween(arrivals, claims, lo, hi)[i] == (s, arrivals[s - 1])
    decreases hi - lo
  {
    hide Covers;
    if s == lo + 1 {
      i := 0;
    } else {
      i := CoveredBetweenHas(arrivals, claims, lo + 1, hi, s);
      i := if Covers(claims, arrivals[lo].Key()) then i + 1 else i;
    }
  }

  function OpsOf(entries: seq<(nat, SignedOp)>): seq<SignedOp> {
    seq(|entries|, i requires 0 <= i < |entries| => entries[i].1)
  }

  lemma RelayRowsStep(arrivals: seq<SignedOp>, start: nat, count: nat)
    requires start < |arrivals| && count > 0
    ensures RelayRows(arrivals, start, count) == [(start + 1, arrivals[start])] + RelayRows(arrivals, start + 1, count - 1)
  {
  }

  /** The scan stops at some position, has kept exactly the covered arrivals up to
      it, and stops early only when a kept arrival has met the byte budget. */
  lemma {:induction false} ScanExact(arrivals: seq<SignedOp>, claims: Claims, start: nat, count: nat, bytes: nat, cut: bool)
    requires start <= |arrivals|
    ensures var rows := RelayRows(arrivals, start, count);
            var r := Scan(rows, claims, start, bytes, cut);
            && start <= r.next <= start + |rows| <= |arrivals|
            && r.backfill == CoveredBetween(arrivals, claims, start, r.next)
            && (!r.byteCut ==> r.next == start + |rows|)
            && (cut ==> r.byteCut && r.backfill == [])
            && (r.byteCut && !cut ==> r.backfill != [])
    decreases count
  {
    hide Covers;
    hide RelayRows;
    RelayRowsShape(arrivals, start, count);
    if start < |arrivals| && count > 0 {
      RelayRowsStep(arrivals, start, count);
      var op := arrivals[start];
      var rest := RelayRows(arrivals, start + 1, count - 1);
      assert RelayRows(arrivals, start, count)[1..] == rest;
      if Covers(claims, op.Key()) {
        if !cut {
          var b := bytes + op.wireLen;
          ScanExact(arrivals, claims, start + 1, count - 1, b, b >= PAGE_BYTE_BUDGET);
        }
      } else {
        ScanExact(arrivals, claims, start + 1, count - 1, bytes, cut);
      }
    }
  }

  lemma RelayRowsShape(arrivals: seq<SignedOp>, start: nat, count: nat)
    ensures |RelayRows(arrivals, start, count)| == if start >= |arrivals| then 0 else if |arrivals| - start < count then |arrivals| - start else count
    ensures start >= |arrivals| || count == 0 ==> RelayRows(arrivals, start, count) == []
  {
  }

  /** Only the last kept arrival may reach the byte budget. */
  lemma {:induction false} ScanBytes(rows: seq<(nat, SignedOp)>, claims: Claims, next: nat, bytes: nat)
    requires bytes < PAGE_BYTE_BUDGET
    ensures var kept := OpsOf(Scan(rows, claims, next, bytes, false).backfill);
            WithinBudget(bytes, kept, PAGE_BYTE_BUDGET)
  {
    hide Covers;
    if rows != [] {
      var (s, op) := rows[0];
      if Covers(claims, op.Key()) {
        var b := bytes + op.wireLen;
        var rest := Scan(rows[1..], claims, s, b, b >= PAGE_BYTE_BUDGET).backfill;
        assert OpsOf([rows[0]] + rest) == [op] + OpsOf(rest);
        if b >= PAGE_BYTE_BUDGET {
          ScanCutKeepsNothing(rows[1..], claims, s, b);
        } else {
          ScanBytes(rows[1..], claims, s, b);
        }
        OneIsWithin(bytes, op, PAGE_BYTE_BUDGET);
        ConcatIsWithin(bytes, [op], OpsOf(rest), PAGE_BYTE_BUDGET);
      } else {
        ScanBytes(rows[1..], claims, s, bytes);
      }
    }
  }

  lemma {:induction false} ScanCutKeepsNothing(rows: seq<(nat, SignedOp)>, claims: Claims, next: nat, bytes: nat)
    ensures Scan(rows, claims, next, bytes, true).backfill == []
  {
    hide Covers;
    if rows != [] {
      ScanCutKeepsNothing(rows[1..], claims, rows[0].0, bytes);
    }
  }

  // -------------------------------------------------------------------- pages

  /** All entries of a page in the order their bytes are counted. */
  function Entries(page: PullPage): seq<SignedOp> {
    page.keyed + OpsOf(page.backfill)
  }

  /** What holds of every page for every request: at most `limit` entries, the byte
      budget passed by at most the last entry, `complete` exactly without a resume
      token, and a keyed token naming the last key just served. */
  ghost predicate BoundedPage(page: PullPage, limit: nat) {
    var all := Entries(page);
    && |all| <= limit
    && WithinBudget(0, all, PAGE_BYTE_BUDGET)
    && (!page.reset ==> (page.complete <==> page.resume.None?))
    && (page.resume.Some? && page.resume.value.Keyed? ==>
          && page.keyed != [] && page.backfill == []
          && var last := page.keyed[|page.keyed| - 1];
             page.resume.value == Keyed(Some(last.device), Some(last.Key())))
  }

  /** Two channels side by side stay within the page. */
  lemma BoundedTogether(page: PullPage, limit: nat)
    requires Bytes(page.keyed) < PAGE_BYTE_BUDGET && WithinBudget(Bytes(page.keyed), OpsOf(page.backfill), PAGE_BYTE_BUDGET)
    requires |page.keyed| + |page.backfill| <= limit && page.complete == page.resume.None?
    requires page.resume.Some? ==> page.resume.value.Backfill?
    ensures BoundedPage(page, limit)
  {
    hide Bytes;
    hide WithinBudget;
    WholeIsWithin(0, page.keyed, PAGE_BYTE_BUDGET);
    ConcatIsWithin(0, page.keyed, OpsOf(page.backfill), PAGE_BYTE_BUDGET);
  }

  lemma BackfillPageBounded(log: Log, claims: Claims, keyed: seq<SignedOp>, start: nat, budget: nat)
    requires budget > 0 && Bytes(keyed) < PAGE_BYTE_BUDGET
    ensures BoundedPage(BackfillPage(log, claims, keyed, start, budget), |keyed| + budget)
  {
    hide Scan;
    hide RelayRows;
    hide Bytes;
    hide WithinBudget;
    hide OpsOf;
    hide BoundedPage;
    var rows := RelayRows(log.arrivals, start, budget);
    RelayRowsShape(log.arrivals, start, budget);
    ScanBytes(rows, claims, start, Bytes(keyed));
    ScanLength(rows, claims, start, Bytes(keyed), false);
    BoundedTogether(BackfillPage(log, claims, keyed, start, budget), |keyed| + budget);
  }

  lemma {:induction false} ScanLength(rows: seq<(nat, SignedOp)>, claims: Claims, next: nat, bytes: nat, cut: bool)
    ensures |Scan(rows, claims, next, bytes, cut).backfill| <= |rows|
  {
    hide Covers;
    if rows != [] {
      var (s, op) := rows[0];
      var b := bytes + op.wireLen;
      ScanLength(rows[1..], claims, s, bytes, cut);
      ScanLength(rows[1..], claims, s, b, b >= PAGE_BYTE_BUDGET);
    }
  }

  lemma KeyedChannelBounds(log: Log, own: DeviceId, claims: Claims, audit: bool, resume: Option<Resume>, store: Option<string>, count: nat)
    requires count > 0
    ensures var ch := KeyedChannel(log, own, claims, audit, resume, store, count, PAGE_BYTE_BUDGET);
            && |ch.keyed| <= count
            && WithinBudget(0, ch.keyed, PAGE_BYTE_BUDGET)
            && (ch.cut.None? ==> |ch.keyed| < count && Bytes(ch.keyed) < PAGE_BYTE_BUDGET)
            && (ch.cut.Some? ==>
                  && ch.keyed != []
                  && var last := ch.keyed[|ch.keyed| - 1];
                     ch.cut.value == Keyed(Some(last.device), Some(last.Key())))
  {
    hide Plan;
    ServeBounds(Shelf(log.ops, store, PAGE_BYTE_BUDGET), Plan(OriginList(log.ops), own, claims, audit, resume), Room(count, 0));
  }

  /** Every page, for every log and every request. */
  lemma PageIsBounded(log: Log, own: DeviceId, req: PullRequest)
    ensures BoundedPage(PageFor(log, own, req), Clamp(req.limit))
  {
    hide KeyedChannel;
    hide BackfillPage;
    hide PullNeedsReset;
    hide DecodeCoverage;
    hide Clamp;
    hide WithinBudget;
    var claims := DecodeCoverage(req.coverage);
    var limit := Clamp(req.limit);
    var page := PageFor(log, own, req);
    var resume := KeyedPart(req.resume);
    NothingIsWithin(PAGE_BYTE_BUDGET);
    if page == ResetPage(StateOf(log)) {
      assert Entries(page) == [];
    } else if req.store.Some? {
      KeyedChannelBounds(log, own, claims, req.audit, resume, req.store, limit);
      assert Entries(page) == page.keyed;
    } else if req.resume.Some? && req.resume.value.Backfill? {
      BackfillPageBounded(log, claims, [], req.resume.value.afterSeq, limit);
    } else {
      KeyedChannelBounds(log, own, claims, req.audit, resume, None, limit);
      var ch := KeyedChannel(log, own, claims, req.audit, resume, None, limit, PAGE_BYTE_BUDGET);
      if ch.cut.Some? {
        assert Entries(page) == page.keyed;
      } else {
        BackfillPageBounded(log, claims, ch.keyed, req.relayAfter, limit - |ch.keyed|);
      }
    }
  }

  // ------------------------------------------------- what a puller may rely on

  /** Claims are filed under the origin of the key they name. */
  predicate FiledClaims(claims: Claims) {
    forall d | d in claims :: claims[d].device == d
  }

  /** The keyed channel holds only uncovered ops of the log, and with any op of an
      origin every uncovered op of that origin that sorts no higher, no later. */
  ghost predicate KeyedClosed(log: Log, claims: Claims, keyed: seq<SignedOp>) {
    && (forall op | op in keyed :: op in log.ops && !Covers(claims, op.Key()))
    && (forall j, op | 0 <= j < |keyed| && op in log.ops :: Precedes(claims, op, keyed[j]) ==> op in keyed[..j + 1])
  }

  ghost predicate Precedes(claims: Claims, op: SignedOp, other: SignedOp) {
    op.device == other.device && !Covers(claims, op.Key()) && AtMost(op.Key(), other.Key())
  }

  /** The first `n` entries are one origin's, ascending; the others are sorted by
      origin and do not return to it. */
  predicate Orderly(keyed: seq<SignedOp>, n: nat) {
    && n <= |keyed|
    && Ascending(keyed[..n])
    && (forall i | 0 <= i < n :: keyed[i].device == keyed[0].device)
    && SortedByOrigin(keyed[n..])
    && (n > 0 ==> forall i | n <= i < |keyed| :: keyed[i].device != keyed[0].device)
  }

  /** One page from a snapshot, as the puller with these claims and this position
      sees it. `fresh'` is whether the request carried no resume token. */
  ghost predicate HonestPage(log: Log, claims: Claims, after: nat, fresh': bool, page: PullPage) {
    && !page.reset && page.epoch == log.epoch
    && KeyedClosed(log, claims, page.keyed)
    && (exists n :: Orderly(page.keyed, n))
    && after <= page.nextRelaySeq <= log.Head()
    && page.backfill == CoveredBetween(log.arrivals, claims, after, page.nextRelaySeq)
    && page.complete == page.resume.None?
    && match page.resume
       case None =>
         fresh' ==>
           && page.nextRelaySeq == log.Head()
           && ServesAll(log, claims, page.keyed)
       case Some(Backfill(s)) => s == page.nextRelaySeq && s > after
       case Some(Keyed(origin, key)) =>
         && page.nextRelaySeq == after
         && page.keyed != []
         && var last := page.keyed[|page.keyed| - 1];
            origin == Some(last.device) && key == Some(last.Key())
  }

  lemma WantedExactly(claims: Claims, store: Option<string>, op: SignedOp)
    ensures Wanted(op, op.device, Claim(claims, false, op.device), store) <==> !Covers(claims, op.Key()) && InStore(op, store)
  {
  }

  /** An entry of a good plan's channel is uncovered, and its origin is planned. */
  lemma ServeUncovered(log: Log, plan: seq<Segment>, claims: Claims, room: Room, budget: nat, j: nat) returns (i: nat)
    requires GoodPlan(plan, claims)
    requires j < |Serve(Shelf(log.ops, None, budget), plan, room).keyed|
    ensures var op := Serve(Shelf(log.ops, None, budget), plan, room).keyed[j];
            op in log.ops && !Covers(claims, op.Key()) && i < |plan| && plan[i].origin == op.device
  {
    hide Serve;
    i := ServeMember(Shelf(log.ops, None, budget), plan, room, j);
    WantedExactly(claims, None, Serve(Shelf(log.ops, None, budget), plan, room).keyed[j]);
  }

  lemma ServeIsClosed(log: Log, plan: seq<Segment>, claims: Claims, room: Room, budget: nat)
    requires log.Valid() && GoodPlan(plan, claims)
    ensures KeyedClosed(log, claims, Serve(Shelf(log.ops, None, budget), plan, room).keyed)
  {
    hide Serve;
    hide Covers;
    hide Wanted;
    hide AtMost;
    hide Claim;
    var shelf := Shelf(log.ops, None, budget);
    var keyed := Serve(shelf, plan, room).keyed;
    forall op | op in keyed
      ensures op in log.ops && !Covers(claims, op.Key())
    {
      var j :| 0 <= j < |keyed| && keyed[j] == op;
      var _ := ServeUncovered(log, plan, claims, room, budget, j);
    }
    forall j, op | 0 <= j < |keyed| && op in log.ops && Precedes(claims, op, keyed[j])
      ensures op in keyed[..j + 1]
    {
      var i := ServeUncovered(log, plan, claims, room, budget, j);
      WantedExactly(claims, None, op);
      ServeClosed(shelf, plan, room, j, i, op);
    }
  }

  lemma OrderlyConcat(a: seq<SignedOp>, b: seq<SignedOp>, d: DeviceId)
    requires Ascending(a) && (forall i | 0 <= i < |a| :: a[i].device == d)
    requires SortedByOrigin(b) && (forall i | 0 <= i < |b| :: b[i].device != d)
    ensures Orderly(a + b, |a|)
  {
  }

  lemma ServedRowsAscend(shelf: Shelf, s: Segment, room: Room)
    requires Ascending(shelf.ops)
    ensures Ascending(ServedRows(shelf, s, room))
    ensures forall i | 0 <= i < |ServedRows(shelf, s, room)| :: ServedRows(shelf, s, room)[i].device == s.origin
  {
    hide ServedRows;
    hide CutIn;
    ServedRowsPrefix(shelf, s, room);
    OriginRowsAscend(shelf.ops, s.origin, s.after, shelf.store);
    var served := ServedRows(shelf, s, room);
    assert forall i | 0 <= i < |served| :: served[i] in served;
  }

  lemma ServeIsOrderly(log: Log, plan: seq<Segment>, claims: Claims, room: Room, budget: nat) returns (n: nat)
    requires log.Valid() && GoodPlan(plan, claims)
    ensures Orderly(Serve(Shelf(log.ops, None, budget), plan, room).keyed, n)
  {
    hide ServedRows;
    hide CutIn;
    hide RoomAfter;
    hide Claim;
    hide Orderly;
    var shelf := Shelf(log.ops, None, budget);
    if plan == [] {
      OrderlyConcat([], [], 0);
      n := 0;
    } else {
      var s := plan[0];
      var served := ServedRows(shelf, s, room);
      n := |served|;
      ServedRowsAscend(shelf, s, room);
      if CutIn(shelf, s, room) {
        OrderlyConcat(served, [], s.origin);
        assert served + [] == served;
      } else {
        var rest := Serve(shelf, plan[1..], RoomAfter(shelf, s, room)).keyed;
        ServeSorted(shelf, plan[1..], RoomAfter(shelf, s, room));
        ServeAvoids(shelf, plan, RoomAfter(shelf, s, room));
        OrderlyConcat(served, rest, s.origin);
      }
    }
  }

  /** The rest of a plan serves nothing of its first origin. */
  lemma ServeAvoids(shelf: Shelf, plan: seq<Segment>, room: Room)
    requires plan != [] && DistinctOrigins(plan)
    ensures var rest := Serve(shelf, plan[1..], room).keyed;
            forall j | 0 <= j < |rest| :: rest[j].device != plan[0].origin
  {
    hide Serve;
    var rest := Serve(shelf, plan[1..], room).keyed;
    forall j | 0 <= j < |rest|
      ensures rest[j].device != plan[0].origin
    {
      var at := ServeMember(shelf, plan[1..], room, j);
      assert plan[1..][at] == plan[at + 1];
    }
  }

  /** A keyed channel a puller may rely on, complete when it answers a fresh request uncut. */
  ghost predicate HonestChannel(log: Log, claims: Claims, fresh': bool, ch: Channel) {
    && KeyedClosed(log, claims, ch.keyed)
    && (exists n :: Orderly(ch.keyed, n))
    && (ch.cut.None? && fresh' ==> ServesAll(log, claims, ch.keyed))
  }

  ghost predicate ServesAll(log: Log, claims: Claims, keyed: seq<SignedOp>) {
    forall op | op in log.ops && !Covers(claims, op.Key()) :: op in keyed
  }

  /** The keyed channel of a coherent request. */
  lemma KeyedChannelIsHonest(log: Log, own: DeviceId, claims: Claims, resume: Option<Resume>, after: nat, count: nat)
    requires log.Valid() && Coherent(resume, claims, after) && count > 0
    ensures HonestChannel(log, claims, resume.None?, KeyedChannel(log, own, claims, false, resume, None, count, PAGE_BYTE_BUDGET))
  {
    hide Serve;
    hide Plan;
    hide KeyedClosed;
    hide Orderly;
    hide Covers;
    hide Coherent;
    hide Wanted;
    var origins := OriginList(log.ops);
    var plan := Plan(origins, own, claims, false, resume);
    var shelf, room := Shelf(log.ops, None, PAGE_BYTE_BUDGET), Room(count, 0);
    OriginListExact(log.ops);
    PlanIsGood(origins, own, claims, resume, after);
    ServeIsClosed(log, plan, claims, room, PAGE_BYTE_BUDGET);
    var n := ServeIsOrderly(log, plan, claims, room, PAGE_BYTE_BUDGET);
    if Serve(shelf, plan, room).cut.None? && resume.None? {
      forall op | op in log.ops && !Covers(claims, op.Key())
        ensures op in Serve(shelf, plan, room).keyed
      {
        var i := FreshPlanReaches(origins, own, claims, op.device);
        WantedExactly(claims, None, op);
        ServeComplete(shelf, plan, room, i, op);
      }
    }
  }

  lemma BackfillPageIsHonest(log: Log, claims: Claims, keyed: seq<SignedOp>, start: nat, budget: nat)
    requires start <= log.Head() && budget > 0
    ensures var page := BackfillPage(log, claims, keyed, start, budget);
            && page.keyed == keyed && !page.reset && page.epoch == log.epoch && page.complete == page.resume.None?
            && start <= page.nextRelaySeq <= log.Head()
            && page.backfill == CoveredBetween(log.arrivals, claims, start, page.nextRelaySeq)
            && match page.resume
               case None => page.nextRelaySeq == log.Head()
               case Some(r) => r == Backfill(page.nextRelaySeq) && page.nextRelaySeq > start
  {
    hide Scan;
    hide RelayRows;
    var rows := RelayRows(log.arrivals, start, budget);
    RelayRowsShape(log.arrivals, start, budget);
    ScanExact(log.arrivals, claims, start, budget, Bytes(keyed), false);
  }

  lemma ValidCursorIsWithin(log: Log, req: PullRequest)
    requires (req.relayEpoch == 0 ==> req.relayAfter == 0) && !PullNeedsReset(req.relayEpoch, req.relayAfter, StateOf(log))
    ensures req.relayAfter <= log.Head()
  {
  }

  /** A page with both channels, or with the second alone. */
  lemma TwoChannels(log: Log, claims: Claims, fresh': bool, ch: Channel, start: nat, budget: nat)
    requires HonestChannel(log, claims, fresh', ch) && ch.cut.None? && start <= log.Head() && budget > 0
    ensures HonestPage(log, claims, start, fresh', BackfillPage(log, claims, ch.keyed, start, budget))
  {
    hide KeyedClosed;
    hide Orderly;
    hide CoveredBetween;
    hide BackfillPage;
    hide ServesAll;
    BackfillPageIsHonest(log, claims, ch.keyed, start, budget);
  }

  /** A page that was cut on the first channel. */
  lemma CutChannel(log: Log, claims: Claims, fresh': bool, ch: Channel, start: nat)
    requires HonestChannel(log, claims, fresh', ch) && start <= log.Head() && ch.keyed != []
    requires var last := ch.keyed[|ch.keyed| - 1]; ch.cut == Some(Keyed(Some(last.device), Some(last.Key())))
    ensures HonestPage(log, claims, start, fresh', DataPage(log, [], ch.keyed, start, ch.cut, None))
  {
    hide KeyedClosed;
    hide Orderly;
    hide ServesAll;
  }

  lemma KeyedPartIsCoherent(resume: Option<Resume>, claims: Claims, after: nat)
    requires Coherent(resume, claims, after)
    ensures Coherent(KeyedPart(resume), claims, after)
  {
  }

  /** The part of a page that needs channel A. */
  lemma FirstChannelIsHonest(log: Log, own: DeviceId, claims: Claims, resume: Option<Resume>, after: nat, limit: nat)
    requires log.Valid() && Coherent(resume, claims, after) && after <= log.Head() && limit > 0
    ensures var ch := KeyedChannel(log, own, claims, false, resume, None, limit, PAGE_BYTE_BUDGET);
            if ch.cut.Some? then HonestPage(log, claims, after, resume.None?, DataPage(log, [], ch.keyed, after, ch.cut, None))
            else |ch.keyed| < limit && HonestPage(log, claims, after, resume.None?, BackfillPage(log, claims, ch.keyed, after, limit - |ch.keyed|))
  {
    hide KeyedChannel;
    hide BackfillPage;
    hide HonestChannel;
    hide HonestPage;
    hide DataPage;
    hide Bytes;
    hide Coherent;
    hide Ascending;
    hide DistinctIds;
    var ch := KeyedChannel(log, own, claims, false, resume, None, limit, PAGE_BYTE_BUDGET);
    KeyedChannelBounds(log, own, claims, false, resume, None, limit);
    KeyedChannelIsHonest(log, own, claims, resume, after, limit);
    if ch.cut.Some? {
      CutChannel(log, claims, resume.None?, ch, after);
    } else {
      TwoChannels(log, claims, resume.None?, ch, after, limit - |ch.keyed|);
    }
  }

  /** Every page a server builds for a coherent, non-audit request that needs no
      reset is honest. */
  lemma PageIsHonest(log: Log, own: DeviceId, req: PullRequest)
    requires log.Valid() && !req.audit && req.store.None? && (req.relayEpoch == 0 ==> req.relayAfter == 0)
    requires Coherent(req.resume, DecodeCoverage(req.coverage), req.relayAfter)
    requires !PullNeedsReset(req.relayEpoch, req.relayAfter, StateOf(log))
    ensures HonestPage(log, DecodeCoverage(req.coverage), req.relayAfter, req.resume.None?, PageFor(log, own, req))
  {
    hide KeyedChannel;
    hide BackfillPage;
    hide HonestChannel;
    hide HonestPage;
    hide DecodeCoverage;
    hide DataPage;
    hide Ascending;
    hide DistinctIds;
    hide PullNeedsReset;
    ValidCursorIsWithin(log, req);
    var claims := DecodeCoverage(req.coverage);
    KeyedPartIsCoherent(req.resume, claims, req.relayAfter);
    if req.resume.Some? && req.resume.value.Backfill? {
      EmptyChannelIsHonest(log, claims);
      TwoChannels(log, claims, false, Channel([], None), req.relayAfter, Clamp(req.limit));
    } else {
      FirstChannelIsHonest(log, own, claims, KeyedPart(req.resume), req.relayAfter, Clamp(req.limit));
    }
  }

  /** An audit asks as if nothing were claimed. */
  lemma {:induction false} AuditIgnoresClaims(origins: seq<DeviceId>, fronted: Option<DeviceId>, claims: Claims, resume: Option<Resume>)
    ensures Segments(origins, fronted, claims, true, resume) == Segments(origins, fronted, map[], false, resume)
  {
    if origins != [] {
      AuditIgnoresClaims(origins[1..], fronted, claims, resume);
    }
  }

  lemma AuditPlan(origins: seq<DeviceId>, own: DeviceId, claims: Claims, audit: bool)
    ensures Plan(origins, own, claims, audit, None) == Plan(origins, own, if audit then map[] else claims, false, None)
  {
    hide Segments;
    if audit {
      AuditIgnoresClaims(origins, Some(own), claims, None);
      AuditIgnoresClaims(origins, None, claims, None);
    }
  }

  /** A channel that is neither resumed nor cut serves exactly the ops of the store asked for
      that are above the claims, or all of them in an audit. */
  lemma FreshChannelExact(log: Log, own: DeviceId, claims: Claims, audit: bool, store: Option<string>, count: nat, op: SignedOp)
    requires log.Valid() && count > 0
    requires KeyedChannel(log, own, claims, audit, None, store, count, PAGE_BYTE_BUDGET).cut.None?
    ensures op in KeyedChannel(log, own, claims, audit, None, store, count, PAGE_BYTE_BUDGET).keyed <==>
              op in log.ops && (store.Some? ==> op.store == store.value) && (audit || !Covers(claims, op.Key()))
  {
    hide Serve;
    hide Plan;
    hide Covers;
    var above := if audit then map[] else claims;
    var origins := OriginList(log.ops);
    var plan := Plan(origins, own, above, false, None);
    var shelf, room := Shelf(log.ops, store, PAGE_BYTE_BUDGET), Room(count, 0);
    AuditPlan(origins, own, claims, audit);
    OriginListExact(log.ops);
    PlanIsGood(origins, own, above, None, 0);
    WantedExactly(above, store, op);
    assert audit ==> !Covers(above, op.Key()) by { NothingIsCovered(op); }
    var keyed := Serve(shelf, plan, room).keyed;
    if op in log.ops && InStore(op, store) && !Covers(above, op.Key()) {
      var i := FreshPlanReaches(origins, own, above, op.device);
      ServeComplete(shelf, plan, room, i, op);
    }
    if op in keyed {
      var j :| 0 <= j < |keyed| && keyed[j] == op;
      var i := ServeMember(shelf, plan, room, j);
    }
  }

  lemma NothingIsCovered(op: SignedOp)
    ensures !Covers(map[], op.Key())
  {
  }

  /** A page that is neither resumed nor cut carries on channel A exactly the ops of the store
      asked for above the claims, all of them in an audit; on channel B exactly the covered
      arrivals past the cursor, and nothing when it is scoped to a store. */
  lemma CompletePageIsExact(log: Log, own: DeviceId, req: PullRequest)
    requires log.Valid() && req.resume.None? && PageFor(log, own, req).complete
    requires req.relayEpoch == 0 ==> req.relayAfter == 0
    ensures var page, claims := PageFor(log, own, req), DecodeCoverage(req.coverage);
            && (forall op :: op in page.keyed <==>
                  op in log.ops && (req.store.Some? ==> op.store == req.store.value) && (req.audit || !Covers(claims, op.Key())))
            && (forall s: nat, op :: (s, op) in page.backfill <==>
                  req.store.None? && req.relayAfter < s <= log.Head() && op == log.arrivals[s - 1] && Covers(claims, op.Key()))
            && page.nextRelaySeq == if req.store.None? then log.Head() else req.relayAfter
  {
    hide PageFor;
    hide KeyedChannel;
    hide Covers;
    hide DecodeCoverage;
    hide BackfillPage;
    var page, claims := PageFor(log, own, req), DecodeCoverage(req.coverage);
    var ch := KeyedChannel(log, own, claims, req.audit, None, req.store, Clamp(req.limit), PAGE_BYTE_BUDGET);
    FreshPageShape(log, own, req);
    forall op
      ensures op in ch.keyed <==>
                op in log.ops && (req.store.Some? ==> op.store == req.store.value) && (req.audit || !Covers(claims, op.Key()))
    {
      FreshChannelExact(log, own, claims, req.audit, req.store, Clamp(req.limit), op);
    }
    if req.store.None? {
      CompletePageIsNoReset(log, own, req);
      ValidCursorIsWithin(log, req);
      CompleteBackfillIsExact(log, claims, ch.keyed, req.relayAfter, Clamp(req.limit) - |ch.keyed|);
    }
  }

  lemma CompleteBackfillIsExact(log: Log, claims: Claims, keyed: seq<SignedOp>, after: nat, budget: nat)
    requires after <= log.Head() && budget > 0 && BackfillPage(log, claims, keyed, after, budget).complete
    ensures var page := BackfillPage(log, claims, keyed, after, budget);
            && page.nextRelaySeq == log.Head()
            && forall s: nat, op :: (s, op) in page.backfill <==>
                 after < s <= log.Head() && op == log.arrivals[s - 1] && Covers(claims, op.Key())
  {
    hide Covers;
    hide CoveredBetween;
    hide BackfillPage;
    BackfillPageIsHonest(log, claims, keyed, after, budget);
    forall s: nat, op
      ensures (s, op) in CoveredBetween(log.arrivals, claims, after, log.Head()) <==>
                after < s <= log.Head() && op == log.arrivals[s - 1] && Covers(claims, op.Key())
    {
      CoveredBetweenIsExact(log.arrivals, claims, after, log.Head(), s, op);
    }
  }

  /** What a complete page for a fresh request is put together from. */
  lemma FreshPageShape(log: Log, own: DeviceId, req: PullRequest)
    requires req.resume.None? && PageFor(log, own, req).complete
    ensures var claims := DecodeCoverage(req.coverage);
            var ch := KeyedChannel(log, own, claims, req.audit, None, req.store, Clamp(req.limit), PAGE_BYTE_BUDGET);
            var page := PageFor(log, own, req);
            && ch.cut.None? && page.keyed == ch.keyed
            && if req.store.Some? then page.backfill == [] && page.nextRelaySeq == req.relayAfter
               else |ch.keyed| < Clamp(req.limit) && page == BackfillPage(log, claims, ch.keyed, req.relayAfter, Clamp(req.limit) - |ch.keyed|)
  {
    hide KeyedChannel;
    hide DecodeCoverage;
    hide Scan;
    hide RelayRows;
  }

  /** None of another device comes before one of `own`, and none at all unless `all` of own
      are there. */
  ghost predicate OwnFirst(keyed: seq<SignedOp>, own: DeviceId, all: iset<SignedOp>) {
    && (forall i, j | 0 <= i < j < |keyed| && keyed[j].device == own :: keyed[i].device == own)
    && ((exists i :: 0 <= i < |keyed| && keyed[i].device != own) ==> forall op | op in all :: op in keyed)
  }

  /** The ops of one device in the store asked for, above the claims or all in an audit. */
  ghost function AskedOf(log: Log, d: DeviceId, claims: Claims, audit: bool, store: Option<string>): iset<SignedOp> {
    iset op | op in log.ops && op.device == d && (store.Some? ==> op.store == store.value) && (audit || !Covers(claims, op.Key()))
  }

  lemma OwnFirstConcat(served: seq<SignedOp>, rest: seq<SignedOp>, own: DeviceId, all: iset<SignedOp>)
    requires (forall i | 0 <= i < |served| :: served[i].device == own) && (forall i | 0 <= i < |rest| :: rest[i].device != own)
    requires rest == [] || forall op | op in all :: op in served
    ensures OwnFirst(served + rest, own, all)
  {
  }

  /** A fresh page serves the server's own ops first, and nothing else before they all are
      there. */
  lemma OwnComesFirst(log: Log, own: DeviceId, claims: Claims, audit: bool, store: Option<string>, count: nat)
    requires log.Valid() && count > 0
    ensures OwnFirst(KeyedChannel(log, own, claims, audit, None, store, count, PAGE_BYTE_BUDGET).keyed, own, AskedOf(log, own, claims, audit, store))
  {
    hide Covers;
    hide OwnFirst;
    hide Segments;
    hide Serve;
    var above := if audit then map[] else claims;
    var origins := OriginList(log.ops);
    var plan := Plan(origins, own, above, false, None);
    var shelf, room := Shelf(log.ops, store, PAGE_BYTE_BUDGET), Room(count, 0);
    AuditPlan(origins, own, claims, audit);
    OriginListExact(log.ops);
    PlanIsGood(origins, own, above, None, 0);
    hide GoodPlan;
    forall op: SignedOp | audit
      ensures !Covers(above, op.Key())
    {
      NothingIsCovered(op);
    }
    assert AskedOf(log, own, claims, audit, store) == AskedOf(log, own, above, false, store);
    if own in origins {
      OwnServedFirst(log, own, above, store, plan, room);
    } else {
      hide Plan;
      var keyed := Serve(shelf, plan, room).keyed;
      forall j | 0 <= j < |keyed|
        ensures keyed[j].device != own
      {
        var i := ServeMember(shelf, plan, room, j);
      }
      OwnFirstConcat([], keyed, own, AskedOf(log, own, above, false, store));
      assert [] + keyed == keyed;
    }
  }

  lemma ServeSplits(shelf: Shelf, plan: seq<Segment>, room: Room)
    requires plan != []
    ensures Serve(shelf, plan, room).keyed
         == ServedRows(shelf, plan[0], room)
            + if CutIn(shelf, plan[0], room) then [] else Serve(shelf, plan[1..], RoomAfter(shelf, plan[0], room)).keyed
  {
  }

  lemma OwnServedFirst(log: Log, own: DeviceId, claims: Claims, store: Option<string>, plan: seq<Segment>, room: Room)
    requires plan != [] && plan[0] == Segment(own, Claim(claims, false, own)) && GoodPlan(plan, claims)
    ensures OwnFirst(Serve(Shelf(log.ops, store, PAGE_BYTE_BUDGET), plan, room).keyed, own, AskedOf(log, own, claims, false, store))
  {
    hide Covers;
    hide ServedRows;
    hide CutIn;
    hide RoomAfter;
    hide OwnFirst;
    hide Serve;
    var shelf, all := Shelf(log.ops, store, PAGE_BYTE_BUDGET), AskedOf(log, own, claims, false, store);
    var served := ServedRows(shelf, plan[0], room);
    ServedRowsPrefix(shelf, plan[0], room);
    ServeSplits(shelf, plan, room);
    assert forall i | 0 <= i < |served| :: served[i] in served;
    if CutIn(shelf, plan[0], room) {
      OwnFirstConcat(served, [], own, all);
    } else {
      var rest := Serve(shelf, plan[1..], RoomAfter(shelf, plan[0], room)).keyed;
      ServeAvoids(shelf, plan, RoomAfter(shelf, plan[0], room));
      OriginRowsExact(log.ops, own, plan[0].after, store);
      forall op | op in all
        ensures op in served
      {
        WantedExactly(claims, store, op);
      }
      OwnFirstConcat(served, rest, own, all);
    }
  }

  lemma CoveredBetweenIsExact(arrivals: seq<SignedOp>, claims: Claims, lo: nat, hi: nat, s: nat, op: SignedOp)
    requires lo <= hi <= |arrivals|
    ensures (s, op) in CoveredBetween(arrivals, claims, lo, hi) <==> lo < s <= hi && op == arrivals[s - 1] && Covers(claims, op.Key())
  {
    hide Covers;
    hide CoveredBetween;
    var r := CoveredBetween(arrivals, claims, lo, hi);
    CoveredBetweenInOrder(arrivals, claims, lo, hi);
    if (s, op) in r {
      var i :| 0 <= i < |r| && r[i] == (s, op);
      assert IsArrival(arrivals, claims, r[i]);
    }
    if lo < s <= hi && op == arrivals[s - 1] && Covers(claims, op.Key()) {
      var i := CoveredBetweenHas(arrivals, claims, lo, hi, s);
      assert r[i] == (s, op);
    }
  }

  lemma CompletePageIsNoReset(log: Log, own: DeviceId, req: PullRequest)
    requires req.store.None? && PageFor(log, own, req).complete
    ensures !PullNeedsReset(req.relayEpoch, req.relayAfter, StateOf(log))
  {
  }

  lemma EmptyChannelIsHonest(log: Log, claims: Claims)
    ensures HonestChannel(log, claims, false, Channel([], None))
  {
    assert Orderly([], 0);
  }

  // -------------------------------------------------- why drains end with a fresh page

  /** A channel resumed in an origin, if it is not cut again, serves the uncovered ops of
      that origin and the ones above it, and none below. */
  lemma ResumedChannelExact(log: Log, own: DeviceId, claims: Claims, resume: Option<Resume>, after: nat, count: nat, op: SignedOp)
    requires log.Valid() && Coherent(resume, claims, after) && resume.Some? && resume.value.Keyed? && count > 0
    requires KeyedChannel(log, own, claims, false, resume, None, count, PAGE_BYTE_BUDGET).cut.None?
    requires op in log.ops && !Covers(claims, op.Key())
    ensures op in KeyedChannel(log, own, claims, false, resume, None, count, PAGE_BYTE_BUDGET).keyed
            <==> op.device >= resume.value.origin.value
  {
    hide Serve;
    hide Covers;
    hide Segments;
    var origins, origin := OriginList(log.ops), resume.value.origin.value;
    var from := DropBelow(origins, origin);
    var plan := Plan(origins, own, claims, false, resume);
    var shelf, room := Shelf(log.ops, None, PAGE_BYTE_BUDGET), Room(count, 0);
    OriginListExact(log.ops);
    DropBelowSuffix(origins, origin);
    PlanIsGood(origins, own, claims, resume, after);
    SegmentsFrom(from, None, claims, resume);
    hide Coherent;
    var keyed := Serve(shelf, plan, room).keyed;
    if op.device >= origin {
      var i := SegmentsReach(from, None, claims, resume, op.device);
      WantedExactly(claims, None, op);
      ServeComplete(shelf, plan, room, i, op);
    } else if op in keyed {
      var j :| 0 <= j < |keyed| && keyed[j] == op;
      var i := ServeUncovered(log, plan, claims, room, PAGE_BYTE_BUDGET, j);
    }
  }

  /** Which uncovered ops a complete page may leave out: none on a fresh request, those of
      smaller origins after a keyed token, all of them after a positional one. */
  ghost predicate NothingSkipped(log: Log, claims: Claims, resume: Option<Resume>) {
    match resume
    case None => true
    case Some(Keyed(origin, _)) =>
      forall op | op in log.ops && origin.Some? && op.device < origin.value :: Covers(claims, op.Key())
    case Some(Backfill(_)) => forall op | op in log.ops :: Covers(claims, op.Key())
  }

  /** The keyed part of a page that came out complete. */
  lemma CompletePageShape(log: Log, own: DeviceId, req: PullRequest)
    requires !req.audit && req.store.None? && PageFor(log, own, req).complete
    ensures var ch := KeyedChannel(log, own, DecodeCoverage(req.coverage), false, KeyedPart(req.resume), None, Clamp(req.limit), PAGE_BYTE_BUDGET);
            var page := PageFor(log, own, req);
            if req.resume.Some? && req.resume.value.Backfill? then page.keyed == [] else ch.cut.None? && page.keyed == ch.keyed
  {
    hide KeyedChannel;
    hide DecodeCoverage;
    hide Scan;
    hide RelayRows;
  }

  /** A complete page carries every op above the claims if and only if the request had no
      token, or a keyed one with nothing uncovered in a smaller origin, or a positional one
      with nothing uncovered at all. */
  lemma CompletePageServesAllExactly(log: Log, own: DeviceId, req: PullRequest)
    requires log.Valid() && !req.audit && req.store.None? && (req.relayEpoch == 0 ==> req.relayAfter == 0)
    requires Coherent(req.resume, DecodeCoverage(req.coverage), req.relayAfter) && PageFor(log, own, req).complete
    ensures var claims := DecodeCoverage(req.coverage);
            ServesAll(log, claims, PageFor(log, own, req).keyed) <==> NothingSkipped(log, claims, req.resume)
  {
    hide PageFor;
    hide Covers;
    hide DecodeCoverage;
    hide KeyedChannel;
    CompletePageShape(log, own, req);
    var claims := DecodeCoverage(req.coverage);
    match req.resume
    case None =>
      CompletePageIsNoReset(log, own, req);
      PageIsHonest(log, own, req);
    case Some(Backfill(_)) =>
    case Some(Keyed(origin, _)) =>
      var ch := KeyedChannel(log, own, claims, false, req.resume, None, Clamp(req.limit), PAGE_BYTE_BUDGET);
      forall op | op in log.ops && !Covers(claims, op.Key())
        ensures op in ch.keyed <==> op.device >= origin.value
      {
        ResumedChannelExact(log, own, claims, req.resume, req.relayAfter, Clamp(req.limit), op);
      }
  }

  /** A log of one op each from devices 1 and 2, and a puller that resumes after device
      2's op. */
  function TwoOrigins(): Log {
    var x, y := SignedOp(1, 1, 1, "s", [], 1), SignedOp(2, 2, 2, "s", [], 1);
    Log(1, [x, y], [x, y])
  }

  function ResumedRequest(): PullRequest {
    var key := OrderKey(2, 2, 2);
    PullRequest(map[2 := key], 1, 0, Some(Keyed(Some(2), Some(key))), PAGE_LIMIT_MAX, false, None)
  }

  lemma ResumedPlan()
    ensures OriginList(TwoOrigins().ops) == [1, 2]
    ensures Plan([1, 2], 2, ResumedRequest().coverage, false, ResumedRequest().resume) == [Segment(2, Some(OrderKey(2, 2, 2)))]
  {
    var ops := TwoOrigins().ops;
    assert [1, 2][1..] == [2] && [2][1..] == [] && [1][1..] == [];
    assert ops[..1] == [ops[0]] && [ops[0]][..0] == [];
    assert InsertDevice([], 1) == [1] && InsertDevice([1], 2) == [1] + InsertDevice([], 2) == [1, 2];
    assert OriginList([ops[0]]) == [1];
    var req := ResumedRequest();
    assert DropBelow([1, 2], 2) == [2];
    assert Segments([], None, req.coverage, false, req.resume) == [];
  }

  lemma ResumedChannel()
    ensures KeyedChannel(TwoOrigins(), 2, ResumedRequest().coverage, false, ResumedRequest().resume, None, PAGE_LIMIT_MAX, PAGE_BYTE_BUDGET)
         == Channel([], None)
  {
    ResumedPlan();
    hide Plan;
    hide OriginList;
    var log, req, s := TwoOrigins(), ResumedRequest(), Segment(2, Some(OrderKey(2, 2, 2)));
    var shelf, room := Shelf(log.ops, None, PAGE_BYTE_BUDGET), Room(PAGE_LIMIT_MAX, 0);
    assert OriginRows(log.ops, 2, Some(OrderKey(2, 2, 2)), None) == [] by {
      OriginRowsExact(log.ops, 2, Some(OrderKey(2, 2, 2)), None);
      EmptyHasNoMember(OriginRows(log.ops, 2, Some(OrderKey(2, 2, 2)), None));
    }
    ServeCons(shelf, s, [], room, []);
    assert [s] + [] == [s];
    assert ServedRows(shelf, s, room) == [];
  }

  lemma ResumedBackfill()
    ensures var page := BackfillPage(TwoOrigins(), ResumedRequest().coverage, [], 0, PAGE_LIMIT_MAX);
            page.complete && TwoOrigins().ops[0] !in Entries(page)
  {
  }

  /** A resumed page can be complete and still leave an origin out: one below the origin
      the chain was cut in. */
  lemma ResumedChainSkips()
    ensures TwoOrigins().Valid() && Coherent(ResumedRequest().resume, ResumedRequest().coverage, 0)
    ensures var page, x := PageFor(TwoOrigins(), 2, ResumedRequest()), TwoOrigins().ops[0];
            page.complete && !Covers(ResumedRequest().coverage, x.Key()) && x !in Entries(page)
  {
    ResumedChannel();
    ResumedBackfill();
    hide KeyedChannel;
    hide BackfillPage;
    hide Entries;
    assert DecodeCoverage(ResumedRequest().coverage) == ResumedRequest().coverage;
  }
}
