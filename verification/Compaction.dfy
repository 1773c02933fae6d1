/** Op-log compaction (src/sqlite/retention.rs): a scan picks shadowed ops, chunks of them
    are deleted later, and neither the last-write-wins guard nor a relay puller can tell. */
module Compaction {
  import opened OrderKeys
  import opened SqlLog

  const SCAN_PAGE := 2048
  const LEGACY_LWW_SCAN_CAP := 16384

  /** Self-draining bulk tables, whose heads' ops may go too. */
  predicate Bulk(row: RowRef) {
    && row.store == "proxydb"
    && row.table in {"items", "sequences", "widget_files", "party_files", "conversations",
                     "conversation_participants", "conversation_jobs", "message_attachments"}
  }

  function KeysAbove(keys: set<OrderKey>, key: OrderKey): set<OrderKey> {
    set k | k in keys && Less(key, k)
  }

  predicate IsHead(t: Tables, id: OpId) {
    id in t.oplog && t.oplog[id].row in t.heads && t.heads[t.oplog[id].row].key.opId == id
  }

  // --------------------------------------------------------------------- scan

  /** The rows the scan query joins: applied ops that arrived by `safeFloor` and before
      the newest arrival. */
  function Scannable(t: Tables, safeFloor: nat): set<nat> {
    set s | s in t.arrivals && t.arrivals[s].op in t.oplog && t.oplog[t.arrivals[s].op].applied
            && s <= safeFloor && s < Top(t.arrivals.Keys)
  }

  /** An op with `keep` greater applied ops of its row and at least one smaller. */
  predicate Shadowed(t: Tables, keep: nat, id: OpId)
    requires id in t.oplog
  {
    var keys, key := Applied(t.oplog, t.oplog[id].row), KeyOf(id, t.oplog[id]);
    (keep == 0 || |KeysAbove(keys, key)| >= keep) && HasLower(t.oplog, t.oplog[id].row, key)
  }

  /** What the scan may pick: nothing pinned, and outside the bulk tables only shadowed
      ops that are no head. */
  predicate Candidate(t: Tables, keep: nat, safeFloor: nat, pinned: set<OpId>, s: nat) {
    && s in Scannable(t, safeFloor)
    && var id := t.arrivals[s].op;
       && id !in pinned
       && (Bulk(t.oplog[id].row) || (Shadowed(t, keep, id) && !IsHead(t, id)))
  }

  /** Every key of the set is of an applied op of the row and greater than `key`. */
  ghost predicate AllAbove(oplog: Oplog, row: RowRef, key: OrderKey, keys: set<OrderKey>) {
    forall k | k in keys :: IsApplied(oplog, row, k) && Less(key, k)
  }

  /** At least `keep` applied ops of the op's row are greater, and one is smaller. */
  ghost predicate Crowded(oplog: Oplog, keep: nat, id: OpId)
    requires id in oplog
  {
    var row, key := oplog[id].row, KeyOf(id, oplog[id]);
    && (exists above :: |above| == keep && AllAbove(oplog, row, key, above))
    && exists k :: IsApplied(oplog, row, k) && Less(k, key)
  }

  lemma {:induction false} SubsetOfSize(keys: set<OrderKey>, n: nat) returns (some: set<OrderKey>)
    requires n <= |keys|
    ensures some <= keys && |some| == n
  {
    if n == |keys| {
      some := keys;
    } else {
      var k :| k in keys;
      some := SubsetOfSize(keys - {k}, n);
    }
  }

  lemma NoMoreThan(some: set<OrderKey>, keys: set<OrderKey>)
    requires some <= keys
    ensures |some| <= |keys|
  {
    assert keys == some + (keys - some);
  }

  lemma ShadowedExactly(t: Tables, keep: nat, id: OpId)
    requires id in t.oplog
    ensures Shadowed(t, keep, id) <==> Crowded(t.oplog, keep, id)
  {
    var row, key := t.oplog[id].row, KeyOf(id, t.oplog[id]);
    var keys := Applied(t.oplog, row);
    hide Applied;
    var above := KeysAbove(keys, key);
    if |above| >= keep {
      var some := SubsetOfSize(above, keep);
      assert AllAbove(t.oplog, row, key, some);
    }
    if some :| |some| == keep && AllAbove(t.oplog, row, key, some) {
      assert some <= above;
      NoMoreThan(some, above);
    }
  }

  /** What a scan may pick, said of the tables: an applied op that arrived by the safe floor
      and before another, is not pinned, and outside the bulk tables is no head and has
      `keep` greater applied ops of its row and a smaller one. */
  lemma CandidateExactly(t: Tables, keep: nat, safeFloor: nat, pinned: set<OpId>, s: nat)
    ensures Candidate(t, keep, safeFloor, pinned, s) <==>
              && s in t.arrivals && s <= safeFloor && (exists later :: later in t.arrivals && later > s)
              && var id := t.arrivals[s].op;
                 && id in t.oplog && t.oplog[id].applied && id !in pinned
                 && var row := t.oplog[id].row;
                    Bulk(row) || (Crowded(t.oplog, keep, id) && !(row in t.heads && t.heads[row].key.opId == id))
  {
    hide Bulk;
    hide Shadowed;
    hide Crowded;
    if s in t.arrivals {
      assert s in t.arrivals.Keys;
      assert IsTop(t.arrivals.Keys, Top(t.arrivals.Keys));
      if t.arrivals[s].op in t.oplog {
        ShadowedExactly(t, keep, t.arrivals[s].op);
      }
    }
  }

  predicate IsBottom(numbers: set<nat>, n: nat) {
    n in numbers && forall m | m in numbers :: n <= m
  }

  lemma {:induction false} BottomExists(numbers: set<nat>)
    requires numbers != {}
    ensures exists n :: IsBottom(numbers, n)
  {
    var x :| x in numbers;
    if numbers == {x} {
      assert IsBottom(numbers, x);
    } else {
      BottomExists(numbers - {x});
      var n :| IsBottom(numbers - {x}, n);
      var m := if n < x then n else x;
      forall j | j in numbers
        ensures m <= j
      {
        assert j == x || j in numbers - {x};
      }
      assert IsBottom(numbers, m);
    }
  }

  function Bottom(numbers: set<nat>): (r: nat)
    requires numbers != {}
    ensures IsBottom(numbers, r)
  {
    BottomExists(numbers);
    var n :| n in numbers && IsBottom(numbers, n);
    n
  }

  function Past(numbers: set<nat>, after: nat): set<nat> {
    set n | n in numbers && n > after
  }

  /** `WHERE relay_seq > after ORDER BY relay_seq LIMIT limit`. */
  function PageNumbers(numbers: set<nat>, after: nat, limit: nat): (page: seq<nat>)
    ensures |page| <= limit
    decreases limit
  {
    if limit == 0 || Past(numbers, after) == {} then []
    else [Bottom(Past(numbers, after))] + PageNumbers(numbers, Bottom(Past(numbers, after)), limit - 1)
  }

  /** A page lists its range in order and leaves nothing out up to its last number, or at
      all when it is not `full`. */
  ghost predicate IsPage(numbers: set<nat>, after: nat, page: seq<nat>, full: bool) {
    && (forall i | 0 <= i < |page| :: page[i] in numbers && page[i] > after)
    && (forall i, j | 0 <= i < j < |page| :: page[i] < page[j])
    && (forall n | n in numbers && n > after && (!full || (page != [] && n <= page[|page| - 1])) :: n in page)
  }

  lemma IsPageCons(numbers: set<nat>, after: nat, first: nat, rest: seq<nat>, full: bool)
    requires IsBottom(Past(numbers, after), first) && IsPage(numbers, first, rest, full)
    ensures IsPage(numbers, after, [first] + rest, full)
  {
    var page := [first] + rest;
    forall n | n in numbers && n > after && (!full || n <= page[|page| - 1])
      ensures n in page
    {
      assert n in Past(numbers, after);
      if n != first {
        assert n in rest;
      }
    }
  }

  lemma {:induction false} PageIsExact(numbers: set<nat>, after: nat, limit: nat)
    ensures IsPage(numbers, after, PageNumbers(numbers, after, limit), |PageNumbers(numbers, after, limit)| == limit)
    decreases limit
  {
    hide IsBottom;
    if limit > 0 && Past(numbers, after) != {} {
      hide IsPage;
      var first := Bottom(Past(numbers, after));
      PageIsExact(numbers, first, limit - 1);
      IsPageCons(numbers, after, first, PageNumbers(numbers, first, limit - 1), |PageNumbers(numbers, first, limit - 1)| == limit - 1);
    } else {
      assert forall n | n in numbers && n > after :: n in Past(numbers, after);
    }
  }

  /** What a scan is asked. */
  datatype Query = Query(keep: nat, safeFloor: nat, pinned: set<OpId>)

  predicate Wanted(t: Tables, q: Query, s: nat) {
    Candidate(t, q.keep, q.safeFloor, q.pinned, s)
  }

  function OpAt(t: Tables, s: nat): OpId {
    if s in t.arrivals then t.arrivals[s].op else 0
  }

  /** A scan that began after `from`: everything picked is a candidate, in arrival order,
      and no candidate up to `upTo` was passed over. */
  ghost predicate Picked(t: Tables, q: Query, from: nat, upTo: int, picked: seq<(OpId, nat)>) {
    && (forall i | 0 <= i < |picked| :: from < picked[i].1 && Wanted(t, q, picked[i].1) && picked[i].0 == OpAt(t, picked[i].1))
    && (forall i, j | 0 <= i < j < |picked| :: picked[i].1 < picked[j].1)
    && (forall s: nat | from < s <= upTo && Wanted(t, q, s) :: (OpAt(t, s), s) in picked)
  }

  /** The newer and older probes of one scanned row; bulk tables skip them. */
  method ProbeShadow(db: Db, keep: nat, safeFloor: nat, s: nat) returns (shadowed: bool)
    requires s in Scannable(View(db), safeFloor)
    ensures shadowed <==> Bulk(db.oplog[db.arrivals[s].op].row) || Shadowed(View(db), keep, db.arrivals[s].op)
  {
    hide Applied;
    hide Bulk;
    var id := db.arrivals[s].op;
    var row := db.oplog[id].row;
    var key := KeyOf(id, db.oplog[id]);
    if !Bulk(row) {
      shadowed := keep == 0 || |KeysAbove(Applied(db.oplog, row), key)| > keep - 1;
      if !shadowed {
        return false;
      }
      if !HasLower(db.oplog, row, key) {
        return false;
      }
    }
    shadowed := true;
  }

  /** The pin probes of one shadowed row decide whether it is a candidate. */
  method ProbePins(db: Db, keep: nat, safeFloor: nat, s: nat) returns (pick: bool)
    requires s in Scannable(View(db), safeFloor)
    requires Bulk(db.oplog[db.arrivals[s].op].row) || Shadowed(View(db), keep, db.arrivals[s].op)
    ensures pick <==> Wanted(View(db), Query(keep, safeFloor, db.pinned), s)
  {
    hide Bulk;
    hide Shadowed;
    var id := db.arrivals[s].op;
    var row := db.oplog[id].row;
    pick := !(id in db.pinned || (!Bulk(row) && row in db.heads && db.heads[row].key.opId == id));
  }

  lemma UnshadowedIsUnwanted(t: Tables, q: Query, s: nat)
    requires s in Scannable(t, q.safeFloor) && !Bulk(t.oplog[t.arrivals[s].op].row) && !Shadowed(t, q.keep, t.arrivals[s].op)
    ensures !Wanted(t, q, s)
  {
  }

  lemma PickedSkips(t: Tables, q: Query, from: nat, upTo: int, next: nat, picked: seq<(OpId, nat)>)
    requires Picked(t, q, from, upTo, picked) && upTo < next && !Wanted(t, q, next)
    requires forall s: nat | upTo < s < next :: !Wanted(t, q, s)
    ensures Picked(t, q, from, next, picked)
  {
  }

  lemma PickedTakes(t: Tables, q: Query, from: nat, upTo: int, next: nat, picked: seq<(OpId, nat)>)
    requires Picked(t, q, from, upTo, picked) && from <= upTo < next && Wanted(t, q, next)
    requires forall i | 0 <= i < |picked| :: picked[i].1 <= upTo
    requires forall s: nat | upTo < s < next :: !Wanted(t, q, s)
    ensures Picked(t, q, from, next, picked + [(OpAt(t, next), next)])
  {
    hide Candidate;
    var all := picked + [(OpAt(t, next), next)];
    forall s: nat | from < s <= next && Wanted(t, q, s)
      ensures (OpAt(t, s), s) in all
    {
      if s == next {
        assert all[|picked|] == (OpAt(t, s), s);
      } else {
        assert (OpAt(t, s), s) in picked;
      }
    }
  }

  /** Between two neighbours of a page there is nothing to pick. */
  lemma NothingBetween(t: Tables, q: Query, after: nat, page: seq<nat>, full: bool, i: nat)
    requires IsPage(Scannable(t, q.safeFloor), after, page, full) && i < |page|
    ensures forall s: nat | (if i == 0 then after else page[i - 1]) < s < page[i] :: !Wanted(t, q, s)
  {
  }

  /** One page of scanned rows. The row at which time runs out is passed unexamined. */
  method ScanRows(db: Db, q: Query, maxDeletes: nat, from: nat, after: nat, page: seq<nat>, full: bool,
                  candidates: seq<(OpId, nat)>, expired: nat -> bool, clock: nat)
    returns (candidates': seq<(OpId, nat)>, after': nat, scanned: nat, stopped: bool, clock': nat)
    requires q.pinned == db.pinned && |candidates| < maxDeletes && from <= after
    requires IsPage(Scannable(View(db), q.safeFloor), after, page, full)
    requires Picked(View(db), q, from, after, candidates) && (forall i | 0 <= i < |candidates| :: candidates[i].1 <= after)
    ensures after' >= after && (page != [] ==> after' > after) && scanned <= |page| && |candidates'| <= maxDeletes
    ensures forall i | 0 <= i < |candidates'| :: candidates'[i].1 <= after'
    ensures stopped ==> Picked(View(db), q, from, after' - 1, candidates')
    ensures !stopped ==> Picked(View(db), q, from, after', candidates') && |candidates'| < maxDeletes
    ensures !stopped ==> scanned == |page|
    ensures stopped ==> |candidates'| == maxDeletes || expired(clock')
  {
    hide Scannable;
    hide Shadowed;
    hide Candidate;
    hide Picked;
    candidates', after', scanned, stopped, clock' := candidates, after, 0, false, clock;
    while scanned < |page|
      invariant scanned <= |page| && !stopped && |candidates'| < maxDeletes
      invariant after <= after' && after' == if scanned == 0 then after else page[scanned - 1]
      invariant Picked(View(db), q, from, after', candidates')
      invariant forall i | 0 <= i < |candidates'| :: candidates'[i].1 <= after'
    {
      var s := page[scanned];
      NothingBetween(View(db), q, after, page, full, scanned);
      ghost var before := after';
      after' := s;
      scanned := scanned + 1;
      clock' := clock' + 1;
      if expired(clock') {
        PickedUpTo(View(db), q, from, before, s, candidates');
        return candidates', after', scanned, true, clock';
      }
      ScannableIsLogged(View(db), q.safeFloor, s);
      var shadowed := ProbeShadow(db, q.keep, q.safeFloor, s);
      if !shadowed {
        UnshadowedIsUnwanted(View(db), q, s);
        PickedSkips(View(db), q, from, before, s, candidates');
        continue;
      }
      clock' := clock' + 1;
      if expired(clock') {
        PickedUpTo(View(db), q, from, before, s, candidates');
        return candidates', after', scanned, true, clock';
      }
      var pick := ProbePins(db, q.keep, q.safeFloor, s);
      if !pick {
        PickedSkips(View(db), q, from, before, s, candidates');
        continue;
      }
      PickedTakes(View(db), q, from, before, s, candidates');
      candidates' := candidates' + [(OpAt(View(db), s), s)];
      if |candidates'| >= maxDeletes {
        PickedLess(View(db), q, from, s, candidates');
        stopped := true;
        return;
      }
    }
  }

  lemma ScannableIsLogged(t: Tables, safeFloor: nat, s: nat)
    requires s in Scannable(t, safeFloor)
    ensures s in t.arrivals && t.arrivals[s].op in t.oplog
  {
  }

  lemma PickedLess(t: Tables, q: Query, from: nat, upTo: int, picked: seq<(OpId, nat)>)
    requires Picked(t, q, from, upTo, picked)
    ensures Picked(t, q, from, upTo - 1, picked)
  {
  }

  lemma PickedUpTo(t: Tables, q: Query, from: nat, upTo: int, next: nat, picked: seq<(OpId, nat)>)
    requires Picked(t, q, from, upTo, picked) && upTo < next
    requires forall s: nat | upTo < s < next :: !Wanted(t, q, s)
    ensures Picked(t, q, from, next - 1, picked)
  {
  }

  function ScanCap(maxDeletes: nat, legacy: bool): nat {
    var cap := if maxDeletes * 4 < SCAN_PAGE then SCAN_PAGE else maxDeletes * 4;
    if legacy && cap > LEGACY_LWW_SCAN_CAP then LEGACY_LWW_SCAN_CAP else cap
  }

  /** `compaction_candidates`: page through the arrivals after `resumeAfter` until there
      are enough candidates, enough scanned rows or no time left, and for no other reason. The
      cursor returns to 0 once nothing is left, and is 0 otherwise only if the first scan had
      no room or no time to look at a row. */
  method CompactionCandidates(db: Db, keep: nat, maxDeletes: nat, safeFloor: nat, resumeAfter: nat, legacy: bool, expired: nat -> bool)
    returns (candidates: seq<(OpId, nat)>, nextCursor: nat, scanned: nat, ghost upTo: int)
    ensures |candidates| <= maxDeletes && (legacy ==> scanned < LEGACY_LWW_SCAN_CAP + SCAN_PAGE)
    ensures scanned < 4 * maxDeletes + SCAN_PAGE || scanned < 2 * SCAN_PAGE
    ensures nextCursor > 0 ==>
              || |candidates| == maxDeletes || (exists c :: expired(c))
              || (scanned >= 4 * maxDeletes && scanned >= SCAN_PAGE) || (legacy && scanned >= LEGACY_LWW_SCAN_CAP)
    ensures Picked(View(db), Query(keep, safeFloor, db.pinned), resumeAfter, upTo, candidates)
    ensures nextCursor > 0 ==> upTo >= nextCursor - 1 && nextCursor >= resumeAfter
    ensures nextCursor == 0 ==> upTo >= safeFloor || (resumeAfter == 0 && (maxDeletes == 0 || expired(0)))
  {
    hide Scannable;
    hide Candidate;
    hide Picked;
    hide IsPage;
    hide PageNumbers;
    var q := Query(keep, safeFloor, db.pinned);
    var cap := ScanCap(maxDeletes, legacy);
    candidates, scanned := [], 0;
    var after: nat, clock: nat := resumeAfter, 0;
    var exhausted, stopped := false, false;
    NothingPicked(View(db), q, resumeAfter);
    while !stopped && |candidates| < maxDeletes && scanned < cap && !expired(clock)
      invariant |candidates| <= maxDeletes && resumeAfter <= after && !exhausted && scanned < cap + SCAN_PAGE
      invariant stopped ==> Picked(View(db), q, resumeAfter, after - 1, candidates) && (|candidates| == maxDeletes || exists c :: expired(c))
      invariant !stopped ==> Picked(View(db), q, resumeAfter, after, candidates)
      invariant forall i | 0 <= i < |candidates| :: candidates[i].1 <= after
      invariant after > 0 || (resumeAfter == 0 && candidates == [] && clock == 0 && scanned == 0 && !stopped)
      decreases !stopped, cap - scanned
    {
      var page := PageNumbers(Scannable(View(db), safeFloor), after, SCAN_PAGE);
      PageIsExact(Scannable(View(db), safeFloor), after, SCAN_PAGE);
      if page == [] {
        exhausted := true;
        NothingLeft(View(db), q, resumeAfter, after, candidates);
        break;
      }
      var n;
      candidates, after, n, stopped, clock := ScanRows(db, q, maxDeletes, resumeAfter, after, page, |page| == SCAN_PAGE, candidates, expired, clock + 1);
      scanned := scanned + n;
    }
    nextCursor := if exhausted then 0 else after;
    upTo := if exhausted then safeFloor else if stopped then after - 1 else after;
  }

  lemma NothingPicked(t: Tables, q: Query, from: nat)
    ensures Picked(t, q, from, from, [])
  {
  }

  /** Nothing scannable is left, so every candidate up to the safe floor was picked. */
  lemma NothingLeft(t: Tables, q: Query, from: nat, after: nat, picked: seq<(OpId, nat)>)
    requires Picked(t, q, from, after, picked) && IsPage(Scannable(t, q.safeFloor), after, [], false)
    ensures Picked(t, q, from, q.safeFloor, picked)
  {
  }

  // ------------------------------------------------------------------- delete

  /** Whether a chunk's deletes take this op: not pinned, and no head outside the bulk
      tables, as things stand at the delete. */
  predicate Drops(t: Tables, pinned: set<OpId>, chunk: set<OpId>, id: OpId) {
    id in chunk && id !in pinned && !(IsHead(t, id) && !Bulk(t.oplog[id].row))
  }

  function Gone(t: Tables, pinned: set<OpId>, chunk: set<OpId>): set<OpId> {
    set id | id in t.oplog && Drops(t, pinned, chunk, id)
  }

  function NumbersOf(t: Tables, ids: set<OpId>): set<nat> {
    set s | s in t.arrivals && t.arrivals[s].op in ids
  }

  function DroppedNumbers(t: Tables, pinned: set<OpId>, chunk: set<OpId>): set<nat> {
    set s | s in t.arrivals && Drops(t, pinned, chunk, t.arrivals[s].op)
  }

  /** `delete_ops_chunk`. */
  function Deleted(t: Tables, pinned: set<OpId>, chunk: set<OpId>): Tables {
    var gone := Gone(t, pinned, chunk);
    var last := Top(NumbersOf(t, gone));
    Tables(
      t.oplog - gone,
      t.heads,
      t.arrivals - DroppedNumbers(t, pinned, chunk),
      if gone != {} && last > t.floor then last else t.floor)
  }

  /** A chunk removes exactly those of its ops that are logged, not pinned and, outside the
      bulk tables, no head; an arrival goes exactly with its op. */
  lemma DeletedExactly(t: Tables, pinned: set<OpId>, chunk: set<OpId>)
    requires forall s | s in t.arrivals :: t.arrivals[s].op in t.oplog
    ensures var t' := Deleted(t, pinned, chunk);
            && t'.heads == t.heads
            && (forall id :: id in t'.oplog <==>
                  && id in t.oplog
                  && (id in chunk && id !in pinned ==>
                        var row := t.oplog[id].row; !Bulk(row) && row in t.heads && t.heads[row].key.opId == id))
            && (forall id | id in t'.oplog :: t'.oplog[id] == t.oplog[id])
            && (forall s :: s in t'.arrivals <==> s in t.arrivals && t.arrivals[s].op in t'.oplog)
            && (forall s | s in t'.arrivals :: t'.arrivals[s] == t.arrivals[s])
  {
    hide Bulk;
  }

  lemma GoneIsLogged(t: Tables, pinned: set<OpId>, chunk: set<OpId>)
    ensures Gone(t, pinned, chunk) <= t.oplog.Keys
  {
  }

  /** `delete_ops_chunk`, statement by statement. */
  method DeleteOpsChunk(db: Db, chunk: set<OpId>) returns (deleted: nat)
    modifies db`arrivals, db`oplog, db`floor
    ensures View(db) == Deleted(old(View(db)), db.pinned, chunk)
    ensures deleted == |old(db.oplog)| - |db.oplog|
  {
    hide Drops;
    hide Top;
    hide Gone;
    hide NumbersOf;
    hide DroppedNumbers;
    var t := View(db);
    var doomed := Gone(t, db.pinned, chunk);
    GoneIsLogged(t, db.pinned, chunk);
    var floor := Top(NumbersOf(t, doomed));
    db.arrivals := db.arrivals - DroppedNumbers(t, db.pinned, chunk);
    db.oplog := db.oplog - doomed;
    deleted := |doomed|;
    Remaining(t.oplog, db.oplog, doomed);
    assert deleted == 0 <==> doomed == {};
    if deleted > 0 {
      db.floor := if floor > db.floor then floor else db.floor;
    }
  }

  lemma Remaining(before: Oplog, after: Oplog, gone: set<OpId>)
    requires gone <= before.Keys && after.Keys == before.Keys - gone
    ensures |before| == |after| + |gone|
  {
  }
}
