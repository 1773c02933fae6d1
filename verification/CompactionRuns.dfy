/** Any number of compaction passes, with appends and demotions between a scan and its
    deletes. The reference is `whole`, the log as it would be had nothing ever been
    deleted. */
module CompactionRuns {
  import opened OrderKeys
  import opened SqlLog
  import opened Compaction
  import opened PullServer
  import Logs
  import Relay

  // ------------------------------------------------------- keys in the middle

  /** One key of the set lies below `k` and two lie above it. */
  ghost predicate Inner(keys: set<OrderKey>, k: OrderKey) {
    exists lo, a, b :: lo in keys && a in keys && b in keys && Less(lo, k) && Less(k, a) && Less(a, b)
  }

  lemma InnerGrows(keys: set<OrderKey>, more: set<OrderKey>, k: OrderKey)
    requires Inner(keys, k) && keys <= more
    ensures Inner(more, k)
  {
  }

  /** The least key and the two greatest are in the middle of nothing, so taking middle
      keys away leaves what was in the middle there. */
  lemma InnerSurvives(keys: set<OrderKey>, gone: set<OrderKey>, k: OrderKey)
    requires Inner(keys, k) && forall g | g in gone :: Inner(keys, g)
    ensures Inner(keys - gone, k)
  {
    var lo, a, b :| lo in keys && a in keys && b in keys && Less(lo, k) && Less(k, a) && Less(a, b);
    var least, first := Least(keys).value, Greatest(keys).value;
    assert a != first && a in keys - {first};
    var second := Greatest(keys - {first}).value;
    assert least !in gone by {
      if least in gone { NothingBelow(keys, least); }
    }
    assert first !in gone && second !in gone by {
      if first in gone { NotTwoAbove(keys, first, first); }
      if second in gone { NotTwoAbove(keys, first, second); }
    }
    assert Less(least, k) && Less(k, second) && Less(second, first);
  }

  lemma NothingBelow(keys: set<OrderKey>, k: OrderKey)
    requires IsLeast(keys, k)
    ensures !Inner(keys, k)
  {
  }

  lemma NotTwoAbove(keys: set<OrderKey>, first: OrderKey, k: OrderKey)
    requires IsGreatest(keys, first) && (k == first || IsGreatest(keys - {first}, k))
    ensures !Inner(keys, k)
  {
    forall a | a in keys && Less(k, a)
      ensures a == first
    {
      assert a == first || a in keys - {first};
    }
  }

  /** One id, one key. */
  ghost predicate Distinct(keys: set<OrderKey>) {
    forall i, j | i in keys && j in keys && i.opId == j.opId :: i == j
  }

  /** Something other than one excluded op beats a middle key, and something undercuts it. */
  lemma InnerIsBeaten(keys: set<OrderKey>, full: set<OrderKey>, exclude: OpId, k: OrderKey)
    requires keys <= full && Inner(keys, k)
    requires Distinct(full)
    ensures exists x :: x in Without(full, exclude) && Less(k, x)
    ensures exists x :: x in full && Less(x, k)
  {
    var lo, a, b :| lo in keys && a in keys && b in keys && Less(lo, k) && Less(k, a) && Less(a, b);
    assert lo in full && a in full && b in full;
    assert a in Without(full, exclude) || b in Without(full, exclude);
  }

  /** Keys that only ever lost middle ones answer every guard as the full set does. */
  lemma SameAnswers(keys: set<OrderKey>, full: set<OrderKey>, exclude: OpId)
    requires keys <= full && forall k | k in full - keys :: Inner(keys, k)
    requires Distinct(full)
    ensures Greatest(Without(keys, exclude)) == Greatest(Without(full, exclude))
    ensures Least(keys) == Least(full) && Greatest(keys) == Greatest(full)
  {
    forall k | k in full - keys
      ensures exists x :: x in Without(full, exclude) && Less(k, x)
      ensures exists x :: x in full && Less(x, k)
    {
      InnerIsBeaten(keys, full, exclude, k);
    }
    if full != {} {
      var l := Least(full).value;
      assert l !in full - keys;
      assert IsLeast(keys, l) && IsLeast(keys, Least(keys).value);
      var top := Greatest(full).value;
      assert top !in full - keys;
      assert IsGreatest(keys, top) && IsGreatest(keys, Greatest(keys).value);
    }
    var some, all := Without(keys, exclude), Without(full, exclude);
    if all != {} {
      var g := Greatest(all).value;
      assert g !in full - keys;
      assert IsGreatest(some, g) && IsGreatest(some, Greatest(some).value);
    }
  }

  /** Two greater keys and a smaller one, as the scan's probes ask with `keep >= 2`. */
  lemma ShadowedIsInner(t: Tables, keep: nat, id: OpId)
    requires id in t.oplog && keep >= 2 && Shadowed(t, keep, id)
    ensures Inner(Applied(t.oplog, t.oplog[id].row), KeyOf(id, t.oplog[id]))
  {
    var keys, key := Applied(t.oplog, t.oplog[id].row), KeyOf(id, t.oplog[id]);
    hide Applied;
    var above := KeysAbove(keys, key);
    var a :| a in above;
    assert above - {a} != {} by {
      assert above == {a} + (above - {a});
    }
    var b :| b in above - {a};
    var lo :| lo in keys && Less(lo, key);
    assert Less(a, b) || Less(b, a);
  }

  // ------------------------------------------------------------- two sets alike

  ghost function Differ(a: set<OrderKey>, b: set<OrderKey>): set<OrderKey> {
    (a - b) + (b - a)
  }

  /** What the sets do not share lies in the middle of what they share. */
  ghost predicate Alike(a: set<OrderKey>, b: set<OrderKey>) {
    forall g | g in Differ(a, b) :: Inner(a * b, g)
  }

  ghost predicate SameReads(a: set<OrderKey>, b: set<OrderKey>) {
    (forall exclude :: Greatest(Without(a, exclude)) == Greatest(Without(b, exclude))) && Least(a) == Least(b)
  }

  lemma AlikeReadsSame(a: set<OrderKey>, b: set<OrderKey>)
    requires Distinct(a + b) && Alike(a, b)
    ensures SameReads(a, b) && Greatest(a) == Greatest(b)
  {
    hide Inner;
    var both := a * b;
    forall exclude
      ensures Greatest(Without(a, exclude)) == Greatest(Without(b, exclude))
    {
      SameAnswers(both, a, exclude);
      SameAnswers(both, b, exclude);
    }
    SameAnswers(both, a, 0);
    SameAnswers(both, b, 0);
  }

  /** A key only one of them has: the least, the greatest but for the least, and the greatest
      but for that one are shared, and it lies between. */
  lemma SameReadsSurround(a: set<OrderKey>, b: set<OrderKey>, g: OrderKey)
    requires Distinct(a + b) && SameReads(a, b) && g in b - a
    ensures Inner(a * b, g)
  {
    var l := Least(b).value;
    assert l in a * b && Less(l, g);
    assert g in Without(b, l.opId);
    var m := Greatest(Without(b, l.opId)).value;
    assert Greatest(Without(a, l.opId)) == Some(m);
    assert m in a * b && Less(g, m);
    assert g in Without(b, m.opId);
    var n := Greatest(Without(b, m.opId)).value;
    assert Greatest(Without(a, m.opId)) == Some(n);
    assert n in a * b && Less(g, n) && n != m;
    assert Less(m, n) || Less(n, m);
  }

  /** Two sets answer every guard alike if and only if they are alike. */
  lemma AlikeExactly(a: set<OrderKey>, b: set<OrderKey>)
    requires Distinct(a + b)
    ensures SameReads(a, b) <==> Alike(a, b)
  {
    if Alike(a, b) {
      AlikeReadsSame(a, b);
    }
    if SameReads(a, b) {
      hide Inner;
      assert SameReads(b, a) && b + a == a + b && b * a == a * b;
      forall g | g in Differ(a, b)
        ensures Inner(a * b, g)
      {
        if g in b { SameReadsSurround(a, b, g); } else { SameReadsSurround(b, a, g); }
      }
    }
  }

  lemma AlikeTaken(a: set<OrderKey>, b: set<OrderKey>, taken: set<OrderKey>)
    requires Alike(a, b) && taken <= a
    ensures Alike(a - taken, b) <==> forall k | k in taken * b :: Inner(a * b - taken, k)
  {
    hide Inner;
    var both, gone := a * b, taken * b;
    assert (a - taken) * b == both - taken == both - gone;
    if forall k | k in gone :: Inner(both - taken, k) {
      forall k | k in gone
        ensures Inner(both, k)
      {
        InnerGrows(both - taken, both, k);
      }
      forall g | g in Differ(a - taken, b)
        ensures Inner(both - taken, g)
      {
        if g !in gone {
          assert g in Differ(a, b);
          InnerSurvives(both, gone, g);
        }
      }
    }
    if Alike(a - taken, b) {
      forall k | k in gone
        ensures Inner(both - taken, k)
      {
        assert k in Differ(a - taken, b);
      }
    }
  }

  lemma AlikeWithout(a: set<OrderKey>, b: set<OrderKey>, id: OpId)
    ensures Alike(Without(a, id), Without(b, id)) <==> forall g | g in Differ(a, b) && g.opId != id :: Inner(Without(a * b, id), g)
  {
    hide Inner;
    assert Without(a, id) * Without(b, id) == Without(a * b, id);
    assert forall g :: g in Differ(Without(a, id), Without(b, id)) <==> g in Differ(a, b) && g.opId != id;
  }

  lemma AlikeWithBoth(a: set<OrderKey>, b: set<OrderKey>, k: OrderKey)
    requires Alike(a, b)
    ensures Alike(a + {k}, b + {k})
  {
    hide Inner;
    forall g | g in Differ(a + {k}, b + {k})
      ensures Inner((a + {k}) * (b + {k}), g)
    {
      assert g in Differ(a, b);
      InnerGrows(a * b, (a + {k}) * (b + {k}), g);
    }
  }

  /** A key that only one of them gains. */
  lemma AlikeWithOne(a: set<OrderKey>, b: set<OrderKey>, k: OrderKey)
    requires Alike(a, b) && k !in a
    ensures Alike(a + {k}, b) <==> k in b || Inner(a * b, k)
    ensures k in b ==> Inner(a * b, k)
  {
    hide Inner;
    if k in b {
      assert k in Differ(a, b);
      forall g | g in Differ(a + {k}, b)
        ensures Inner((a + {k}) * b, g)
      {
        assert g in Differ(a, b);
        InnerGrows(a * b, (a + {k}) * b, g);
      }
    } else {
      assert (a + {k}) * b == a * b && Differ(a + {k}, b) == Differ(a, b) + {k};
    }
  }

  // ----------------------------------------------------------------- the state

  /** The tables, the log as it would be had nothing ever been deleted, and the picks not yet
      deleted. */
  datatype State = State(t: Tables, whole: LogState, pending: set<OpId>)

  datatype Step =
    | Store(row: RowRef, key: OrderKey, now: int)
    | Scan(keep: nat, safeFloor: nat, pinned: set<OpId>, picked: set<OpId>)
    | Delete(pinned: set<OpId>, chunk: set<OpId>)
    | Retract(id: OpId)                         // applied = 0, then demote_head

  /** Ops are content-addressed, so a repeat of a known op is that op. A scan may stop
      anywhere, so it may pick any candidates; chunks are drawn from its picks. Only a logged
      op is demoted. */
  ghost predicate Enabled(s: State, step: Step) {
    match step
    case Store(row, key, _) =>
      var o := s.whole.oplog;
      key.opId in o ==> o[key.opId] == OpRow(key.hlc, key.device, row, o[key.opId].applied)
    case Scan(keep, safeFloor, pinned, picked) =>
      forall id | id in picked :: exists n :: Candidate(s.t, keep, safeFloor, pinned, n) && s.t.arrivals[n].op == id
    case Delete(_, chunk) => chunk <= s.pending
    case Retract(id) => id in s.t.oplog
  }

  function WithDemoted(oplog: Oplog, heads: Heads, id: OpId): LogState {
    var o := MarkedOff(oplog, id);
    LogState(o, Demoted(o, heads, id))
  }

  function WithStored(l: LogState, row: RowRef, key: OrderKey): LogState {
    if key.opId in l.oplog then l
    else var o := WithOp(l.oplog, row, key); LogState(o, Upserted(o, l.heads, row, key))
  }

  ghost function Next(s: State, step: Step): State
    requires Enabled(s, step)
  {
    match step
    case Store(row, key, now) => State(AppendedTo(s.t, row, key, now), WithStored(s.whole, row, key), s.pending)
    case Scan(_, _, _, picked) => s.(pending := picked)
    case Delete(pinned, chunk) => State(Deleted(s.t, pinned, chunk), s.whole, s.pending - chunk)
    case Retract(id) =>
      var l := WithDemoted(s.t.oplog, s.t.heads, id);
      State(s.t.(oplog := l.oplog, heads := l.heads), WithDemoted(s.whole.oplog, s.whole.heads, id), s.pending)
  }

  // ---------------------------------------------------------- what every step keeps

  /** Every stored op is an op of the whole log, but perhaps for being applied; picked ops
      are stored. */
  ghost predicate PartOf(s: State) {
    && (forall id | id in s.t.oplog :: id in s.whole.oplog && s.whole.oplog[id] == s.t.oplog[id].(applied := s.whole.oplog[id].applied))
    && (forall id | id in s.pending :: id in s.t.oplog)
  }

  ghost predicate HeadsInv(s: State, row: RowRef) {
    HeadExact(s.t.oplog, s.t.heads, row) && HeadExact(s.whole.oplog, s.whole.heads, row)
  }

  lemma StepKeepsPart(s: State, step: Step)
    requires PartOf(s) && Enabled(s, step)
    ensures PartOf(Next(s, step))
  {
    hide Upserted;
    hide Demoted;
    hide Applied;
    hide Candidate;
    if step.Scan? {
      PickedIsStored(s, step);
    }
  }

  lemma PickedIsStored(s: State, step: Step)
    requires Enabled(s, step) && step.Scan?
    ensures forall id | id in step.picked :: id in s.t.oplog && s.t.oplog[id].applied
  {
  }

  /** The keys a chunk takes from one row. */
  ghost function Taken(t: Tables, pinned: set<OpId>, chunk: set<OpId>, row: RowRef): set<OrderKey> {
    set k | k in Applied(t.oplog, row) && Drops(t, pinned, chunk, k.opId)
  }

  lemma AppliedAfterDelete(t: Tables, pinned: set<OpId>, chunk: set<OpId>, row: RowRef)
    ensures Applied(Deleted(t, pinned, chunk).oplog, row) == Applied(t.oplog, row) - Taken(t, pinned, chunk, row)
  {
  }

  lemma DeleteKeepsHead(t: Tables, pinned: set<OpId>, chunk: set<OpId>, row: RowRef)
    requires !Bulk(row) && HeadExact(t.oplog, t.heads, row)
    ensures HeadExact(Deleted(t, pinned, chunk).oplog, t.heads, row)
  {
    AppliedAfterDelete(t, pinned, chunk, row);
    if row in t.heads {
      HeadIsNotTaken(t, pinned, chunk, row);
    }
    hide Applied;
    hide Taken;
    hide Deleted;
  }

  lemma HeadIsNotTaken(t: Tables, pinned: set<OpId>, chunk: set<OpId>, row: RowRef)
    requires !Bulk(row) && row in t.heads && HeadExact(t.oplog, t.heads, row)
    ensures t.heads[row].key !in Taken(t, pinned, chunk, row)
  {
  }

  lemma StepKeepsHeads(s: State, step: Step, row: RowRef)
    requires HeadsInv(s, row) && Enabled(s, step) && !Bulk(row)
    ensures HeadsInv(Next(s, step), row)
  {
    hide HeadExact;
    hide Upserted;
    hide Demoted;
    hide Bulk;
    hide Applied;
    match step
    case Store(r, key, now) =>
      if key.opId !in s.t.oplog { UpsertKeepsHead(s.t.oplog, s.t.heads, r, key, row); }
      if key.opId !in s.whole.oplog { UpsertKeepsHead(s.whole.oplog, s.whole.heads, r, key, row); }
    case Scan(_, _, _, _) =>
    case Delete(pinned, chunk) =>
      DeleteKeepsHead(s.t, pinned, chunk, row);
      assert Deleted(s.t, pinned, chunk).heads == s.t.heads;
      hide Deleted;
    case Retract(id) =>
      DemoteKeepsHead(s.t.oplog, s.t.heads, id, row);
      DemoteKeepsHead(s.whole.oplog, s.whole.heads, id, row);
  }

  // ------------------------------------------------------------ what a reader sees

  ghost function KeysOf(s: State, row: RowRef): set<OrderKey> {
    Applied(s.t.oplog, row)
  }

  ghost function WholeOf(s: State, row: RowRef): set<OrderKey> {
    Applied(s.whole.oplog, row)
  }

  ghost predicate SameOrigin(s: State, row: RowRef) {
    && (row in s.t.heads <==> row in s.whole.heads)
    && (row in s.t.heads ==> s.t.heads[row].origin == s.whole.heads[row].origin)
  }

  /** No reader of the row can tell the stored log from the whole one: guard reads with any
      op excluded, the earliest applied op, and the stored origin. */
  ghost predicate Agree(s: State, row: RowRef) {
    && (forall exclude :: HeadFirst(s.t.oplog, s.t.heads, row, exclude) == HeadFirst(s.whole.oplog, s.whole.heads, row, exclude))
    && Least(KeysOf(s, row)) == Least(WholeOf(s, row))
    && SameOrigin(s, row)
  }

  lemma KeysAreDistinct(s: State, row: RowRef)
    requires PartOf(s)
    ensures Distinct(KeysOf(s, row) + WholeOf(s, row))
  {
  }

  lemma AgreeExactly(s: State, row: RowRef)
    requires PartOf(s) && HeadsInv(s, row)
    ensures Agree(s, row) <==> Alike(KeysOf(s, row), WholeOf(s, row)) && SameOrigin(s, row)
  {
    KeysAreDistinct(s, row);
    hide PartOf;
    hide Alike;
    hide SameOrigin;
    AlikeExactly(KeysOf(s, row), WholeOf(s, row));
    forall exclude
      ensures HeadFirst(s.t.oplog, s.t.heads, row, exclude) == Greatest(Without(KeysOf(s, row), exclude))
      ensures HeadFirst(s.whole.oplog, s.whole.heads, row, exclude) == Greatest(Without(WholeOf(s, row), exclude))
    {
      HeadFirstIsScan(s.t.oplog, s.t.heads, row, exclude);
      HeadFirstIsScan(s.whole.oplog, s.whole.heads, row, exclude);
    }
    hide HeadFirst;
    hide HeadExact;
  }

  /** When a step goes unnoticed on a row. A delete must leave two shared ops above and one
      below each shared op it takes. A demotion must leave as much around every op the logs
      do not share. A repeat of an op that was demoted and then deleted brings it back
      applied, so that op must lie in the middle. */
  ghost predicate Careful(s: State, step: Step, row: RowRef)
    requires Enabled(s, step)
  {
    var keys, full := KeysOf(s, row), WholeOf(s, row);
    match step
    case Store(r, key, _) =>
      r == row && key.opId !in s.t.oplog && key.opId in s.whole.oplog && !s.whole.oplog[key.opId].applied ==> Inner(keys * full, key)
    case Scan(_, _, _, _) => true
    case Delete(pinned, chunk) =>
      var taken := Taken(s.t, pinned, chunk, row);
      forall k | k in taken * full :: Inner(keys * full - taken, k)
    case Retract(id) => forall g | g in Differ(keys, full) && g.opId != id :: Inner(Without(keys * full, id), g)
  }

  lemma StoreKeys(s: State, step: Step, row: RowRef)
    requires PartOf(s) && step.Store? && Enabled(s, step)
    ensures var s', key := Next(s, step), step.key;
            && KeysOf(s', row) == KeysOf(s, row) + (if step.row == row && key.opId !in s.t.oplog then {key} else {})
            && WholeOf(s', row) == WholeOf(s, row) + (if step.row == row && key.opId !in s.whole.oplog then {key} else {})
            && (step.row == row && key.opId in s.whole.oplog ==> (key in WholeOf(s, row) <==> s.whole.oplog[key.opId].applied))
            && (key.opId !in s.t.oplog ==> key !in KeysOf(s, row))
  {
    hide Upserted;
    if step.key.opId !in s.t.oplog { AppliedWithOp(s.t.oplog, step.row, step.key, row); }
    if step.key.opId !in s.whole.oplog { AppliedWithOp(s.whole.oplog, step.row, step.key, row); }
  }

  lemma StoreAlike(s: State, step: Step, row: RowRef)
    requires PartOf(s) && step.Store? && Enabled(s, step) && Alike(KeysOf(s, row), WholeOf(s, row))
    ensures Alike(KeysOf(Next(s, step), row), WholeOf(Next(s, step), row)) <==> Careful(s, step, row)
    ensures (Careful(s, step, row) && step.row == row && step.key.opId !in s.t.oplog && step.key.opId in s.whole.oplog) ==>
              Inner(KeysOf(s, row) * WholeOf(s, row), step.key)
  {
    StoreKeys(s, step, row);
    var keys, full, key := KeysOf(s, row), WholeOf(s, row), step.key;
    assert keys + {} == keys && full + {} == full;
    hide KeysOf;
    hide WholeOf;
    hide Inner;
    hide Alike;
    if step.row == row && key.opId !in s.t.oplog {
      if key.opId in s.whole.oplog {
        AlikeWithOne(keys, full, key);
      } else {
        AlikeWithBoth(keys, full, key);
      }
    }
  }

  lemma StepAlike(s: State, step: Step, row: RowRef)
    requires PartOf(s) && Enabled(s, step) && Alike(KeysOf(s, row), WholeOf(s, row))
    ensures Alike(KeysOf(Next(s, step), row), WholeOf(Next(s, step), row)) <==> Careful(s, step, row)
  {
    var keys, full := KeysOf(s, row), WholeOf(s, row);
    match step
    case Store(_, _, _) => StoreAlike(s, step, row);
    case Scan(_, _, _, _) =>
    case Delete(pinned, chunk) =>
      AppliedAfterDelete(s.t, pinned, chunk, row);
      assert Taken(s.t, pinned, chunk, row) <= keys;
      AlikeTaken(keys, full, Taken(s.t, pinned, chunk, row));
    case Retract(id) =>
      AppliedMarkedOff(s.t.oplog, id, row);
      AppliedMarkedOff(s.whole.oplog, id, row);
      AlikeWithout(keys, full, id);
  }

  // ------------------------------------------------------------------ the origins

  /** Sets with one least key have a key below another at the same time. */
  lemma SameLower(a: set<OrderKey>, b: set<OrderKey>, key: OrderKey)
    requires Least(a) == Least(b)
    ensures (exists k :: k in a && Less(k, key)) <==> (exists k :: k in b && Less(k, key))
  {
    if k :| k in a && Less(k, key) { assert Least(b).value in b && Less(Least(b).value, key); }
    if k :| k in b && Less(k, key) { assert Least(a).value in a && Less(Least(a).value, key); }
  }

  /** An op in the middle of its row changes neither head nor origin. */
  lemma InnerUpsertIsNothing(oplog: Oplog, heads: Heads, row: RowRef, key: OrderKey)
    requires key.opId !in oplog && HeadExact(oplog, heads, row) && Inner(Applied(oplog, row), key)
    ensures Upserted(WithOp(oplog, row, key), heads, row, key) == heads
  {
    AppliedWithOp(oplog, row, key, row);
    hide Applied;
    var lo, a, b :| lo in Applied(oplog, row) && a in Applied(oplog, row) && b in Applied(oplog, row) && Less(lo, key) && Less(key, a) && Less(a, b);
    assert lo in Applied(WithOp(oplog, row, key), row);
  }

  /** Two heads tables in step stay so when a new op finds a lower one in both logs or in
      neither. */
  lemma UpsertSameOrigin(a: Oplog, b: Oplog, ha: Heads, hb: Heads, row: RowRef, key: OrderKey)
    requires HasLower(a, row, key) <==> HasLower(b, row, key)
    requires (row in ha <==> row in hb) && (row in ha ==> ha[row].origin == hb[row].origin)
    ensures var ha', hb' := Upserted(a, ha, row, key), Upserted(b, hb, row, key);
            row in ha' && row in hb' && ha'[row].origin == hb'[row].origin
  {
    hide HasLower;
  }

  lemma UpsertElsewhere(oplog: Oplog, heads: Heads, row: RowRef, key: OrderKey, other: RowRef)
    requires other != row
    ensures var heads' := Upserted(oplog, heads, row, key);
            (other in heads' <==> other in heads) && (other in heads ==> heads'[other] == heads[other])
  {
  }

  /** An op that is new to both logs finds a lower one in both or in neither. */
  lemma SameLowerAfter(a: Oplog, b: Oplog, row: RowRef, key: OrderKey)
    requires key.opId !in a && key.opId !in b && Least(Applied(a, row)) == Least(Applied(b, row))
    ensures HasLower(WithOp(a, row, key), row, key) <==> HasLower(WithOp(b, row, key), row, key)
  {
    AppliedWithOp(a, row, key, row);
    AppliedWithOp(b, row, key, row);
    SameLower(Applied(a, row), Applied(b, row), key);
    hide Applied;
    hide WithOp;
  }

  lemma StoreKeepsOrigin(s: State, step: Step, row: RowRef)
    requires PartOf(s) && HeadsInv(s, row) && step.Store? && Enabled(s, step) && SameOrigin(s, row)
    requires Least(KeysOf(s, row)) == Least(WholeOf(s, row))
    requires step.row == row && step.key.opId !in s.t.oplog && step.key.opId in s.whole.oplog ==> Inner(KeysOf(s, row), step.key)
    ensures SameOrigin(Next(s, step), row)
  {
    hide Upserted;
    hide Applied;
    hide WithOp;
    hide Inner;
    var key, l := step.key, s.whole;
    if key.opId !in s.t.oplog {
      var o := WithOp(s.t.oplog, step.row, key);
      if step.row != row {
        UpsertElsewhere(o, s.t.heads, step.row, key, row);
        UpsertElsewhere(WithOp(l.oplog, step.row, key), l.heads, step.row, key, row);
      } else if key.opId in l.oplog {
        InnerUpsertIsNothing(s.t.oplog, s.t.heads, row, key);
      } else {
        SameLowerAfter(s.t.oplog, l.oplog, row, key);
        UpsertSameOrigin(o, WithOp(l.oplog, row, key), s.t.heads, l.heads, row, key);
      }
    }
  }

  lemma DemoteKeepsOrigin(s: State, id: OpId, row: RowRef)
    requires PartOf(s) && HeadsInv(s, row) && Enabled(s, Retract(id)) && SameOrigin(s, row)
    requires Greatest(KeysOf(s, row)) == Greatest(WholeOf(s, row))
    requires Without(KeysOf(s, row), id) == {} <==> Without(WholeOf(s, row), id) == {}
    ensures SameOrigin(Next(s, Retract(id)), row)
  {
    hide Applied;
    hide HeadExact;
    hide MarkedOff;
    AppliedMarkedOff(s.t.oplog, id, row);
    AppliedMarkedOff(s.whole.oplog, id, row);
    MarkedOffRow(s.t.oplog, id);
    MarkedOffRow(s.whole.oplog, id);
    if row in s.t.heads {
      SameHead(s, row);
    }
  }

  lemma MarkedOffRow(oplog: Oplog, id: OpId)
    requires id in oplog
    ensures id in MarkedOff(oplog, id) && MarkedOff(oplog, id)[id].row == oplog[id].row
  {
  }

  lemma SameHead(s: State, row: RowRef)
    requires HeadsInv(s, row) && row in s.t.heads && row in s.whole.heads && Greatest(KeysOf(s, row)) == Greatest(WholeOf(s, row))
    ensures s.t.heads[row].key == s.whole.heads[row].key
  {
  }

  lemma AlikeEmpty(a: set<OrderKey>, b: set<OrderKey>)
    requires Alike(a, b)
    ensures a == {} <==> b == {}
  {
    if g :| g in Differ(a, b) {
      var lo :| lo in a * b && Less(lo, g);
    } else {
      forall k
        ensures k in a <==> k in b
      {
        assert k !in Differ(a, b);
      }
    }
  }

  lemma StepKeepsOrigin(s: State, step: Step, row: RowRef)
    requires PartOf(s) && HeadsInv(s, row) && Enabled(s, step) && SameOrigin(s, row)
    requires Alike(KeysOf(s, row), WholeOf(s, row)) && Careful(s, step, row)
    ensures SameOrigin(Next(s, step), row)
  {
    var keys, full := KeysOf(s, row), WholeOf(s, row);
    KeysAreDistinct(s, row);
    AlikeReadsSame(keys, full);
    match step
    case Store(_, key, _) =>
      StoreAlike(s, step, row);
      if step.row == row && key.opId !in s.t.oplog && key.opId in s.whole.oplog {
        InnerGrows(keys * full, keys, key);
      }
      StoreKeepsOrigin(s, step, row);
    case Scan(_, _, _, _) =>
    case Delete(pinned, chunk) => assert Deleted(s.t, pinned, chunk).heads == s.t.heads;
    case Retract(id) =>
      AlikeWithout(keys, full, id);
      AlikeEmpty(Without(keys, id), Without(full, id));
      DemoteKeepsOrigin(s, id, row);
  }

  /** From a state in which no reader of the row can tell the logs apart, a step leaves one if
      and only if it is careful. */
  lemma StepExactly(s: State, step: Step, row: RowRef)
    requires PartOf(s) && HeadsInv(s, row) && Enabled(s, step) && !Bulk(row) && Agree(s, row)
    ensures Agree(Next(s, step), row) <==> Careful(s, step, row)
  {
    hide PartOf;
    hide HeadsInv;
    hide Agree;
    hide Bulk;
    hide Next;
    hide Careful;
    hide SameOrigin;
    hide Alike;
    hide KeysOf;
    hide WholeOf;
    StepKeepsPart(s, step);
    StepKeepsHeads(s, step, row);
    AgreeExactly(s, row);
    AgreeExactly(Next(s, step), row);
    StepAlike(s, step, row);
    if Careful(s, step, row) {
      StepKeepsOrigin(s, step, row);
    }
  }

  // ----------------------------------------------------------------- arrivals

  ghost predicate Numbered(arrivals: map<nat, Arrival>, id: OpId) {
    exists n :: n in arrivals && arrivals[n].op == id
  }

  /** Every arrival's op is logged, every logged op has one arrival. */
  ghost predicate OneToOne(arrivals: map<nat, Arrival>, oplog: Oplog) {
    && (forall n | n in arrivals :: n > 0 && arrivals[n].op in oplog)
    && (forall m, n | m in arrivals && n in arrivals && arrivals[m].op == arrivals[n].op :: m == n)
    && (forall id | id in oplog :: Numbered(arrivals, id))
  }

  /** Missing numbers lie at or below the floor, and the floor at or below the newest. */
  ghost predicate HolesBelow(numbers: set<nat>, floor: nat) {
    && (forall n: nat | 0 < n <= Top(numbers) :: n in numbers || n <= floor)
    && floor <= Top(numbers)
  }

  /** Nothing picked is the newest arrival. */
  ghost predicate NewestKept(arrivals: map<nat, Arrival>, pending: set<OpId>) {
    forall n | n in arrivals && arrivals[n].op in pending :: n < Top(arrivals.Keys)
  }

  ghost predicate ArrivalsInv(s: State) {
    && OneToOne(s.t.arrivals, s.t.oplog)
    && HolesBelow(s.t.arrivals.Keys, s.t.floor)
    && NewestKept(s.t.arrivals, s.pending)
  }

  lemma OneMore(arrivals: map<nat, Arrival>, oplog: Oplog, n: nat, now: int, id: OpId, r: OpRow)
    requires OneToOne(arrivals, oplog) && n > 0 && n !in arrivals && id !in oplog
    ensures OneToOne(arrivals[n := Arrival(id, now)], oplog[id := r])
  {
    var more := arrivals[n := Arrival(id, now)];
    forall i | i in oplog[id := r]
      ensures Numbered(more, i)
    {
      if i == id {
        assert more[n].op == i;
      } else {
        assert Numbered(arrivals, i);
        var m :| m in arrivals && arrivals[m].op == i;
        assert more[m].op == i;
      }
    }
  }

  lemma HolesAfterAppend(numbers: set<nat>, floor: nat)
    requires HolesBelow(numbers, floor)
    ensures HolesBelow(numbers + {Top(numbers) + 1}, floor)
  {
  }

  lemma NewestAfterAppend(arrivals: map<nat, Arrival>, pending: set<OpId>, id: OpId, now: int)
    requires NewestKept(arrivals, pending) && id !in pending
    ensures NewestKept(arrivals[Top(arrivals.Keys) + 1 := Arrival(id, now)], pending)
  {
    var n := Top(arrivals.Keys) + 1;
    var more := arrivals[n := Arrival(id, now)];
    assert n in more.Keys && IsTop(more.Keys, Top(more.Keys));
  }

  lemma ArrivalsAfterAppend(t: Tables, pending: set<OpId>, row: RowRef, key: OrderKey, now: int)
    requires OneToOne(t.arrivals, t.oplog) && HolesBelow(t.arrivals.Keys, t.floor) && NewestKept(t.arrivals, pending)
    requires key.opId !in t.oplog && key.opId !in pending
    ensures var t' := AppendedTo(t, row, key, now);
            OneToOne(t'.arrivals, t'.oplog) && HolesBelow(t'.arrivals.Keys, t'.floor) && NewestKept(t'.arrivals, pending)
  {
    hide OneToOne;
    hide HolesBelow;
    hide NewestKept;
    hide Upserted;
    hide Applied;
    var n := Top(t.arrivals.Keys) + 1;
    HolesAfterAppend(t.arrivals.Keys, t.floor);
    NewestAfterAppend(t.arrivals, pending, key.opId, now);
    assert n !in t.arrivals.Keys;
    OneMore(t.arrivals, t.oplog, n, now, key.opId, OpRow(key.hlc, key.device, row, true));
    assert t.arrivals[n := Arrival(key.opId, now)].Keys == t.arrivals.Keys + {n};
  }

  lemma AppendKeepsArrivals(s: State, row: RowRef, key: OrderKey, now: int)
    requires PartOf(s) && ArrivalsInv(s) && Enabled(s, Store(row, key, now))
    ensures ArrivalsInv(Next(s, Store(row, key, now)))
  {
    hide OneToOne;
    hide HolesBelow;
    hide NewestKept;
    if key.opId !in s.t.oplog {
      ArrivalsAfterAppend(s.t, s.pending, row, key, now);
      hide AppendedTo;
    }
  }

  lemma ScanKeepsArrivals(s: State, step: Step)
    requires ArrivalsInv(s) && step.Scan? && Enabled(s, step)
    ensures ArrivalsInv(Next(s, step))
  {
  }

  /** What a delete does to the two tables, in terms of the ops it drops. */
  lemma DeletedShape(t: Tables, pinned: set<OpId>, chunk: set<OpId>)
    ensures var t' := Deleted(t, pinned, chunk);
            && (forall n :: n in t'.arrivals <==> n in t.arrivals && !Drops(t, pinned, chunk, t.arrivals[n].op))
            && (forall n | n in t'.arrivals :: t'.arrivals[n] == t.arrivals[n])
            && (forall id :: id in t'.oplog <==> id in t.oplog && !Drops(t, pinned, chunk, id))
  {
  }

  /** The floor rises to the greatest number dropped. */
  lemma DeletedFloor(t: Tables, pinned: set<OpId>, chunk: set<OpId>, n: nat)
    requires forall m | m in t.arrivals :: t.arrivals[m].op in t.oplog
    requires n in t.arrivals && Drops(t, pinned, chunk, t.arrivals[n].op)
    ensures n <= Deleted(t, pinned, chunk).floor
  {
    hide Drops;
    assert t.arrivals[n].op in Gone(t, pinned, chunk);
    assert n in NumbersOf(t, Gone(t, pinned, chunk));
  }

  lemma DeletedFloorIsNumbered(t: Tables, pinned: set<OpId>, chunk: set<OpId>)
    ensures var floor := Deleted(t, pinned, chunk).floor;
            floor >= t.floor && (floor == t.floor || (floor in t.arrivals && Drops(t, pinned, chunk, t.arrivals[floor].op)))
  {
  }

  lemma DeleteKeepsOneToOne(t: Tables, pinned: set<OpId>, chunk: set<OpId>)
    requires OneToOne(t.arrivals, t.oplog)
    ensures OneToOne(Deleted(t, pinned, chunk).arrivals, Deleted(t, pinned, chunk).oplog)
  {
    DeletedShape(t, pinned, chunk);
    var t' := Deleted(t, pinned, chunk);
    hide Deleted;
    hide Drops;
    forall id | id in t'.oplog
      ensures Numbered(t'.arrivals, id)
    {
      assert Numbered(t.arrivals, id);
      var n :| n in t.arrivals && t.arrivals[n].op == id;
      assert n in t'.arrivals;
    }
  }

  /** A delete never takes the newest arrival. */
  lemma DeleteKeepsTop(s: State, pinned: set<OpId>, chunk: set<OpId>)
    requires NewestKept(s.t.arrivals, s.pending) && chunk <= s.pending
    ensures Top(Deleted(s.t, pinned, chunk).arrivals.Keys) == Top(s.t.arrivals.Keys)
  {
    DeletedShape(s.t, pinned, chunk);
    var t' := Deleted(s.t, pinned, chunk);
    var top := Top(s.t.arrivals.Keys);
    hide Deleted;
    if s.t.arrivals.Keys != {} {
      assert top in s.t.arrivals.Keys;
      assert top in t'.arrivals.Keys;
    } else {
      assert t'.arrivals.Keys == {};
    }
  }

  lemma HolesAfterDelete(numbers: set<nat>, fewer: set<nat>, floor: nat, floor': nat)
    requires HolesBelow(numbers, floor) && fewer <= numbers && Top(fewer) == Top(numbers)
    requires floor <= floor' && (floor' == floor || floor' in numbers)
    requires forall n | n in numbers && n !in fewer :: n <= floor'
    ensures HolesBelow(fewer, floor')
  {
  }

  lemma DeleteKeepsHoles(s: State, pinned: set<OpId>, chunk: set<OpId>)
    requires ArrivalsInv(s) && chunk <= s.pending
    ensures HolesBelow(Deleted(s.t, pinned, chunk).arrivals.Keys, Deleted(s.t, pinned, chunk).floor)
  {
    var t, t' := s.t, Deleted(s.t, pinned, chunk);
    DeleteKeepsTop(s, pinned, chunk);
    DeletedShape(t, pinned, chunk);
    DeletedFloorIsNumbered(t, pinned, chunk);
    hide Drops;
    hide Deleted;
    hide NewestKept;
    hide HolesBelow;
    forall n | n in t.arrivals.Keys && n !in t'.arrivals.Keys
      ensures n <= t'.floor
    {
      DeletedFloor(t, pinned, chunk, n);
    }
    HolesAfterDelete(t.arrivals.Keys, t'.arrivals.Keys, t.floor, t'.floor);
  }

  lemma DeleteKeepsArrivals(s: State, pinned: set<OpId>, chunk: set<OpId>)
    requires ArrivalsInv(s) && chunk <= s.pending
    ensures ArrivalsInv(Next(s, Delete(pinned, chunk)))
  {
    DeleteKeepsOneToOne(s.t, pinned, chunk);
    DeleteKeepsHoles(s, pinned, chunk);
    DeleteKeepsTop(s, pinned, chunk);
    DeletedShape(s.t, pinned, chunk);
    hide Deleted;
    hide Drops;
    hide OneToOne;
    hide HolesBelow;
  }

  lemma DemoteKeepsArrivals(s: State, id: OpId)
    requires ArrivalsInv(s) && Enabled(s, Retract(id))
    ensures ArrivalsInv(Next(s, Retract(id)))
  {
    hide HolesBelow;
    hide NewestKept;
    hide Demoted;
  }

  // ----------------------------------------------------------------- all runs

  /** A sound database that nothing has been deleted from under this reference. */
  ghost predicate Start(s: State) {
    && s.whole == LogState(s.t.oplog, s.t.heads) && s.pending == {} && ArrivalsInv(s)
    && forall row | !Bulk(row) :: HeadExact(s.t.oplog, s.t.heads, row) && OriginExact(s.t.oplog, s.t.heads, row)
  }

  lemma StepKeepsArrivals(s: State, step: Step)
    requires PartOf(s) && ArrivalsInv(s) && Enabled(s, step)
    ensures ArrivalsInv(Next(s, step))
  {
    hide ArrivalsInv;
    hide PartOf;
    match step
    case Store(row, key, now) => AppendKeepsArrivals(s, row, key, now);
    case Scan(_, _, _, _) => ScanKeepsArrivals(s, step);
    case Delete(pinned, chunk) => DeleteKeepsArrivals(s, pinned, chunk);
    case Retract(id) => DemoteKeepsArrivals(s, id);
  }

  ghost predicate IsRun(run: seq<State>, steps: seq<Step>) {
    && |run| == |steps| + 1 && Start(run[0])
    && forall i | 0 <= i < |steps| :: Enabled(run[i], steps[i]) && run[i + 1] == Next(run[i], steps[i])
  }

  /** Whatever is kept and demoted, arrivals and ops stay one to one, every missing number is
      at or below the floor, and the newest arrival is never picked. */
  lemma {:induction false} EveryRunKeepsArrivals(run: seq<State>, steps: seq<Step>, i: nat)
    requires IsRun(run, steps) && i < |run|
    ensures PartOf(run[i]) && ArrivalsInv(run[i])
  {
    hide ArrivalsInv;
    hide Next;
    hide Enabled;
    if i > 0 {
      EveryRunKeepsArrivals(run, steps, i - 1);
      hide PartOf;
      hide Start;
      assert run[i - 1 + 1] == Next(run[i - 1], steps[i - 1]);
      StepKeepsPart(run[i - 1], steps[i - 1]);
      StepKeepsArrivals(run[i - 1], steps[i - 1]);
    }
  }

  lemma {:induction false} EveryRunKeepsHeads(run: seq<State>, steps: seq<Step>, i: nat, row: RowRef)
    requires IsRun(run, steps) && i < |run| && !Bulk(row)
    ensures HeadsInv(run[i], row)
  {
    hide HeadExact;
    hide Applied;
    hide ArrivalsInv;
    if i > 0 {
      EveryRunKeepsHeads(run, steps, i - 1, row);
      assert run[i - 1 + 1] == Next(run[i - 1], steps[i - 1]);
      StepKeepsHeads(run[i - 1], steps[i - 1], row);
    }
  }

  ghost predicate AgreeThroughout(run: seq<State>, row: RowRef) {
    forall i | 0 <= i < |run| :: Agree(run[i], row)
  }

  ghost predicate CarefulUpTo(run: seq<State>, steps: seq<Step>, row: RowRef, n: nat)
    requires IsRun(run, steps) && n <= |steps|
  {
    forall i | 0 <= i < n :: Careful(run[i], steps[i], row)
  }

  lemma StartAgrees(s: State, row: RowRef)
    requires Start(s)
    ensures Agree(s, row)
  {
  }

  lemma {:induction false} CarefulAgrees(run: seq<State>, steps: seq<Step>, row: RowRef, n: nat)
    requires IsRun(run, steps) && n < |run| && !Bulk(row) && CarefulUpTo(run, steps, row, n)
    ensures Agree(run[n], row)
  {
    hide Agree;
    hide Careful;
    hide Bulk;
    hide Start;
    if n == 0 {
      StartAgrees(run[0], row);
    } else {
      CarefulAgrees(run, steps, row, n - 1);
      EveryRunKeepsArrivals(run, steps, n - 1);
      EveryRunKeepsHeads(run, steps, n - 1, row);
      hide PartOf;
      hide HeadsInv;
      hide ArrivalsInv;
      assert run[n - 1 + 1] == Next(run[n - 1], steps[n - 1]);
      StepExactly(run[n - 1], steps[n - 1], row);
    }
  }

  /** With demotions anywhere, no reader of a row outside the bulk tables can ever tell that
      anything was deleted if and only if every step of the run was careful. */
  lemma AgreeThroughoutExactly(run: seq<State>, steps: seq<Step>, row: RowRef)
    requires IsRun(run, steps) && !Bulk(row)
    ensures AgreeThroughout(run, row) <==> CarefulUpTo(run, steps, row, |steps|)
  {
    hide Agree;
    hide Careful;
    hide Bulk;
    hide Start;
    if CarefulUpTo(run, steps, row, |steps|) {
      forall i | 0 <= i < |run|
        ensures Agree(run[i], row)
      {
        CarefulAgrees(run, steps, row, i);
      }
    }
    if AgreeThroughout(run, row) {
      forall i | 0 <= i < |steps|
        ensures Careful(run[i], steps[i], row)
      {
        EveryRunKeepsArrivals(run, steps, i);
        EveryRunKeepsHeads(run, steps, i, row);
        hide PartOf;
        hide HeadsInv;
        hide ArrivalsInv;
        assert run[i + 1] == Next(run[i], steps[i]);
        StepExactly(run[i], steps[i], row);
      }
    }
  }

  // ------------------------------------------------------- runs without demotions

  /** Stored ops are as in the whole log; what is missing, or picked, was applied. */
  ghost predicate Undemoted(s: State) {
    && (forall id | id in s.t.oplog :: id in s.whole.oplog && s.whole.oplog[id] == s.t.oplog[id])
    && (forall id | id in s.whole.oplog && id !in s.t.oplog :: s.whole.oplog[id].applied)
    && (forall id | id in s.pending :: id in s.t.oplog && s.t.oplog[id].applied)
  }

  /** What is missing, and what is picked, lies in the middle of its row. */
  ghost predicate RowInv(s: State, row: RowRef) {
    var keys, full := KeysOf(s, row), WholeOf(s, row);
    && keys <= full && (forall k | k in full - keys :: Inner(keys, k))
    && (forall k | k in keys && k.opId in s.pending :: Inner(keys, k))
    && OriginExact(s.whole.oplog, s.whole.heads, row)
  }

  lemma StepKeepsUndemoted(s: State, step: Step)
    requires Undemoted(s) && Enabled(s, step) && !step.Retract?
    ensures Undemoted(Next(s, step))
  {
    hide Upserted;
    hide Applied;
    hide Candidate;
    if step.Scan? {
      PickedIsStored(s, step);
    }
  }

  lemma RowWithMore(s: State, s': State, row: RowRef, k: OrderKey)
    requires RowInv(s, row) && s'.pending == s.pending && k.opId !in s.pending
    requires KeysOf(s', row) == KeysOf(s, row) + {k} && WholeOf(s', row) == WholeOf(s, row) + {k}
    requires OriginExact(s'.whole.oplog, s'.whole.heads, row)
    ensures RowInv(s', row)
  {
    hide KeysOf;
    hide WholeOf;
    hide OriginExact;
    hide Inner;
    var keys := KeysOf(s, row);
    forall g | Inner(keys, g)
      ensures Inner(keys + {k}, g)
    {
      InnerGrows(keys, keys + {k}, g);
    }
  }

  lemma StoreKeepsRow(s: State, step: Step, row: RowRef)
    requires PartOf(s) && Undemoted(s) && RowInv(s, row) && HeadsInv(s, row) && step.Store? && Enabled(s, step)
    ensures RowInv(Next(s, step), row)
  {
    var s', key := Next(s, step), step.key;
    StoreKeys(s, step, row);
    assert OriginExact(s'.whole.oplog, s'.whole.heads, row) by {
      if key.opId !in s.whole.oplog { UpsertKeepsOrigin(s.whole.oplog, s.whole.heads, step.row, key, row); }
    }
    hide OriginExact;
    hide HeadsInv;
    hide PartOf;
    if step.row == row && key.opId !in s.t.oplog {
      assert key.opId !in s.pending;
      assert key.opId in s.whole.oplog ==> key in WholeOf(s, row);
      hide Undemoted;
      hide KeysOf;
      hide WholeOf;
      hide Next;
      hide Enabled;
      assert WholeOf(s', row) == WholeOf(s, row) + {key};
      RowWithMore(s, s', row, key);
    } else {
      UntouchedRow(s, s', row);
    }
  }

  lemma UntouchedRow(s: State, s': State, row: RowRef)
    requires RowInv(s, row) && s'.pending == s.pending && KeysOf(s', row) == KeysOf(s, row)
    requires WholeOf(s', row) == WholeOf(s, row) || exists k :: k in KeysOf(s, row) && WholeOf(s', row) == WholeOf(s, row) + {k}
    requires OriginExact(s'.whole.oplog, s'.whole.heads, row)
    ensures RowInv(s', row)
  {
    hide OriginExact;
    hide KeysOf;
    hide WholeOf;
    hide Inner;
  }

  lemma ScanKeepsRow(s: State, step: Step, row: RowRef)
    requires RowInv(s, row) && !Bulk(row) && step.Scan? && step.keep >= 2 && Enabled(s, step)
    ensures RowInv(Next(s, step), row)
  {
    hide Bulk;
    hide OriginExact;
    var keys := KeysOf(s, row);
    forall k | k in keys && k.opId in step.picked
      ensures Inner(keys, k)
    {
      var n :| Candidate(s.t, step.keep, step.safeFloor, step.pinned, n) && s.t.arrivals[n].op == k.opId;
      assert IsApplied(s.t.oplog, row, k);
      ShadowedIsInner(s.t, step.keep, k.opId);
    }
  }

  lemma RowWithLess(s: State, s': State, row: RowRef, gone: set<OrderKey>)
    requires RowInv(s, row) && s'.whole == s.whole && s'.pending <= s.pending
    requires KeysOf(s', row) == KeysOf(s, row) - gone
    requires forall k | k in gone :: k in KeysOf(s, row) && k.opId in s.pending
    ensures RowInv(s', row)
  {
    hide KeysOf;
    hide OriginExact;
    hide Inner;
    var keys := KeysOf(s, row);
    forall k | Inner(keys, k)
      ensures Inner(keys - gone, k)
    {
      InnerSurvives(keys, gone, k);
    }
  }

  lemma TakenWasPending(t: Tables, pinned: set<OpId>, chunk: set<OpId>, row: RowRef)
    ensures forall k | k in Taken(t, pinned, chunk, row) :: k in Applied(t.oplog, row) && k.opId in chunk
  {
  }

  lemma DeleteKeepsRow(s: State, step: Step, row: RowRef)
    requires RowInv(s, row) && step.Delete? && Enabled(s, step)
    ensures RowInv(Next(s, step), row)
  {
    AppliedAfterDelete(s.t, step.pinned, step.chunk, row);
    TakenWasPending(s.t, step.pinned, step.chunk, row);
    var gone := Taken(s.t, step.pinned, step.chunk, row);
    hide Applied;
    hide Taken;
    hide Deleted;
    hide RowInv;
    RowWithLess(s, Next(s, step), row, gone);
  }

  lemma StepKeepsRow(s: State, step: Step, row: RowRef)
    requires PartOf(s) && Undemoted(s) && HeadsInv(s, row) && RowInv(s, row) && Enabled(s, step) && !Bulk(row)
    requires !step.Retract? && (step.Scan? ==> step.keep >= 2)
    ensures RowInv(Next(s, step), row)
  {
    hide RowInv;
    hide Bulk;
    hide PartOf;
    hide Undemoted;
    hide HeadsInv;
    match step
    case Store(_, _, _) => StoreKeepsRow(s, step, row);
    case Scan(_, _, _, _) => ScanKeepsRow(s, step, row);
    case Delete(_, _) => DeleteKeepsRow(s, step, row);
  }

  /** In such a state every step without demotions is careful. */
  lemma RowIsCareful(s: State, step: Step, row: RowRef)
    requires Undemoted(s) && RowInv(s, row) && Enabled(s, step) && !step.Retract?
    ensures Careful(s, step, row)
  {
    if step.Delete? {
      TakenWasPending(s.t, step.pinned, step.chunk, row);
      var keys, full, taken := KeysOf(s, row), WholeOf(s, row), Taken(s.t, step.pinned, step.chunk, row);
      assert keys * full == keys;
      hide Inner;
      forall k | k in taken * full
        ensures Inner(keys * full - taken, k)
      {
        InnerSurvives(keys, taken, k);
      }
    }
  }

  // ------------------------------------------------------------------- policies

  /** Without demotions, and every scan asked to keep a number of ops per row that the
      policies allow. */
  ghost predicate Within(steps: seq<Step>, policies: iset<nat>) {
    forall i | 0 <= i < |steps| :: !steps[i].Retract? && (steps[i].Scan? ==> steps[i].keep in policies)
  }

  /** No policy keeps fewer than two ops per row. */
  ghost predicate KeepTwo(policies: iset<nat>) {
    forall keep | keep in policies :: keep >= 2
  }

  lemma StartHasRow(s: State, row: RowRef)
    requires Start(s) && !Bulk(row)
    ensures Undemoted(s) && RowInv(s, row)
  {
  }

  lemma {:induction false} EveryRunKeepsRow(run: seq<State>, steps: seq<Step>, policies: iset<nat>, i: nat, row: RowRef)
    requires IsRun(run, steps) && Within(steps, policies) && KeepTwo(policies) && i < |run| && !Bulk(row)
    ensures Undemoted(run[i]) && RowInv(run[i], row)
  {
    hide Undemoted;
    hide RowInv;
    hide Bulk;
    hide Start;
    hide Next;
    hide Enabled;
    hide PartOf;
    hide ArrivalsInv;
    hide HeadsInv;
    if i == 0 {
      StartHasRow(run[0], row);
    } else {
      EveryRunKeepsRow(run, steps, policies, i - 1, row);
      EveryRunKeepsArrivals(run, steps, i - 1);
      EveryRunKeepsHeads(run, steps, i - 1, row);
      assert run[i - 1 + 1] == Next(run[i - 1], steps[i - 1]);
      StepKeepsUndemoted(run[i - 1], steps[i - 1]);
      StepKeepsRow(run[i - 1], steps[i - 1], row);
    }
  }

  /** Every guard read of a row answers as if nothing had been deleted, whatever op it
      excludes; the row's earliest applied op is still there, and the stored origin still
      names its device. */
  ghost predicate Invisible(s: State, row: RowRef) {
    && (forall exclude :: HeadFirst(s.t.oplog, s.t.heads, row, exclude) == Greatest(Without(WholeOf(s, row), exclude)))
    && Least(KeysOf(s, row)) == Least(WholeOf(s, row))
    && (row in s.t.heads ==> Least(WholeOf(s, row)).Some? && s.t.heads[row].origin == Least(WholeOf(s, row)).value.device)
  }

  lemma AgreeIsInvisible(s: State, row: RowRef)
    requires Agree(s, row) && HeadsInv(s, row) && OriginExact(s.whole.oplog, s.whole.heads, row)
    ensures Invisible(s, row)
  {
    forall exclude
      ensures HeadFirst(s.t.oplog, s.t.heads, row, exclude) == Greatest(Without(WholeOf(s, row), exclude))
    {
      HeadFirstIsScan(s.whole.oplog, s.whole.heads, row, exclude);
    }
    hide HeadFirst;
    hide HeadExact;
  }

  /** With two ops kept per row, any number of passes leaves no trace outside the bulk
      tables. */
  lemma CompactionIsInvisible(run: seq<State>, steps: seq<Step>, policies: iset<nat>, i: nat, row: RowRef)
    requires IsRun(run, steps) && Within(steps, policies) && KeepTwo(policies) && i < |run| && !Bulk(row)
    ensures Invisible(run[i], row)
  {
    hide Bulk;
    hide Careful;
    hide Agree;
    hide Invisible;
    hide Start;
    forall j | 0 <= j < i
      ensures Careful(run[j], steps[j], row)
    {
      EveryRunKeepsRow(run, steps, policies, j, row);
      hide Undemoted;
      hide RowInv;
      RowIsCareful(run[j], steps[j], row);
    }
    CarefulAgrees(run, steps, row, i);
    EveryRunKeepsHeads(run, steps, i, row);
    hide HeadsInv;
    EveryRunKeepsRow(run, steps, policies, i, row);
    hide Undemoted;
    AgreeIsInvisible(run[i], row);
  }

  // ------------------------------------------------- what the policy promises

  /** Every op of the row that is missing, or picked, has `keep` greater applied ops of its
      row in the whole log, and a smaller one. */
  ghost predicate PolicyInv(s: State, keep: nat, row: RowRef) {
    forall k | k in WholeOf(s, row) && (k !in KeysOf(s, row) || k.opId in s.pending) :: Crowded(s.whole.oplog, keep, k.opId)
  }

  lemma CrowdedGrows(a: Oplog, b: Oplog, keep: nat, id: OpId)
    requires id in a && id in b && b[id] == a[id] && Crowded(a, keep, id)
    requires forall k | IsApplied(a, a[id].row, k) :: IsApplied(b, a[id].row, k)
    ensures Crowded(b, keep, id)
  {
    var row, key := a[id].row, KeyOf(id, a[id]);
    var above :| |above| == keep && AllAbove(a, row, key, above);
    assert AllAbove(b, row, key, above);
  }

  lemma CrowdedByMore(oplog: Oplog, keep: nat, more: nat, id: OpId)
    requires id in oplog && Crowded(oplog, more, id) && keep <= more
    ensures Crowded(oplog, keep, id)
  {
    var row, key := oplog[id].row, KeyOf(id, oplog[id]);
    var above :| |above| == more && AllAbove(oplog, row, key, above);
    var some := SubsetOfSize(above, keep);
    assert AllAbove(oplog, row, key, some);
  }

  lemma PartIsApplied(s: State, row: RowRef, k: OrderKey)
    requires Undemoted(s) && IsApplied(s.t.oplog, row, k)
    ensures IsApplied(s.whole.oplog, row, k)
  {
  }

  lemma PickedIsCrowded(s: State, step: Step, keep: nat, row: RowRef, k: OrderKey)
    requires Undemoted(s) && step.Scan? && step.keep >= keep && Enabled(s, step) && !Bulk(row)
    requires k in WholeOf(s, row) && k.opId in step.picked
    ensures Crowded(s.whole.oplog, keep, k.opId)
  {
    var id := k.opId;
    var n :| Candidate(s.t, step.keep, step.safeFloor, step.pinned, n) && s.t.arrivals[n].op == id;
    CandidateExactly(s.t, step.keep, step.safeFloor, step.pinned, n);
    hide Candidate;
    hide Bulk;
    assert IsApplied(s.whole.oplog, row, k);
    forall j | IsApplied(s.t.oplog, row, j)
      ensures IsApplied(s.whole.oplog, row, j)
    {
      PartIsApplied(s, row, j);
    }
    CrowdedGrows(s.t.oplog, s.whole.oplog, step.keep, id);
    CrowdedByMore(s.whole.oplog, keep, step.keep, id);
  }

  lemma StorePolicy(s: State, step: Step, keep: nat, row: RowRef)
    requires PartOf(s) && Undemoted(s) && PolicyInv(s, keep, row) && step.Store? && Enabled(s, step)
    ensures PolicyInv(Next(s, step), keep, row)
  {
    var s', key := Next(s, step), step.key;
    StoreKeys(s, step, row);
    hide Crowded;
    hide Upserted;
    forall k | k in WholeOf(s', row) && (k !in KeysOf(s', row) || k.opId in s'.pending)
      ensures Crowded(s'.whole.oplog, keep, k.opId)
    {
      assert k in WholeOf(s, row) && (k !in KeysOf(s, row) || k.opId in s.pending);
      assert IsApplied(s.whole.oplog, row, k);
      CrowdedGrows(s.whole.oplog, s'.whole.oplog, keep, k.opId);
    }
  }

  lemma DeletePolicy(s: State, step: Step, keep: nat, row: RowRef)
    requires PolicyInv(s, keep, row) && step.Delete? && Enabled(s, step)
    ensures PolicyInv(Next(s, step), keep, row)
  {
    AppliedAfterDelete(s.t, step.pinned, step.chunk, row);
    TakenWasPending(s.t, step.pinned, step.chunk, row);
    hide Crowded;
    hide Taken;
    hide Deleted;
    hide Applied;
  }

  lemma StepKeepsPolicy(s: State, step: Step, keep: nat, row: RowRef)
    requires PartOf(s) && Undemoted(s) && PolicyInv(s, keep, row) && Enabled(s, step) && !Bulk(row)
    requires !step.Retract? && (step.Scan? ==> step.keep >= keep)
    ensures PolicyInv(Next(s, step), keep, row)
  {
    hide Crowded;
    match step
    case Store(_, _, _) => StorePolicy(s, step, keep, row);
    case Delete(_, _) => DeletePolicy(s, step, keep, row);
    case Scan(_, _, _, picked) =>
      forall k | k in WholeOf(s, row) && k.opId in picked
        ensures Crowded(s.whole.oplog, keep, k.opId)
      {
        PickedIsCrowded(s, step, keep, row, k);
      }
  }

  /** Without demotions, and every scan asked to keep at least `keep` ops per row. */
  ghost predicate KeepsAtLeast(steps: seq<Step>, keep: nat) {
    forall i | 0 <= i < |steps| :: !steps[i].Retract? && (steps[i].Scan? ==> steps[i].keep >= keep)
  }

  lemma {:induction false} EveryRunKeepsPolicy(run: seq<State>, steps: seq<Step>, keep: nat, i: nat, row: RowRef)
    requires IsRun(run, steps) && KeepsAtLeast(steps, keep) && i < |run| && !Bulk(row)
    ensures Undemoted(run[i]) && PolicyInv(run[i], keep, row)
  {
    hide Bulk;
    if i == 0 {
      StartHasRow(run[0], row);
    } else {
      hide Undemoted;
      hide PolicyInv;
      hide Start;
      EveryRunKeepsPolicy(run, steps, keep, i - 1, row);
      EveryRunKeepsArrivals(run, steps, i - 1);
      hide PartOf;
      hide ArrivalsInv;
      assert run[i - 1 + 1] == Next(run[i - 1], steps[i - 1]);
      StepKeepsUndemoted(run[i - 1], steps[i - 1]);
      StepKeepsPolicy(run[i - 1], steps[i - 1], keep, row);
    }
  }

  /** An applied op with fewer than `keep` greater ones in its row, or the least of them. */
  ghost predicate AmongKept(oplog: Oplog, keep: nat, row: RowRef, k: OrderKey) {
    && IsApplied(oplog, row, k)
    && (|| (forall above | AllAbove(oplog, row, k, above) :: |above| < keep)
        || (forall a | IsApplied(oplog, row, a) :: AtMost(k, a)))
  }

  lemma CrowdedIsNotKept(oplog: Oplog, keep: nat, row: RowRef, k: OrderKey)
    requires IsApplied(oplog, row, k) && Crowded(oplog, keep, k.opId)
    ensures !AmongKept(oplog, keep, row, k)
  {
    var above :| |above| == keep && AllAbove(oplog, row, k, above);
  }

  /** What a policy promises: on a row outside the bulk tables, every op of the whole log that
      has fewer than `keep` greater applied ops, and the least one, is still stored as it
      was. */
  lemma PolicyIsKept(run: seq<State>, steps: seq<Step>, keep: nat, i: nat, row: RowRef, k: OrderKey)
    requires IsRun(run, steps) && KeepsAtLeast(steps, keep) && i < |run| && !Bulk(row)
    requires AmongKept(run[i].whole.oplog, keep, row, k)
    ensures IsApplied(run[i].t.oplog, row, k)
  {
    var s := run[i];
    EveryRunKeepsPolicy(run, steps, keep, i, row);
    hide IsRun;
    hide Bulk;
    hide Crowded;
    if Crowded(s.whole.oplog, keep, k.opId) {
      CrowdedIsNotKept(s.whole.oplog, keep, row, k);
    }
  }

  /** An op that every delete finds pinned is never removed. */
  lemma {:induction false} PinnedIsKept(run: seq<State>, steps: seq<Step>, i: nat, j: nat, id: OpId)
    requires IsRun(run, steps) && i <= j < |run| && id in run[i].t.oplog
    requires forall m | i <= m < j && steps[m].Delete? :: id in steps[m].pinned
    ensures id in run[j].t.oplog && run[j].t.oplog[id] == run[i].t.oplog[id].(applied := run[j].t.oplog[id].applied)
    decreases j
  {
    hide Start;
    if i < j {
      PinnedIsKept(run, steps, i, j - 1, id);
      assert run[j - 1 + 1] == Next(run[j - 1], steps[j - 1]);
      PinnedStays(run[j - 1], steps[j - 1], id);
    }
  }

  lemma PinnedStays(s: State, step: Step, id: OpId)
    requires Enabled(s, step) && id in s.t.oplog && (step.Delete? ==> id in step.pinned)
    ensures var o := Next(s, step).t.oplog; id in o && o[id] == s.t.oplog[id].(applied := o[id].applied)
  {
    hide Upserted;
    hide Applied;
    hide Candidate;
    hide Bulk;
    hide Demoted;
  }

  // --------------------------------------------------- when two are not kept

  /** Three ops of one device on one row, the last of them the head. */
  function ThreeOps(row: RowRef): Tables {
    Tables(map[1 := OpRow(1, 1, row, true), 2 := OpRow(2, 1, row, true), 3 := OpRow(3, 1, row, true)],
           map[row := Head(OrderKey(3, 1, 3), 1)],
           map[1 := Arrival(1, 0), 2 := Arrival(2, 0), 3 := Arrival(3, 0)], 0)
  }

  lemma ThreeApplied(row: RowRef, other: RowRef)
    ensures Applied(ThreeOps(row).oplog, other)
         == if other == row then {OrderKey(1, 1, 1), OrderKey(2, 1, 2), OrderKey(3, 1, 3)} else {}
  {
  }

  lemma ThreeArrived(row: RowRef)
    ensures var t := ThreeOps(row); Top(t.arrivals.Keys) == 3 && OneToOne(t.arrivals, t.oplog) && HolesBelow(t.arrivals.Keys, 0)
  {
    var t := ThreeOps(row);
    assert t.arrivals.Keys == {1, 2, 3} && 3 in t.arrivals.Keys;
    assert t.arrivals[1].op == 1 && t.arrivals[2].op == 2 && t.arrivals[3].op == 3;
  }

  /** The log before a pass, after its scan picked the middle op, and after its delete. */
  ghost function ThreeRun(row: RowRef): seq<State> {
    var t := ThreeOps(row);
    var whole := LogState(t.oplog, t.heads);
    [State(t, whole, {}), State(t, whole, {2}), State(Deleted(t, {}, {2}), whole, {})]
  }

  lemma ThreeStart(row: RowRef)
    requires !Bulk(row)
    ensures Start(ThreeRun(row)[0])
  {
    hide OneToOne;
    hide HolesBelow;
    hide Applied;
    hide Deleted;
    ThreeArrived(row);
    var t := ThreeOps(row);
    forall other | !Bulk(other)
      ensures HeadExact(t.oplog, t.heads, other) && OriginExact(t.oplog, t.heads, other)
    {
      ThreeApplied(row, other);
      if other == row {
        LeastOfThree();
      }
    }
  }

  lemma LeastOfThree()
    ensures var keys := {OrderKey(1, 1, 1), OrderKey(2, 1, 2), OrderKey(3, 1, 3)};
            IsGreatest(keys, OrderKey(3, 1, 3)) && Least(keys) == Some(OrderKey(1, 1, 1))
  {
    var keys := {OrderKey(1, 1, 1), OrderKey(2, 1, 2), OrderKey(3, 1, 3)};
    assert IsLeast(keys, OrderKey(1, 1, 1)) && IsLeast(keys, Least(keys).value);
  }

  /** The middle op has one above it and one below, and is no head. */
  lemma MiddleIsCandidate(row: RowRef, keep: nat)
    requires keep < 2
    ensures Candidate(ThreeOps(row), keep, 3, {}, 2)
  {
    hide Bulk;
    hide Applied;
    ThreeApplied(row, row);
    ThreeArrived(row);
    hide OneToOne;
    hide HolesBelow;
    var t := ThreeOps(row);
    var a, b, c := OrderKey(1, 1, 1), OrderKey(2, 1, 2), OrderKey(3, 1, 3);
    assert KeysAbove({a, b, c}, b) == {c};
    assert Less(a, b) && a in Applied(t.oplog, row);
  }

  function ThreeSteps(keep: nat): seq<Step> {
    [Scan(keep, 3, {}, {2}), Delete({}, {2})]
  }

  lemma ThreeScanned(row: RowRef, keep: nat)
    requires keep < 2
    ensures Enabled(ThreeRun(row)[0], ThreeSteps(keep)[0]) && ThreeRun(row)[1] == Next(ThreeRun(row)[0], ThreeSteps(keep)[0])
  {
    MiddleIsCandidate(row, keep);
    hide Candidate;
    hide Deleted;
    var s, scan := ThreeRun(row)[0], Scan(keep, 3, {}, {2});
    assert s.t.arrivals[2].op == 2;
  }

  lemma ThreeDeleted(row: RowRef, keep: nat)
    ensures Enabled(ThreeRun(row)[1], ThreeSteps(keep)[1]) && ThreeRun(row)[2] == Next(ThreeRun(row)[1], ThreeSteps(keep)[1])
  {
    hide Deleted;
    assert ThreeRun(row)[1].pending - {2} == {};
  }

  lemma ThreeIsRun(row: RowRef, keep: nat)
    requires !Bulk(row) && keep < 2
    ensures IsRun(ThreeRun(row), ThreeSteps(keep))
  {
    hide Start;
    hide Enabled;
    hide Next;
    ThreeStart(row);
    ThreeScanned(row, keep);
    ThreeDeleted(row, keep);
    hide ThreeRun;
    hide ThreeSteps;
    LengthsOfThree(row, keep);
  }

  lemma LengthsOfThree(row: RowRef, keep: nat)
    ensures |ThreeRun(row)| == 3 && |ThreeSteps(keep)| == 2
  {
  }

  lemma ThreeLeft(row: RowRef)
    requires !Bulk(row)
    ensures Applied(Deleted(ThreeOps(row), {}, {2}).oplog, row) == {OrderKey(1, 1, 1), OrderKey(3, 1, 3)}
  {
    AppliedAfterDelete(ThreeOps(row), {}, {2}, row);
    ThreeApplied(row, row);
    hide Applied;
    hide Deleted;
    assert Taken(ThreeOps(row), {}, {2}, row) == {OrderKey(2, 1, 2)};
  }

  lemma RunnersUp()
    ensures var a, b, c := OrderKey(1, 1, 1), OrderKey(2, 1, 2), OrderKey(3, 1, 3);
            Greatest(Without({a, b, c}, 3)) == Some(b) && Greatest(Without({a, c}, 3)) == Some(a)
  {
    var a, b, c := OrderKey(1, 1, 1), OrderKey(2, 1, 2), OrderKey(3, 1, 3);
    assert Without({a, b, c}, 3) == {a, b} && b in {a, b};
    assert Without({a, c}, 3) == {a} && a in {a};
  }

  /** Excluding the winner, the runner-up has gone. */
  lemma ThreeIsSeen(row: RowRef)
    requires !Bulk(row)
    ensures !Invisible(ThreeRun(row)[2], row)
  {
    ThreeApplied(row, row);
    ThreeLeft(row);
    RunnersUp();
    hide Applied;
    hide Bulk;
    hide Without;
    hide Greatest;
    hide Least;
    var t, s := ThreeOps(row), ThreeRun(row)[2];
    assert s.t.heads == t.heads && s.t.oplog == Deleted(t, {}, {2}).oplog;
    hide Deleted;
    assert HeadFirst(s.t.oplog, s.t.heads, row, 3) == Some(OrderKey(1, 1, 1));
    assert Greatest(Without(WholeOf(s, row), 3)) == Some(OrderKey(2, 1, 2));
  }

  ghost predicate InvisibleThroughout(run: seq<State>, row: RowRef) {
    forall i | 0 <= i < |run| :: Invisible(run[i], row)
  }

  /** Compaction leaves no trace on a row outside the bulk tables in any run if and only if
      every policy keeps at least two ops per row. */
  lemma CompactionIsInvisibleExactly(policies: iset<nat>, row: RowRef)
    requires !Bulk(row)
    ensures (forall run, steps | IsRun(run, steps) && Within(steps, policies) :: InvisibleThroughout(run, row)) <==> KeepTwo(policies)
  {
    hide IsRun;
    hide Invisible;
    hide Bulk;
    if KeepTwo(policies) {
      forall run, steps | IsRun(run, steps) && Within(steps, policies)
        ensures InvisibleThroughout(run, row)
      {
        forall i | 0 <= i < |run|
          ensures Invisible(run[i], row)
        {
          CompactionIsInvisible(run, steps, policies, i, row);
        }
      }
    } else {
      var keep :| keep in policies && keep < 2;
      ThreeIsRun(row, keep);
      ThreeIsSeen(row);
      assert Within(ThreeSteps(keep), policies);
    }
  }

  // ----------------------------------------- a demotion between scan and delete

  /** Four ops of one device on one row, the last of them the head. */
  function FourOps(row: RowRef): Tables {
    Tables(map[1 := OpRow(1, 1, row, true), 2 := OpRow(2, 1, row, true), 3 := OpRow(3, 1, row, true), 4 := OpRow(4, 1, row, true)],
           map[row := Head(OrderKey(4, 1, 4), 1)],
           map[1 := Arrival(1, 0), 2 := Arrival(2, 0), 3 := Arrival(3, 0), 4 := Arrival(4, 0)], 0)
  }

  function FourSteps(): seq<Step> {
    [Scan(2, 4, {}, {2}), Retract(4), Delete({}, {2})]
  }

  lemma FourApplied(row: RowRef, other: RowRef)
    ensures Applied(FourOps(row).oplog, other)
         == if other == row then {OrderKey(1, 1, 1), OrderKey(2, 1, 2), OrderKey(3, 1, 3), OrderKey(4, 1, 4)} else {}
  {
  }

  lemma FourArrived(row: RowRef)
    ensures var t := FourOps(row); Top(t.arrivals.Keys) == 4 && OneToOne(t.arrivals, t.oplog) && HolesBelow(t.arrivals.Keys, 0)
  {
    var t := FourOps(row);
    assert t.arrivals.Keys == {1, 2, 3, 4} && 4 in t.arrivals.Keys;
    assert t.arrivals[1].op == 1 && t.arrivals[2].op == 2 && t.arrivals[3].op == 3 && t.arrivals[4].op == 4;
  }

  lemma FourEnds()
    ensures var keys := {OrderKey(1, 1, 1), OrderKey(2, 1, 2), OrderKey(3, 1, 3), OrderKey(4, 1, 4)};
            IsGreatest(keys, OrderKey(4, 1, 4)) && Least(keys) == Some(OrderKey(1, 1, 1))
  {
    var keys := {OrderKey(1, 1, 1), OrderKey(2, 1, 2), OrderKey(3, 1, 3), OrderKey(4, 1, 4)};
    assert IsLeast(keys, OrderKey(1, 1, 1)) && IsLeast(keys, Least(keys).value);
  }

  lemma FourStart(row: RowRef)
    ensures var t := FourOps(row); Start(State(t, LogState(t.oplog, t.heads), {}))
  {
    hide OneToOne;
    hide HolesBelow;
    hide Applied;
    FourArrived(row);
    var t := FourOps(row);
    forall other
      ensures HeadExact(t.oplog, t.heads, other) && OriginExact(t.oplog, t.heads, other)
    {
      FourApplied(row, other);
      if other == row {
        FourEnds();
      }
    }
  }

  /** The second op has two above it and one below. */
  lemma SecondIsCandidate(row: RowRef)
    ensures Candidate(FourOps(row), 2, 4, {}, 2)
  {
    hide Bulk;
    hide Applied;
    FourApplied(row, row);
    FourArrived(row);
    hide OneToOne;
    hide HolesBelow;
    var t := FourOps(row);
    var a, b, c, d := OrderKey(1, 1, 1), OrderKey(2, 1, 2), OrderKey(3, 1, 3), OrderKey(4, 1, 4);
    assert KeysAbove({a, b, c, d}, b) == {c, d};
    assert Less(a, b) && a in Applied(t.oplog, row);
  }

  /** With the greatest demoted. */
  function FourOff(row: RowRef): Tables {
    FourOps(row).(oplog := FourOps(row).oplog[4 := OpRow(4, 1, row, false)], heads := map[row := Head(OrderKey(3, 1, 3), 1)])
  }

  lemma FourOffApplied(row: RowRef)
    ensures Applied(FourOff(row).oplog, row) == {OrderKey(1, 1, 1), OrderKey(2, 1, 2), OrderKey(3, 1, 3)}
  {
  }

  lemma FourRetracted(row: RowRef)
    ensures WithDemoted(FourOps(row).oplog, FourOps(row).heads, 4) == LogState(FourOff(row).oplog, FourOff(row).heads)
  {
    FourOffApplied(row);
    hide Applied;
    assert MarkedOff(FourOps(row).oplog, 4) == FourOff(row).oplog;
    LeastOfThree();
    var keys := {OrderKey(1, 1, 1), OrderKey(2, 1, 2), OrderKey(3, 1, 3)};
    assert IsGreatest(keys, Greatest(keys).value);
  }

  ghost function Both(t: Tables, pending: set<OpId>): State {
    State(t, LogState(t.oplog, t.heads), pending)
  }

  ghost function FourRun(row: RowRef): seq<State> {
    [Both(FourOps(row), {}), Both(FourOps(row), {2}), Both(FourOff(row), {2}),
     State(Deleted(FourOff(row), {}, {2}), LogState(FourOff(row).oplog, FourOff(row).heads), {})]
  }

  lemma FourScanned(row: RowRef)
    ensures Enabled(FourRun(row)[0], FourSteps()[0]) && FourRun(row)[1] == Next(FourRun(row)[0], FourSteps()[0])
  {
    SecondIsCandidate(row);
    hide Candidate;
    hide Deleted;
    assert FourOps(row).arrivals[2].op == 2;
  }

  lemma FourDemoted(row: RowRef)
    ensures Enabled(FourRun(row)[1], FourSteps()[1]) && FourRun(row)[2] == Next(FourRun(row)[1], FourSteps()[1])
  {
    FourRetracted(row);
    hide WithDemoted;
    hide Deleted;
  }

  lemma FourDeleted(row: RowRef)
    ensures Enabled(FourRun(row)[2], FourSteps()[2]) && FourRun(row)[3] == Next(FourRun(row)[2], FourSteps()[2])
  {
    hide Deleted;
    assert FourRun(row)[2].pending - {2} == {};
  }

  lemma FourLengths(row: RowRef)
    ensures |FourRun(row)| == 4 && |FourSteps()| == 3
  {
  }

  lemma FourIsRun(row: RowRef)
    ensures IsRun(FourRun(row), FourSteps())
  {
    FourStart(row);
    hide Start;
    hide Enabled;
    hide Next;
    FourScanned(row);
    FourDemoted(row);
    FourDeleted(row);
    FourLengths(row);
    assert Start(FourRun(row)[0]);
    hide FourRun;
    hide FourSteps;
  }

  lemma SameIsAlike(s: State, row: RowRef)
    requires s == Both(s.t, s.pending)
    ensures Agree(s, row)
  {
  }

  lemma SecondIsTaken(row: RowRef)
    requires !Bulk(row)
    ensures OrderKey(2, 1, 2) in Taken(FourOff(row), {}, {2}, row)
  {
    FourOffApplied(row);
    hide Applied;
  }

  lemma FourIsCareless(row: RowRef)
    requires !Bulk(row)
    ensures Enabled(FourRun(row)[2], FourSteps()[2]) && !Careful(FourRun(row)[2], FourSteps()[2], row)
  {
    FourDeleted(row);
    FourOffApplied(row);
    SecondIsTaken(row);
    hide Applied;
    hide Deleted;
    hide Bulk;
    var a, b, c := OrderKey(1, 1, 1), OrderKey(2, 1, 2), OrderKey(3, 1, 3);
    var s, taken := FourRun(row)[2], Taken(FourOff(row), {}, {2}, row);
    hide Taken;
    assert KeysOf(s, row) * WholeOf(s, row) == {a, b, c};
    OnlyOneAbove(taken);
    assert b in taken * WholeOf(s, row);
  }

  lemma OnlyOneAbove(taken: set<OrderKey>)
    ensures !Inner({OrderKey(1, 1, 1), OrderKey(2, 1, 2), OrderKey(3, 1, 3)} - taken, OrderKey(2, 1, 2))
  {
  }

  /** With two kept per row, the scan picks the second op, the greatest is demoted, the pick
      is deleted. Only the third is left above it, so the delete is not careful, and a reader
      can tell. */
  lemma DemotionIsSeen(row: RowRef)
    requires !Bulk(row)
    ensures IsRun(FourRun(row), FourSteps()) && Agree(FourRun(row)[2], row) && !Agree(FourRun(row)[3], row)
  {
    FourIsRun(row);
    FourIsCareless(row);
    FourDeleted(row);
    FourLengths(row);
    SameIsAlike(FourRun(row)[2], row);
    hide Agree;
    hide Careful;
    hide Bulk;
    hide FourRun;
    hide FourSteps;
    EveryRunKeepsArrivals(FourRun(row), FourSteps(), 2);
    EveryRunKeepsHeads(FourRun(row), FourSteps(), 2, row);
    hide IsRun;
    hide PartOf;
    hide HeadsInv;
    hide ArrivalsInv;
    hide Next;
    hide Enabled;
    StepExactly(FourRun(row)[2], FourSteps()[2], row);
  }

  // -------------------------------------------------------------- relay pages

  /** The numbers a relay page is read from: arrivals joined with their ops. */
  function Joined(t: Tables): set<nat> {
    set n | n in t.arrivals && t.arrivals[n].op in t.oplog
  }

  lemma {:induction false} PageIsContiguous(numbers: set<nat>, top: nat, after: nat, limit: nat)
    requires forall n: nat | after < n <= top :: n in numbers
    requires forall n | n in numbers :: n <= top
    ensures Relay.Contiguous(PageNumbers(numbers, after, limit), after, top)
    decreases limit
  {
    if limit > 0 && Past(numbers, after) != {} {
      var first := Bottom(Past(numbers, after));
      assert after + 1 in Past(numbers, after);
      PageIsContiguous(numbers, top, first, limit - 1);
    }
  }

  function StreamOf(t: Tables, epoch: nat): StreamState {
    StreamState(epoch, Top(t.arrivals.Keys), t.floor)
  }

  /** The numbers past any position the floor has not passed are read without a gap. */
  lemma JoinedIsContiguous(t: Tables, after: nat, limit: nat)
    requires OneToOne(t.arrivals, t.oplog) && HolesBelow(t.arrivals.Keys, t.floor) && t.floor <= after
    ensures Relay.Contiguous(PageNumbers(Joined(t), after, limit), after, Top(t.arrivals.Keys))
  {
    hide PageNumbers;
    assert Joined(t) == t.arrivals.Keys;
    PageIsContiguous(Joined(t), Top(t.arrivals.Keys), after, limit);
  }

  lemma PrefixIsContiguous(part: seq<nat>, numbers: seq<nat>, after: nat, top: nat)
    requires part <= numbers && Relay.Contiguous(numbers, after, top)
    ensures Relay.Contiguous(part, after, top)
  {
  }

  /** Whatever was deleted, and whenever between its two reads, the server answers every
      well-formed request with a reset or a page, however early the page is cut; it never
      trips its own checks. */
  lemma PullersAreServed(run: seq<State>, steps: seq<Step>, i: nat, j: nat, epoch: nat, entries: seq<(nat, Logs.SignedOp)>, cursor: Cursor, limit: nat)
    requires IsRun(run, steps) && i < |run| && j < |run| && epoch != 0
    requires 1 <= limit <= Relay.DEFAULT_PULL_LIMIT && (cursor.epoch == 0 ==> cursor.after == 0)
    requires Relay.Numbers(entries) <= PageNumbers(Joined(run[j].t), cursor.after, limit)
    ensures Relay.Answer(StreamOf(run[i].t, epoch), StreamOf(run[j].t, epoch), entries, cursor, limit).Response?
  {
    hide IsRun;
    hide PageNumbers;
    hide NewestKept;
    hide OneToOne;
    hide Joined;
    hide PartOf;
    hide Relay.Contiguous;
    EveryRunKeepsArrivals(run, steps, i);
    EveryRunKeepsArrivals(run, steps, j);
    var t := run[j].t;
    assert |Relay.Numbers(entries)| == |entries|;
    if !PullNeedsReset(cursor.epoch, cursor.after, StreamOf(t, epoch)) {
      JoinedIsContiguous(t, cursor.after, limit);
      PrefixIsContiguous(Relay.Numbers(entries), PageNumbers(Joined(t), cursor.after, limit), cursor.after, Top(t.arrivals.Keys));
    }
  }
}
