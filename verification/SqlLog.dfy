/** The SQLite op-log (src/sqlite/oplog.rs, src/sqlite/oplog_heads.rs): the `oplog`,
    `oplog_arrivals` and `oplog_heads` tables, and the materialized last-write-wins head
    kept beside the rows it summarizes. */
module SqlLog {
  import opened OrderKeys

  /** `(store_id, table_name, row_pk)`. */
  datatype RowRef = RowRef(store: string, table: string, pk: string)

  /** A row of `oplog`; its primary key, the op id, is the key of the map. */
  datatype OpRow = OpRow(hlc: nat, device: DeviceId, row: RowRef, applied: bool)

  /** A row of `oplog_heads`: the winner's order key and the earliest op's device. */
  datatype Head = Head(key: OrderKey, origin: DeviceId)

  datatype Arrival = Arrival(op: OpId, at: int)

  type Oplog = map<OpId, OpRow>
  type Heads = map<RowRef, Head>

  function KeyOf(id: OpId, r: OpRow): OrderKey { OrderKey(r.hlc, r.device, id) }

  /** `key` belongs to an applied op of this row. */
  predicate IsApplied(oplog: Oplog, row: RowRef, key: OrderKey) {
    key.opId in oplog && oplog[key.opId] == OpRow(key.hlc, key.device, row, true)
  }

  /** The order keys a `WHERE row AND applied = 1` query ranges over. */
  function Applied(oplog: Oplog, row: RowRef): (keys: set<OrderKey>)
    ensures forall k :: k in keys <==> IsApplied(oplog, row, k)
  {
    set id | id in oplog && oplog[id].row == row && oplog[id].applied :: KeyOf(id, oplog[id])
  }

  /** `AND op_id != ?`. */
  function Without(keys: set<OrderKey>, exclude: OpId): set<OrderKey> {
    set k | k in keys && k.opId != exclude
  }

  predicate IsGreatest(keys: set<OrderKey>, k: OrderKey) {
    k in keys && forall j | j in keys :: AtMost(j, k)
  }

  predicate IsLeast(keys: set<OrderKey>, k: OrderKey) {
    k in keys && forall j | j in keys :: AtMost(k, j)
  }

  lemma {:induction false} GreatestExists(keys: set<OrderKey>)
    requires keys != {}
    ensures exists k :: IsGreatest(keys, k)
  {
    var x :| x in keys;
    if keys == {x} {
      assert IsGreatest(keys, x);
    } else {
      GreatestExists(keys - {x});
      var k :| IsGreatest(keys - {x}, k);
      var m := if AtMost(k, x) then x else k;
      forall j | j in keys
        ensures AtMost(j, m)
      {
        assert j == x || j in keys - {x};
      }
      assert IsGreatest(keys, m);
    }
  }

  lemma {:induction false} LeastExists(keys: set<OrderKey>)
    requires keys != {}
    ensures exists k :: IsLeast(keys, k)
  {
    var x :| x in keys;
    if keys == {x} {
      assert IsLeast(keys, x);
    } else {
      LeastExists(keys - {x});
      var k :| IsLeast(keys - {x}, k);
      var m := if AtMost(k, x) then k else x;
      forall j | j in keys
        ensures AtMost(m, j)
      {
        assert j == x || j in keys - {x};
      }
      assert IsLeast(keys, m);
    }
  }

  /** `ORDER BY hlc DESC, device_id DESC, op_id DESC LIMIT 1`. */
  function Greatest(keys: set<OrderKey>): (r: Option<OrderKey>)
    ensures r.None? <==> keys == {}
    ensures r.Some? ==> IsGreatest(keys, r.value)
  {
    if keys == {} then None
    else
      GreatestExists(keys);
      var k :| k in keys && IsGreatest(keys, k);
      Some(k)
  }

  /** `ORDER BY hlc ASC, device_id ASC, op_id ASC LIMIT 1`. */
  function Least(keys: set<OrderKey>): (r: Option<OrderKey>)
    ensures r.None? <==> keys == {}
    ensures r.Some? ==> IsLeast(keys, r.value)
  {
    if keys == {} then None
    else
      LeastExists(keys);
      var k :| k in keys && IsLeast(keys, k);
      Some(k)
  }

  // --------------------------------------------------------------- invariants

  /** The head names the greatest applied op, and is absent when there is none. */
  ghost predicate HeadExact(oplog: Oplog, heads: Heads, row: RowRef) {
    if row in heads then IsGreatest(Applied(oplog, row), heads[row].key) else Applied(oplog, row) == {}
  }

  /** The stored origin is the device of the least applied op. */
  ghost predicate OriginExact(oplog: Oplog, heads: Heads, row: RowRef) {
    row in heads ==> Applied(oplog, row) != {} && heads[row].origin == Least(Applied(oplog, row)).value.device
  }

  /** The read every last-write-wins guard makes: the head if it is not the excluded op,
      a scan otherwise. */
  function HeadFirst(oplog: Oplog, heads: Heads, row: RowRef, exclude: OpId): Option<OrderKey> {
    if row in heads && heads[row].key.opId != exclude then Some(heads[row].key)
    else Greatest(Without(Applied(oplog, row), exclude))
  }

  /** Excluding an op that is not the head cannot change the winner, so the head-first
      read returns what a plain scan returns. */
  lemma HeadFirstIsScan(oplog: Oplog, heads: Heads, row: RowRef, exclude: OpId)
    requires HeadExact(oplog, heads, row)
    ensures HeadFirst(oplog, heads, row, exclude) == Greatest(Without(Applied(oplog, row), exclude))
  {
    if row in heads && heads[row].key.opId != exclude {
      assert heads[row].key in Without(Applied(oplog, row), exclude);
    }
  }

  // ------------------------------------------------------------------- upsert

  /** `upsert_head` as two statements on the heads table. */
  function Advanced(heads: Heads, row: RowRef, key: OrderKey): Heads {
    if row !in heads then heads[row := Head(key, key.device)]
    else if Less(heads[row].key, key) then heads[row := Head(key, heads[row].origin)]
    else heads
  }

  predicate HasLower(oplog: Oplog, row: RowRef, key: OrderKey) {
    exists k :: k in Applied(oplog, row) && Less(k, key)
  }

  function Upserted(oplog: Oplog, heads: Heads, row: RowRef, key: OrderKey): Heads {
    var h := Advanced(heads, row, key);
    if HasLower(oplog, row, key) then h else h[row := Head(h[row].key, key.device)]
  }

  /** Adding one applied op to the table. */
  function WithOp(oplog: Oplog, row: RowRef, key: OrderKey): Oplog {
    oplog[key.opId := OpRow(key.hlc, key.device, row, true)]
  }

  lemma AppliedWithOp(oplog: Oplog, row: RowRef, key: OrderKey, other: RowRef)
    requires key.opId in oplog ==> !oplog[key.opId].applied
    ensures Applied(WithOp(oplog, row, key), other) == Applied(oplog, other) + (if other == row then {key} else {})
  {
  }

  lemma UpsertKeepsHead(oplog: Oplog, heads: Heads, row: RowRef, key: OrderKey, other: RowRef)
    requires key.opId in oplog ==> !oplog[key.opId].applied
    requires HeadExact(oplog, heads, other)
    ensures HeadExact(WithOp(oplog, row, key), Upserted(WithOp(oplog, row, key), heads, row, key), other)
  {
    hide Applied;
    AppliedWithOp(oplog, row, key, other);
  }

  lemma UpsertKeepsOrigin(oplog: Oplog, heads: Heads, row: RowRef, key: OrderKey, other: RowRef)
    requires key.opId in oplog ==> !oplog[key.opId].applied
    requires HeadExact(oplog, heads, other) && OriginExact(oplog, heads, other)
    ensures OriginExact(WithOp(oplog, row, key), Upserted(WithOp(oplog, row, key), heads, row, key), other)
  {
    hide Applied;
    AppliedWithOp(oplog, row, key, other);
    if other == row {
      LeastWithKey(Applied(oplog, row), key);
    }
  }

  /** The least key after adding one is the new key unless an older one undercuts it. */
  lemma LeastWithKey(keys: set<OrderKey>, key: OrderKey)
    ensures var all := keys + {key};
            all != {} && Least(all) == if exists k :: k in all && Less(k, key) then Least(keys) else Some(key)
  {
  }

  // ------------------------------------------------------------------- demote

  function MarkedOff(oplog: Oplog, id: OpId): Oplog {
    if id in oplog then oplog[id := oplog[id].(applied := false)] else oplog
  }

  /** The heads after `demote_head`, once the op is marked `applied = 0`. */
  function Demoted(oplog: Oplog, heads: Heads, id: OpId): Heads {
    if id !in oplog then heads
    else
      var row := oplog[id].row;
      if row !in heads || heads[row].key.opId != id then heads
      else
        match Greatest(Applied(oplog, row))
        case Some(k) => heads[row := Head(k, heads[row].origin)]
        case None => heads - {row}
  }

  lemma AppliedMarkedOff(oplog: Oplog, id: OpId, row: RowRef)
    ensures Applied(MarkedOff(oplog, id), row) == Without(Applied(oplog, row), id)
  {
  }

  lemma DemoteKeepsHead(oplog: Oplog, heads: Heads, id: OpId, row: RowRef)
    requires HeadExact(oplog, heads, row)
    ensures HeadExact(MarkedOff(oplog, id), Demoted(MarkedOff(oplog, id), heads, id), row)
  {
  }

  /** `k` comes first once `key` is set aside. */
  predicate IsNext(keys: set<OrderKey>, key: OrderKey, k: OrderKey) {
    k in keys && k != key && forall j | j in keys && j != key :: AtMost(k, j)
  }

  /** Taking this op off its row leaves the device of the row's least op as it was: it was
      not applied, or not the least, or alone, or the next is of the same device. */
  ghost predicate KeepsLeastDevice(oplog: Oplog, id: OpId) {
    id in oplog && oplog[id].applied ==>
      var keys, key := Applied(oplog, oplog[id].row), KeyOf(id, oplog[id]);
      !IsLeast(keys, key) || keys == {key} || exists k :: IsNext(keys, key, k) && k.device == key.device
  }

  lemma LeastOfRest(keys: set<OrderKey>, key: OrderKey)
    requires key in keys && keys != {key} && forall j, k | j in keys && k in keys && j.opId == k.opId :: j == k
    ensures var rest := Without(keys, key.opId);
            && rest != {}
            && if IsLeast(keys, key) then IsNext(keys, key, Least(rest).value) else Least(rest) == Least(keys)
  {
    var rest := Without(keys, key.opId);
    assert rest != {} by {
      var j :| j in keys && j != key;
      assert j in rest;
    }
    var least := Least(keys).value;
    if !IsLeast(keys, key) {
      assert least in rest;
    }
    assert forall j | j in keys && j != key :: j in rest;
  }

  lemma AppliedIsDistinct(oplog: Oplog, row: RowRef)
    ensures forall j, k | j in Applied(oplog, row) && k in Applied(oplog, row) && j.opId == k.opId :: j == k
  {
  }

  /** Demotion leaves the stored origin as it is, so the origin stays exact exactly when the
      op was not the row's least applied op, or was alone, or is followed by one of its
      device. */
  lemma DemoteKeepsOriginExactly(oplog: Oplog, heads: Heads, id: OpId)
    requires id in oplog && oplog[id].applied
    requires HeadExact(oplog, heads, oplog[id].row) && OriginExact(oplog, heads, oplog[id].row)
    ensures OriginExact(MarkedOff(oplog, id), Demoted(MarkedOff(oplog, id), heads, id), oplog[id].row) <==> KeepsLeastDevice(oplog, id)
  {
    var row, key := oplog[id].row, KeyOf(id, oplog[id]);
    assert IsApplied(oplog, row, key);
    assert key in Applied(oplog, row);
    AppliedMarkedOff(oplog, id, row);
    AppliedIsDistinct(oplog, row);
    hide Applied;
    var keys := Applied(oplog, row);
    if keys == {key} {
      assert Without(keys, id) == {};
      OnlyOne(keys, heads[row].key, id);
    } else {
      LeastOfRest(keys, key);
      var rest := Without(keys, id);
      if IsLeast(keys, key) {
        assert Least(keys) == Some(key);
        assert forall k :: IsNext(keys, key, k) ==> k == Least(rest).value;
      }
    }
  }

  /** Every other row keeps what it had. */
  lemma DemoteElsewhere(oplog: Oplog, heads: Heads, id: OpId, row: RowRef)
    requires HeadExact(oplog, heads, row) && OriginExact(oplog, heads, row)
    requires id in oplog ==> !oplog[id].applied || oplog[id].row != row
    ensures OriginExact(MarkedOff(oplog, id), Demoted(MarkedOff(oplog, id), heads, id), row)
  {
    assert Applied(MarkedOff(oplog, id), row) == Applied(oplog, row);
    if id in oplog && oplog[id].row == row && row in heads {
      assert IsApplied(oplog, row, heads[row].key);
    }
  }

  lemma OnlyOne(keys: set<OrderKey>, key: OrderKey, id: OpId)
    requires key in keys && Without(keys, id) == {}
    ensures key.opId == id
  {
    assert key.opId != id ==> key in Without(keys, id);
  }

  /** Two devices, the earlier op demoted: the head stays right and the origin does not. */
  lemma DemoteCanMisstateOrigin(row: RowRef)
    ensures var oplog: Oplog := map[1 := OpRow(1, 1, row, true), 2 := OpRow(2, 2, row, true)];
            var heads: Heads := map[row := Head(OrderKey(2, 2, 2), 1)];
            && HeadExact(oplog, heads, row) && OriginExact(oplog, heads, row)
            && HeadExact(MarkedOff(oplog, 1), Demoted(MarkedOff(oplog, 1), heads, 1), row)
            && !OriginExact(MarkedOff(oplog, 1), Demoted(MarkedOff(oplog, 1), heads, 1), row)
  {
    var oplog: Oplog := map[1 := OpRow(1, 1, row, true), 2 := OpRow(2, 2, row, true)];
    var heads: Heads := map[row := Head(OrderKey(2, 2, 2), 1)];
    var first, second := OrderKey(1, 1, 1), OrderKey(2, 2, 2);
    assert Applied(oplog, row) == {first, second};
    AppliedMarkedOff(oplog, 1, row);
    assert Without(Applied(oplog, row), 1) == {second};
    assert second in {second} && first in {first, second};
  }

  // ------------------------------------------------------------------ rebuild

  /** `rebuild_head` for one row. */
  function Rebuilt(oplog: Oplog, heads: Heads, row: RowRef): Heads {
    match Greatest(Applied(oplog, row))
    case Some(k) =>
      assert Applied(oplog, row) != {};
      heads[row := Head(k, Least(Applied(oplog, row)).value.device)]
    case None => heads - {row}
  }

  /** Whatever happened to the partition, a rebuild makes its head and origin exact and
      leaves every other head alone. */
  lemma RebuildIsExact(oplog: Oplog, heads: Heads, row: RowRef)
    ensures HeadExact(oplog, Rebuilt(oplog, heads, row), row) && OriginExact(oplog, Rebuilt(oplog, heads, row), row)
    ensures forall r | r != row :: r in Rebuilt(oplog, heads, row) <==> r in heads
    ensures forall r | r != row && r in heads :: Rebuilt(oplog, heads, row)[r] == heads[r]
  {
  }

  /** An alias merge: every op of one partition moves to another. */
  function Moved(oplog: Oplog, from: RowRef, to: RowRef): Oplog {
    map id | id in oplog :: if oplog[id].row == from then oplog[id].(row := to) else oplog[id]
  }

  lemma MovedElsewhere(oplog: Oplog, from: RowRef, to: RowRef, row: RowRef)
    requires row != from && row != to
    ensures Applied(Moved(oplog, from, to), row) == Applied(oplog, row)
  {
  }

  // ----------------------------------------------------------------- all runs

  datatype Step =
    | Append(row: RowRef, key: OrderKey)       // a logged op, or a repeat
    | Demote(id: OpId)                         // applied = 0, then demote_head
    | Promote(row: RowRef, key: OrderKey)      // applied = 1 under a canonical row, then upsert_head
    | Move(from: RowRef, to: RowRef)           // alias merge, then rebuild_head on both rows

  datatype LogState = LogState(oplog: Oplog, heads: Heads)

  function Next(s: LogState, step: Step): LogState {
    match step
    case Append(row, key) =>
      var t := AppendedTo(Tables(s.oplog, s.heads, map[], 0), row, key, 0); LogState(t.oplog, t.heads)
    case Demote(id) =>
      var o := MarkedOff(s.oplog, id); LogState(o, Demoted(o, s.heads, id))
    case Promote(row, key) =>
      if key.opId !in s.oplog || s.oplog[key.opId].applied || KeyOf(key.opId, s.oplog[key.opId]) != key then s
      else var o := WithOp(s.oplog, row, key); LogState(o, Upserted(o, s.heads, row, key))
    case Move(from, to) =>
      var o := Moved(s.oplog, from, to); LogState(o, Rebuilt(o, Rebuilt(o, s.heads, from), to))
  }

  ghost function After(steps: seq<Step>): LogState {
    if steps == [] then LogState(map[], map[]) else Next(After(steps[..|steps| - 1]), steps[|steps| - 1])
  }

  lemma MoveKeepsHead(s: LogState, from: RowRef, to: RowRef, row: RowRef)
    requires HeadExact(s.oplog, s.heads, row)
    ensures HeadExact(Next(s, Move(from, to)).oplog, Next(s, Move(from, to)).heads, row)
    ensures OriginExact(s.oplog, s.heads, row) ==> OriginExact(Next(s, Move(from, to)).oplog, Next(s, Move(from, to)).heads, row)
  {
    var o := Moved(s.oplog, from, to);
    hide Rebuilt;
    hide Applied;
    hide Moved;
    RebuildIsExact(o, s.heads, from);
    RebuildIsExact(o, Rebuilt(o, s.heads, from), to);
    if row != from && row != to {
      MovedElsewhere(s.oplog, from, to, row);
    }
  }

  lemma StepKeepsHead(s: LogState, step: Step, row: RowRef)
    requires HeadExact(s.oplog, s.heads, row)
    ensures HeadExact(Next(s, step).oplog, Next(s, step).heads, row)
  {
    hide HeadExact;
    hide Upserted;
    hide Demoted;
    hide Rebuilt;
    match step
    case Append(r, key) => if key.opId !in s.oplog { UpsertKeepsHead(s.oplog, s.heads, r, key, row); }
    case Demote(id) => DemoteKeepsHead(s.oplog, s.heads, id, row);
    case Promote(r, key) =>
      if key.opId in s.oplog && !s.oplog[key.opId].applied { UpsertKeepsHead(s.oplog, s.heads, r, key, row); }
    case Move(from, to) => MoveKeepsHead(s, from, to, row);
  }

  /** After any sequence of appends, demotions, promotions and moves, every head is the
      greatest applied op of its row, so a head-first read is a scan for every exclusion. */
  lemma {:induction false} EveryHeadIsExact(steps: seq<Step>, row: RowRef, exclude: OpId)
    ensures var s := After(steps);
            && HeadExact(s.oplog, s.heads, row)
            && HeadFirst(s.oplog, s.heads, row, exclude) == Greatest(Without(Applied(s.oplog, row), exclude))
  {
    hide Next;
    if steps == [] {
      assert forall k :: !IsApplied(map[], row, k);
    } else {
      EveryHeadIsExact(steps[..|steps| - 1], row, exclude);
      StepKeepsHead(After(steps[..|steps| - 1]), steps[|steps| - 1], row);
    }
    HeadFirstIsScan(After(steps).oplog, After(steps).heads, row, exclude);
  }

  ghost predicate HeadsExact(s: LogState) {
    forall row :: HeadExact(s.oplog, s.heads, row)
  }

  ghost predicate OriginsExact(s: LogState) {
    forall row :: OriginExact(s.oplog, s.heads, row)
  }

  ghost predicate KeepsOrigins(s: LogState, step: Step) {
    step.Demote? ==> KeepsLeastDevice(s.oplog, step.id)
  }

  lemma OtherStepsKeepOrigins(s: LogState, step: Step, row: RowRef)
    requires HeadExact(s.oplog, s.heads, row) && OriginExact(s.oplog, s.heads, row) && !step.Demote?
    ensures OriginExact(Next(s, step).oplog, Next(s, step).heads, row)
  {
    hide HeadExact;
    hide OriginExact;
    hide Upserted;
    hide Rebuilt;
    match step
    case Append(r, key) => if key.opId !in s.oplog { UpsertKeepsOrigin(s.oplog, s.heads, r, key, row); }
    case Promote(r, key) =>
      if key.opId in s.oplog && !s.oplog[key.opId].applied { UpsertKeepsOrigin(s.oplog, s.heads, r, key, row); }
    case Move(from, to) => MoveKeepsHead(s, from, to, row);
  }

  /** From a state whose origins are exact, only a demotion can misstate one, and only of a
      least op whose successor is of another device. */
  lemma StepKeepsOriginsExactly(s: LogState, step: Step)
    requires HeadsExact(s) && OriginsExact(s)
    ensures OriginsExact(Next(s, step)) <==> KeepsOrigins(s, step)
  {
    hide HeadExact;
    hide OriginExact;
    hide KeepsLeastDevice;
    if step.Demote? {
      var id := step.id;
      var o := MarkedOff(s.oplog, id);
      assert Next(s, step) == LogState(o, Demoted(o, s.heads, id));
      forall row | id in s.oplog ==> !s.oplog[id].applied || s.oplog[id].row != row
        ensures OriginExact(Next(s, step).oplog, Next(s, step).heads, row)
      {
        DemoteElsewhere(s.oplog, s.heads, id, row);
      }
      if id in s.oplog && s.oplog[id].applied {
        DemoteKeepsOriginExactly(s.oplog, s.heads, id);
      } else {
        NothingTaken(s.oplog, id);
      }
    } else {
      forall row
        ensures OriginExact(Next(s, step).oplog, Next(s, step).heads, row)
      {
        OtherStepsKeepOrigins(s, step, row);
      }
    }
  }

  lemma NothingTaken(oplog: Oplog, id: OpId)
    requires id in oplog ==> !oplog[id].applied
    ensures KeepsLeastDevice(oplog, id)
  {
  }

  ghost predicate ExactThroughout(steps: seq<Step>) {
    forall n | 0 <= n <= |steps| :: OriginsExact(After(steps[..n]))
  }

  ghost predicate KeepsThroughout(steps: seq<Step>) {
    forall n | 0 <= n < |steps| :: KeepsOrigins(After(steps[..n]), steps[n])
  }

  lemma ThroughoutSplits(steps: seq<Step>)
    requires steps != []
    ensures var init := steps[..|steps| - 1];
            && (ExactThroughout(steps) <==> ExactThroughout(init) && OriginsExact(After(steps)))
            && (KeepsThroughout(steps) <==> KeepsThroughout(init) && KeepsOrigins(After(init), steps[|steps| - 1]))
  {
    hide After;
    hide OriginsExact;
    hide KeepsOrigins;
    var init := steps[..|steps| - 1];
    assert forall n | 0 <= n < |steps| :: init[..n] == steps[..n];
    assert steps[..|steps|] == steps;
  }

  lemma NowExact(steps: seq<Step>)
    requires ExactThroughout(steps)
    ensures OriginsExact(After(steps))
  {
    assert steps[..|steps|] == steps;
  }

  /** Every origin is exact at every point of a run if and only if each demotion in it left
      the least op's device of its row as it was. */
  lemma {:induction false} EveryOriginIsExact(steps: seq<Step>)
    ensures ExactThroughout(steps) <==> KeepsThroughout(steps)
  {
    if steps == [] {
      NoHeads();
    } else {
      hide Next;
      hide OriginsExact;
      hide KeepsOrigins;
      hide HeadsExact;
      hide ExactThroughout;
      hide KeepsThroughout;
      var init, last := steps[..|steps| - 1], steps[|steps| - 1];
      EveryOriginIsExact(init);
      ThroughoutSplits(steps);
      AfterIsExact(init);
      if ExactThroughout(init) {
        NowExact(init);
        StepKeepsOriginsExactly(After(init), last);
      }
    }
  }

  lemma AfterIsExact(steps: seq<Step>)
    ensures HeadsExact(After(steps))
  {
    forall row
      ensures HeadExact(After(steps).oplog, After(steps).heads, row)
    {
      EveryHeadIsExact(steps, row, 0);
    }
  }

  lemma NoHeads()
    ensures OriginsExact(After([]))
  {
  }

  // ------------------------------------------------------------------- tables

  predicate IsTop(numbers: set<nat>, n: nat) {
    n in numbers && forall m | m in numbers :: m <= n
  }

  lemma {:induction false} TopExists(numbers: set<nat>)
    requires numbers != {}
    ensures exists n :: IsTop(numbers, n)
  {
    var x :| x in numbers;
    if numbers == {x} {
      assert IsTop(numbers, x);
    } else {
      TopExists(numbers - {x});
      var n :| IsTop(numbers - {x}, n);
      var m := if n < x then x else n;
      forall j | j in numbers
        ensures j <= m
      {
        assert j == x || j in numbers - {x};
      }
      assert IsTop(numbers, m);
    }
  }

  /** `COALESCE(MAX(relay_seq), 0)`. */
  function Top(numbers: set<nat>): (r: nat)
    ensures numbers == {} ==> r == 0
    ensures numbers != {} ==> IsTop(numbers, r)
  {
    if numbers == {} then 0
    else
      TopExists(numbers);
      var n :| n in numbers && IsTop(numbers, n);
      n
  }

  datatype Tables = Tables(oplog: Oplog, heads: Heads, arrivals: map<nat, Arrival>, floor: nat)

  /** A new op takes the next number and is folded into its row's head. */
  function AppendedTo(t: Tables, row: RowRef, key: OrderKey, now: int): Tables {
    if key.opId in t.oplog then t
    else
      var o := WithOp(t.oplog, row, key);
      Tables(o, Upserted(o, t.heads, row, key), t.arrivals[Top(t.arrivals.Keys) + 1 := Arrival(key.opId, now)], t.floor)
  }

  /** The attached database. `pinned` is the union of the queues whose ops no compaction
      may touch. */
  class Db {
    const epoch: nat
    var oplog: Oplog
    var heads: Heads
    var arrivals: map<nat, Arrival>
    var floor: nat
    var pinned: set<OpId>

    constructor (epoch: nat)
      ensures this.epoch == epoch && oplog == map[] && heads == map[] && arrivals == map[] && floor == 0 && pinned == {}
    {
      this.epoch := epoch;
      oplog, heads, arrivals, floor, pinned := map[], map[], map[], 0, {};
    }
  }

  function View(db: Db): Tables
    reads db
  {
    Tables(db.oplog, db.heads, db.arrivals, db.floor)
  }

  /** `upsert_head`. */
  method UpsertHead(db: Db, row: RowRef, key: OrderKey)
    modifies db`heads
    ensures db.heads == Upserted(db.oplog, old(db.heads), row, key)
  {
    if row !in db.heads {
      db.heads := db.heads[row := Head(key, key.device)];
    } else if Less(db.heads[row].key, key) {
      db.heads := db.heads[row := db.heads[row].(key := key)];
    }
    if !HasLower(db.oplog, row, key) {
      db.heads := db.heads[row := db.heads[row].(origin := key.device)];
    }
  }

  /** `append`: a repeat changes nothing; a new op is logged, numbered and folded into
      its row's head. */
  method AppendOp(db: Db, row: RowRef, key: OrderKey, now: int) returns (isNew: bool)
    modifies db`oplog, db`arrivals, db`heads
    ensures isNew <==> key.opId !in old(db.oplog)
    ensures View(db) == AppendedTo(old(View(db)), row, key, now)
  {
    hide Applied;
    hide Upserted;
    isNew := key.opId !in db.oplog;
    if isNew {
      db.oplog := db.oplog[key.opId := OpRow(key.hlc, key.device, row, true)];
      db.arrivals := db.arrivals[Top(db.arrivals.Keys) + 1 := Arrival(key.opId, now)];
      UpsertHead(db, row, key);
    }
  }

  /** `demote_head`, run after the op was marked `applied = 0`. */
  method DemoteHead(db: Db, id: OpId)
    modifies db`heads
    ensures db.heads == Demoted(db.oplog, old(db.heads), id)
  {
    if id !in db.oplog {
      return;
    }
    var row := db.oplog[id].row;
    if row !in db.heads || db.heads[row].key.opId != id {
      return;
    }
    var replacement := Greatest(Applied(db.oplog, row));
    if replacement.Some? {
      db.heads := db.heads[row := db.heads[row].(key := replacement.value)];
    } else {
      db.heads := db.heads - {row};
    }
  }

  /** `rebuild_head`. */
  method RebuildHead(db: Db, row: RowRef)
    modifies db`heads
    ensures db.heads == Rebuilt(db.oplog, old(db.heads), row)
    ensures HeadExact(db.oplog, db.heads, row) && OriginExact(db.oplog, db.heads, row)
  {
    RebuildIsExact(db.oplog, db.heads, row);
    var newest := Greatest(Applied(db.oplog, row));
    if newest.Some? {
      var earliest := Least(Applied(db.oplog, row)).value;
      db.heads := db.heads[row := Head(newest.value, earliest.device)];
    } else {
      db.heads := db.heads - {row};
    }
  }

  /** `newest_applied_in_store`: on a row whose head is exact, the greatest applied op
      other than the excluded one. */
  method NewestApplied(db: Db, row: RowRef, exclude: OpId) returns (r: Option<OrderKey>)
    ensures r == HeadFirst(db.oplog, db.heads, row, exclude)
    ensures HeadExact(db.oplog, db.heads, row) ==> r == Greatest(Without(Applied(db.oplog, row), exclude))
  {
    if row in db.heads {
      var key := db.heads[row].key;
      if key.opId != exclude {
        if HeadExact(db.oplog, db.heads, row) { HeadFirstIsScan(db.oplog, db.heads, row, exclude); }
        return Some(key);
      }
    }
    r := Greatest(Without(Applied(db.oplog, row), exclude));
  }
}
