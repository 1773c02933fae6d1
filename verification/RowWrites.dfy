/** Guarded row writes (src/sqlite/rows.rs): a pulled op reaches its table only when it
    beats every other logged op of its row. When that makes tables converge whatever the
    order, and when not. */
module RowWrites {
  import opened OrderKeys
  import opened SqlLog

  datatype Scalar = Null | Integer(i: int) | Real(r: real) | Text(s: string) | Blob(b: seq<Byte>)

  type Image = map<string, Scalar>

  datatype Mutation = Upsert(columns: Image) | Delete

  datatype RowOp = RowOp(key: OrderKey, row: RowRef, mutation: Mutation)

  /** Both databases: the log with its heads, and the tables the ops write. */
  datatype Store = Store(oplog: Oplog, heads: Heads, rows: map<RowRef, Image>)

  /** Where ops are written: the columns each table has here with their defaults, the tables
      that are local to the device, and the key columns a row is found by. */
  datatype Site = Site(schema: map<string, Image>, deviceLocal: set<string>, keyColumns: RowRef -> set<string>)
  {
    /** A table that is missing or local, or lacks a key column, is never written. */
    predicate Writes(row: RowRef) {
      row.table !in deviceLocal && row.table in schema && keyColumns(row) <= schema[row.table].Keys
    }

    /** What a row shows that was inserted without naming a column. */
    function Blank(row: RowRef): Image {
      if row.table in schema then schema[row.table] else map[]
    }

    /** The columns of an upsert that exist here. */
    function Local(row: RowRef, columns: Image): Image {
      columns - (columns.Keys - Blank(row).Keys)
    }
  }

  /** What a row shows, if anything, after a mutation: an insert gives every column it does
      not name its default, an update leaves it alone. */
  function WithMutation(site: Site, row: RowRef, image: Option<Image>, m: Mutation): Option<Image> {
    if !site.Writes(row) then image
    else
      match m
      case Upsert(columns) =>
        var local := site.Local(row, columns);
        if local == map[] then image else Some((if image.Some? then image.value else site.Blank(row)) + local)
      case Delete => None
  }

  function At(rows: map<RowRef, Image>, row: RowRef): Option<Image> {
    if row in rows then Some(rows[row]) else None
  }

  /** `write_row` on all tables. */
  function Written(site: Site, rows: map<RowRef, Image>, op: RowOp): map<RowRef, Image> {
    match WithMutation(site, op.row, At(rows, op.row), op.mutation)
    case Some(image) => rows[op.row := image]
    case None => rows - {op.row}
  }

  /** What a write does, column by column: nothing to other rows, nothing on a table that is
      missing, local or lacks a key column, nothing for an upsert of unknown columns alone; a
      delete takes the row; an upsert sets the columns it names that exist here and leaves
      the others, at their defaults in a new row. */
  lemma WrittenExactly(site: Site, rows: map<RowRef, Image>, op: RowOp)
    ensures var rows', t := Written(site, rows, op), op.row.table;
            && (forall r | r != op.row :: At(rows', r) == At(rows, r))
            && (if t in site.deviceLocal || t !in site.schema || !(site.keyColumns(op.row) <= site.schema[t].Keys)
                then At(rows', op.row) == At(rows, op.row)
                else if op.mutation.Delete? then op.row !in rows'
                else if forall c | c in op.mutation.columns :: c !in site.schema[t] then At(rows', op.row) == At(rows, op.row)
                else
                  && op.row in rows'
                  && var base := if op.row in rows then rows[op.row] else site.schema[t];
                     forall c ::
                       if c in op.mutation.columns && c in site.schema[t]
                       then c in rows'[op.row] && rows'[op.row][c] == op.mutation.columns[c]
                       else (c in rows'[op.row] <==> c in base) && (c in base ==> rows'[op.row][c] == base[c]))
  {
    if op.mutation.Upsert? && op.row.table in site.schema {
      var columns, local := op.mutation.columns, site.Local(op.row, op.mutation.columns);
      assert forall c :: c in local <==> c in columns && c in site.schema[op.row.table];
      if forall c | c in columns :: c !in site.schema[op.row.table] {
        assert local == map[];
      }
    }
  }

  /** The tables of one connection. */
  class RowTable {
    const site: Site
    var rows: map<RowRef, Image>

    constructor (site: Site)
      ensures this.site == site && rows == map[]
    {
      this.site, rows := site, map[];
    }

    /** `write_row`: the table effect of what the local schema leaves of the op. `refused` is
        a constraint failure, which leaves the row alone; an upsert that would change nothing
        reports so. */
    method WriteRow(op: RowOp, refused: bool) returns (changed: bool)
      modifies this
      ensures rows == if refused then old(rows) else Written(site, old(rows), op)
      ensures !changed ==> rows == old(rows)
      ensures changed ==> site.Writes(op.row) && !refused
    {
      if op.row.table in site.deviceLocal {
        return false;
      }
      if op.row.table !in site.schema {
        return false;
      }
      var local := site.schema[op.row.table];
      if !(site.keyColumns(op.row) <= local.Keys) {
        return false;
      }
      match op.mutation
      case Upsert(all) =>
        var columns := all - (all.Keys - local.Keys);
        assert columns == site.Local(op.row, all);
        if columns == map[] {
          return false;
        }
        if op.row in rows && forall c | c in columns :: c in rows[op.row] && rows[op.row][c] == columns[c] {
          assert rows[op.row] + columns == rows[op.row];
          return false;
        }
        if refused {
          return false;
        }
        rows := rows[op.row := (if op.row in rows then rows[op.row] else local) + columns];
        changed := true;
      case Delete =>
        if refused {
          return false;
        }
        rows := rows - {op.row};
        changed := true;
    }
  }

  /** The guard: nothing else logged for the row is as great. */
  predicate Verdict(oplog: Oplog, heads: Heads, op: RowOp) {
    var newest := HeadFirst(oplog, heads, op.row, op.key.opId);
    newest.None? || Less(newest.value, op.key)
  }

  /** `write_row_if_newer`: the write is attempted exactly when no other logged op of the
      row is as great. */
  method WriteRowIfNewer(db: Db, table: RowTable, op: RowOp, refused: bool) returns (changed: bool)
    modifies table
    ensures table.rows == if Verdict(db.oplog, db.heads, op) && !refused then Written(table.site, old(table.rows), op) else old(table.rows)
    ensures changed ==> Verdict(db.oplog, db.heads, op)
  {
    var newest := NewestApplied(db, op.row, op.key.opId);
    if newest.Some? && AtMost(op.key, newest.value) {
      return false;
    }
    changed := table.WriteRow(op, refused);
  }

  function Logged(s: Store, op: RowOp): Store {
    var t := AppendedTo(Tables(s.oplog, s.heads, map[], 0), op.row, op.key, 0);
    Store(t.oplog, t.heads, s.rows)
  }

  function Guarded(site: Site, s: Store, op: RowOp): Store {
    if Verdict(s.oplog, s.heads, op) then s.(rows := Written(site, s.rows, op)) else s
  }

  /** One delivery: the op is logged before the guarded write, or after. */
  function Delivered(site: Site, s: Store, op: RowOp, logFirst: bool): Store {
    if logFirst then Guarded(site, Logged(s, op), op) else Logged(Guarded(site, s, op), op)
  }

  function DeliveredAll(site: Site, ops: seq<(RowOp, bool)>): Store {
    if ops == [] then Store(map[], map[], map[])
    else Delivered(site, DeliveredAll(site, ops[..|ops| - 1]), ops[|ops| - 1].0, ops[|ops| - 1].1)
  }

  // -------------------------------------------------------------- convergence

  /** Ops are content-addressed: one id, one op. */
  ghost predicate OneOpPerId(ops: seq<(RowOp, bool)>) {
    forall i, j | 0 <= i < |ops| && 0 <= j < |ops| && ops[i].0.key.opId == ops[j].0.key.opId :: ops[i].0 == ops[j].0
  }

  /** The op with this key is among those delivered. */
  ghost predicate Carried(ops: seq<(RowOp, bool)>, op: RowOp) {
    exists i :: 0 <= i < |ops| && ops[i].0 == op
  }

  /** The log holds exactly what was delivered. */
  ghost predicate LogExact(ops: seq<(RowOp, bool)>, oplog: Oplog) {
    && (forall op | Carried(ops, op) :: IsApplied(oplog, op.row, op.key))
    && (forall id | id in oplog :: exists m :: oplog[id].applied && Carried(ops, RowOp(KeyOf(id, oplog[id]), oplog[id].row, m)))
  }

  /** The guard's verdict on an op does not depend on whether the op is logged already. */
  lemma VerdictIgnoresItself(s: Store, op: RowOp)
    requires HeadExact(s.oplog, s.heads, op.row)
    requires op.key.opId !in s.oplog || IsApplied(s.oplog, op.row, op.key)
    ensures Verdict(Logged(s, op).oplog, Logged(s, op).heads, op) == Verdict(s.oplog, s.heads, op)
  {
    if op.key.opId !in s.oplog {
      var o := WithOp(s.oplog, op.row, op.key);
      UpsertKeepsHead(s.oplog, s.heads, op.row, op.key, op.row);
      AppliedWithOp(s.oplog, op.row, op.key, op.row);
      hide Applied;
      HeadFirstIsScan(s.oplog, s.heads, op.row, op.key.opId);
      HeadFirstIsScan(o, Upserted(o, s.heads, op.row, op.key), op.row, op.key.opId);
      assert Without(Applied(s.oplog, op.row) + {op.key}, op.key.opId) == Without(Applied(s.oplog, op.row), op.key.opId);
    }
  }

  /** So logging first or last comes to the same. */
  lemma OrderOfLoggingIsFree(site: Site, s: Store, op: RowOp)
    requires HeadExact(s.oplog, s.heads, op.row)
    requires op.key.opId !in s.oplog || IsApplied(s.oplog, op.row, op.key)
    ensures Delivered(site, s, op, true) == Delivered(site, s, op, false)
  {
    hide Verdict;
    hide AppendedTo;
    VerdictIgnoresItself(s, op);
  }

  lemma CarriedMore(ops: seq<(RowOp, bool)>, last: (RowOp, bool), op: RowOp)
    ensures Carried(ops + [last], op) <==> Carried(ops, op) || op == last.0
  {
    var all := ops + [last];
    if Carried(ops, op) {
      var i :| 0 <= i < |ops| && ops[i].0 == op;
      assert all[i].0 == op;
    }
    assert all[|ops|] == last;
  }

  lemma LogAfter(ops: seq<(RowOp, bool)>, s: Store, last: (RowOp, bool))
    requires LogExact(ops, s.oplog) && OneOpPerId(ops + [last])
    ensures LogExact(ops + [last], Logged(s, last.0).oplog)
    ensures last.0.key.opId !in s.oplog || IsApplied(s.oplog, last.0.row, last.0.key)
  {
    hide Upserted;
    var op, o := last.0, Logged(s, last.0).oplog;
    if op.key.opId in s.oplog {
      var id := op.key.opId;
      var m :| s.oplog[id].applied && Carried(ops, RowOp(KeyOf(id, s.oplog[id]), s.oplog[id].row, m));
      SameId(ops, last, RowOp(KeyOf(id, s.oplog[id]), s.oplog[id].row, m));
    }
    forall other | Carried(ops + [last], other)
      ensures IsApplied(o, other.row, other.key)
    {
      CarriedMore(ops, last, other);
      if Carried(ops, other) && other.key.opId == op.key.opId {
        SameId(ops, last, other);
      }
    }
    forall id | id in o
      ensures exists m :: o[id].applied && Carried(ops + [last], RowOp(KeyOf(id, o[id]), o[id].row, m))
    {
      if id in s.oplog {
        var m :| s.oplog[id].applied && Carried(ops, RowOp(KeyOf(id, s.oplog[id]), s.oplog[id].row, m));
        CarriedMore(ops, last, RowOp(KeyOf(id, s.oplog[id]), s.oplog[id].row, m));
      } else {
        CarriedMore(ops, last, op);
        assert o[id].applied && Carried(ops + [last], RowOp(KeyOf(id, o[id]), o[id].row, op.mutation));
      }
    }
  }

  lemma SameId(ops: seq<(RowOp, bool)>, last: (RowOp, bool), op: RowOp)
    requires OneOpPerId(ops + [last]) && Carried(ops, op) && op.key.opId == last.0.key.opId
    ensures op == last.0
  {
    var all := ops + [last];
    var i :| 0 <= i < |ops| && ops[i].0 == op;
    assert all[i].0 == op && all[|ops|] == last;
  }

  lemma HeadAfter(s: Store, op: RowOp, row: RowRef)
    requires HeadExact(s.oplog, s.heads, row)
    requires op.key.opId !in s.oplog || IsApplied(s.oplog, op.row, op.key)
    ensures HeadExact(Logged(s, op).oplog, Logged(s, op).heads, row)
  {
    hide HeadExact;
    hide Upserted;
    if op.key.opId !in s.oplog {
      UpsertKeepsHead(s.oplog, s.heads, op.row, op.key, row);
    }
  }

  lemma {:induction false} LogIsExact(site: Site, ops: seq<(RowOp, bool)>)
    requires OneOpPerId(ops)
    ensures LogExact(ops, DeliveredAll(site, ops).oplog)
    ensures forall row :: HeadExact(DeliveredAll(site, ops).oplog, DeliveredAll(site, ops).heads, row)
  {
    if ops == [] {
      assert forall row, k :: !IsApplied(map[], row, k);
    } else {
      var init, last := ops[..|ops| - 1], ops[|ops| - 1];
      assert ops == init + [last];
      LogIsExact(site, init);
      var s := DeliveredAll(site, init);
      LogAfter(init, s, last);
      OrderOfLoggingIsFree(site, s, last.0);
      hide LogExact;
      hide HeadExact;
      hide AppendedTo;
      forall row
        ensures HeadExact(Logged(s, last.0).oplog, Logged(s, last.0).heads, row)
      {
        HeadAfter(s, last.0, row);
      }
    }
  }

  // ----------------------------------------------------------- one row's image

  lemma WrittenAt(site: Site, rows: map<RowRef, Image>, op: RowOp, row: RowRef)
    ensures At(Written(site, rows, op), row) == if row == op.row then WithMutation(site, row, At(rows, row), op.mutation) else At(rows, row)
  {
  }

  /** No delivered op of the row sorts above this one. */
  ghost predicate Beats(ops: seq<(RowOp, bool)>, op: RowOp) {
    forall o | Carried(ops, o) && o.row == op.row :: AtMost(o.key, op.key)
  }

  /** The guard, read off the heads, is that comparison. */
  lemma VerdictExactly(site: Site, ops: seq<(RowOp, bool)>, last: (RowOp, bool))
    requires OneOpPerId(ops + [last])
    ensures Verdict(DeliveredAll(site, ops).oplog, DeliveredAll(site, ops).heads, last.0) <==> Beats(ops, last.0)
  {
    var s, op := DeliveredAll(site, ops), last.0;
    InitHasOneOpPerId(ops, last);
    LogIsExact(site, ops);
    HeadFirstIsScan(s.oplog, s.heads, op.row, op.key.opId);
    hide DeliveredAll;
    hide HeadExact;
    var keys := Without(Applied(s.oplog, op.row), op.key.opId);
    var newest := Greatest(keys);
    if Verdict(s.oplog, s.heads, op) {
      forall o | Carried(ops, o) && o.row == op.row
        ensures AtMost(o.key, op.key)
      {
        assert IsApplied(s.oplog, o.row, o.key);
        if o.key.opId == op.key.opId {
          SameId(ops, last, o);
        } else {
          assert o.key in keys;
        }
      }
    }
    if Beats(ops, op) && newest.Some? {
      var k := newest.value;
      assert IsApplied(s.oplog, op.row, k);
      var m :| s.oplog[k.opId].applied && Carried(ops, RowOp(KeyOf(k.opId, s.oplog[k.opId]), s.oplog[k.opId].row, m));
      assert AtMost(k, op.key) && k != op.key;
    }
  }

  lemma InitHasOneOpPerId(ops: seq<(RowOp, bool)>, last: (RowOp, bool))
    requires OneOpPerId(ops + [last])
    ensures OneOpPerId(ops)
  {
    var all := ops + [last];
    assert forall i | 0 <= i < |ops| :: all[i] == ops[i];
  }

  /** The row as its own deliveries make it: each op is merged in unless a greater one has
      been delivered. */
  ghost function ImageAfter(site: Site, ops: seq<(RowOp, bool)>, row: RowRef): Option<Image> {
    if ops == [] then None
    else
      var init, op := ops[..|ops| - 1], ops[|ops| - 1].0;
      if op.row == row && Beats(init, op) then WithMutation(site, row, ImageAfter(site, init, row), op.mutation) else ImageAfter(site, init, row)
  }

  /** Heads, guard and tables together do just that. */
  lemma {:induction false} RowsAreImages(site: Site, ops: seq<(RowOp, bool)>, row: RowRef)
    requires OneOpPerId(ops)
    ensures At(DeliveredAll(site, ops).rows, row) == ImageAfter(site, ops, row)
  {
    hide WithMutation;
    hide Delivered;
    hide OneOpPerId;
    hide Beats;
    if ops != [] {
      var init, last := ops[..|ops| - 1], ops[|ops| - 1];
      assert ops == init + [last];
      InitHasOneOpPerId(init, last);
      RowsAreImages(site, init, row);
      DeliveryExactly(site, init, last, row);
    }
  }

  /** One delivery changes its row by the op exactly when the op beats what came before. */
  lemma DeliveryExactly(site: Site, ops: seq<(RowOp, bool)>, last: (RowOp, bool), row: RowRef)
    requires OneOpPerId(ops + [last])
    ensures var rows := DeliveredAll(site, ops).rows;
            At(Delivered(site, DeliveredAll(site, ops), last.0, last.1).rows, row)
            == if last.0.row == row && Beats(ops, last.0) then WithMutation(site, row, At(rows, row), last.0.mutation) else At(rows, row)
  {
    hide LogExact;
    hide HeadExact;
    hide AppendedTo;
    hide Verdict;
    hide Written;
    hide OneOpPerId;
    hide Beats;
    hide DeliveredAll;
    InitHasOneOpPerId(ops, last);
    LogIsExact(site, ops);
    var s := DeliveredAll(site, ops);
    LogAfter(ops, s, last);
    OrderOfLoggingIsFree(site, s, last.0);
    VerdictExactly(site, ops, last);
    WrittenAt(site, s.rows, last.0, row);
  }

  // -------------------------------------------------------------- convergence

  /** The greatest op delivered for a row. */
  ghost predicate Winner(ops: seq<(RowOp, bool)>, row: RowRef, top: RowOp) {
    Carried(ops, top) && top.row == row && Beats(ops, top)
  }

  /** An upsert shows nothing through `top`: what it names besides has its default, and it
      names nothing where `top` names nothing. */
  predicate ShowsNothing(site: Site, row: RowRef, columns: Image, top: Image) {
    var x, y := site.Local(row, columns), site.Local(row, top);
    (forall c | c in x && c !in y :: x[c] == site.Blank(row)[c]) && (y == map[] ==> x == map[])
  }

  /** A delete settles a row, and an upsert does when no upsert of the row shows through. */
  ghost predicate Settles(site: Site, ops: seq<(RowOp, bool)>, top: RowOp) {
    || !site.Writes(top.row)
    || top.mutation.Delete?
    || forall o | Carried(ops, o) && o.row == top.row && o.mutation.Upsert? ::
         ShowsNothing(site, top.row, o.mutation.columns, top.mutation.columns)
  }

  /** What is merged in below a settling upsert has the default of every column it leaves
      out. */
  ghost predicate Inside(site: Site, image: Option<Image>, top: RowOp) {
    && (!site.Writes(top.row) ==> image.None?)
    && (image.Some? && top.mutation.Upsert? ==>
          var y, blank := site.Local(top.row, top.mutation.columns), site.Blank(top.row);
          && y != map[] && image.value.Keys == blank.Keys
          && forall c | c in blank && c !in y :: image.value[c] == blank[c])
  }

  lemma MergeInside(site: Site, image: Option<Image>, m: Mutation, top: RowOp)
    requires Inside(site, image, top)
    requires site.Writes(top.row) && m.Upsert? && top.mutation.Upsert? ==> ShowsNothing(site, top.row, m.columns, top.mutation.columns)
    ensures Inside(site, WithMutation(site, top.row, image, m), top)
    ensures m == top.mutation ==> WithMutation(site, top.row, image, m) == WithMutation(site, top.row, None, m)
  {
    if site.Writes(top.row) && m.Upsert? && top.mutation.Upsert? {
      var x, y, blank := site.Local(top.row, m.columns), site.Local(top.row, top.mutation.columns), site.Blank(top.row);
      if x != map[] {
        var base := if image.Some? then image.value else blank;
        assert (base + x).Keys == blank.Keys;
        if m == top.mutation {
          assert base + x == blank + x;
        }
      } else if m == top.mutation {
        assert image.None?;
      }
    }
  }

  lemma {:induction false} SettledImage(site: Site, ops: seq<(RowOp, bool)>, all: seq<(RowOp, bool)>, row: RowRef, top: RowOp)
    requires OneOpPerId(all) && Winner(all, row, top) && Settles(site, all, top)
    requires forall o | Carried(ops, o) :: Carried(all, o)
    ensures Inside(site, ImageAfter(site, ops, row), top)
    ensures Carried(ops, top) ==> ImageAfter(site, ops, row) == WithMutation(site, row, None, top.mutation)
  {
    if ops != [] {
      var init, last := ops[..|ops| - 1], ops[|ops| - 1];
      assert ops == init + [last];
      forall o
        ensures Carried(ops, o) <==> Carried(init, o) || o == last.0
      {
        CarriedMore(init, last, o);
      }
      hide Carried;
      hide OneOpPerId;
      SettledImage(site, init, all, row, top);
      if last.0.row == row {
        MergeInside(site, ImageAfter(site, init, row), last.0.mutation, top);
        if last.0 != top && Carried(init, top) {
          OneMutation(all, last.0, top);
        }
      }
    }
  }

  lemma OneMutation(ops: seq<(RowOp, bool)>, x: RowOp, y: RowOp)
    requires OneOpPerId(ops) && Carried(ops, x) && Carried(ops, y) && x != y
    ensures x.key.opId != y.key.opId
  {
  }

  /** The ops of one sequence, in another order and with other repeats. */
  ghost predicate SameOps(a: seq<(RowOp, bool)>, b: seq<(RowOp, bool)>) {
    forall op :: Carried(a, op) <==> Carried(b, op)
  }

  /** Every order and repetition of the deliveries leaves the row showing the same. */
  ghost predicate Converges(site: Site, ops: seq<(RowOp, bool)>, row: RowRef) {
    forall other | SameOps(ops, other) :: At(DeliveredAll(site, other).rows, row) == At(DeliveredAll(site, ops).rows, row)
  }

  lemma SameOpsOnePerId(a: seq<(RowOp, bool)>, b: seq<(RowOp, bool)>)
    requires OneOpPerId(a) && SameOps(a, b)
    ensures OneOpPerId(b)
  {
    forall i, j | 0 <= i < |b| && 0 <= j < |b| && b[i].0.key.opId == b[j].0.key.opId
      ensures b[i].0 == b[j].0
    {
      assert Carried(b, b[i].0) && Carried(b, b[j].0);
      var m :| 0 <= m < |a| && a[m].0 == b[i].0;
      var n :| 0 <= n < |a| && a[n].0 == b[j].0;
    }
  }

  /** A settled row shows its greatest op and nothing else. */
  lemma DeliveriesConverge(site: Site, ops: seq<(RowOp, bool)>, row: RowRef, top: RowOp)
    requires OneOpPerId(ops) && Winner(ops, row, top) && Settles(site, ops, top)
    ensures At(DeliveredAll(site, ops).rows, row) == WithMutation(site, row, None, top.mutation)
  {
    RowsAreImages(site, ops, row);
    SettledImage(site, ops, ops, row, top);
  }

  /** Once the greatest op is in, only its own repeats are merged in. */
  lemma {:induction false} WinnerStays(site: Site, head: seq<(RowOp, bool)>, tail: seq<(RowOp, bool)>, row: RowRef, top: RowOp)
    requires OneOpPerId(head + tail) && Winner(head + tail, row, top) && Carried(head, top)
    requires WithMutation(site, row, ImageAfter(site, head, row), top.mutation) == ImageAfter(site, head, row)
    ensures ImageAfter(site, head + tail, row) == ImageAfter(site, head, row)
  {
    if tail == [] {
      assert head + tail == head;
    } else {
      var init, last := tail[..|tail| - 1], tail[|tail| - 1];
      var all := head + tail;
      assert all == (head + init) + [last] && all[..|all| - 1] == head + init;
      forall o
        ensures Carried(all, o) <==> Carried(head + init, o) || o == last.0
      {
        CarriedMore(head + init, last, o);
      }
      InitHasOneOpPerId(head + init, last);
      assert Carried(head + init, top) by {
        var i :| 0 <= i < |head| && head[i].0 == top;
        assert (head + init)[i].0 == top;
      }
      hide Carried;
      hide OneOpPerId;
      WinnerStays(site, head, init, row, top);
      if last.0 != top {
        OneMutation(all, last.0, top);
      }
    }
  }

  lemma PrefixedSameOps(head: seq<(RowOp, bool)>, ops: seq<(RowOp, bool)>)
    requires forall i | 0 <= i < |head| :: Carried(ops, head[i].0)
    ensures SameOps(ops, head + ops)
  {
    var all := head + ops;
    forall op
      ensures Carried(ops, op) <==> Carried(all, op)
    {
      if Carried(ops, op) {
        var i :| 0 <= i < |ops| && ops[i].0 == op;
        assert all[|head| + i].0 == op;
      }
      if Carried(all, op) {
        var i :| 0 <= i < |all| && all[i].0 == op;
        assert i >= |head| ==> ops[i - |head|].0 == op;
      }
    }
  }

  /** The greatest op first, then whatever else. */
  lemma WinnerFirst(site: Site, ops: seq<(RowOp, bool)>, row: RowRef, top: RowOp)
    requires OneOpPerId(ops) && Winner(ops, row, top)
    ensures SameOps(ops, [(top, false)] + ops)
    ensures ImageAfter(site, [(top, false)] + ops, row) == WithMutation(site, row, None, top.mutation)
  {
    var head := [(top, false)];
    PrefixedSameOps(head, ops);
    SameOpsOnePerId(ops, head + ops);
    assert head[..0] == [] && Carried(head, head[0].0);
    assert ImageAfter(site, head, row) == WithMutation(site, row, None, top.mutation);
    MutationTwice(site, row, None, top.mutation);
    WinnerStays(site, head, ops, row, top);
  }

  /** A smaller op first, then the greatest, then whatever else. */
  lemma WinnerSecond(site: Site, ops: seq<(RowOp, bool)>, row: RowRef, top: RowOp, x: RowOp)
    requires OneOpPerId(ops) && Winner(ops, row, top) && Carried(ops, x) && x.row == row && x != top
    ensures SameOps(ops, [(x, false), (top, false)] + ops)
    ensures ImageAfter(site, [(x, false), (top, false)] + ops, row) == WithMutation(site, row, WithMutation(site, row, None, x.mutation), top.mutation)
  {
    var head := [(x, false), (top, false)];
    PrefixedSameOps(head, ops);
    SameOpsOnePerId(ops, head + ops);
    assert head[..1] == [(x, false)] && [(x, false)][..0] == [];
    assert ImageAfter(site, [(x, false)], row) == WithMutation(site, row, None, x.mutation);
    assert Carried(head, head[1].0) && forall o | Carried([(x, false)], o) :: o == x;
    assert ImageAfter(site, head, row) == WithMutation(site, row, WithMutation(site, row, None, x.mutation), top.mutation);
    MutationTwice(site, row, WithMutation(site, row, None, x.mutation), top.mutation);
    WinnerStays(site, head, ops, row, top);
  }

  lemma MutationTwice(site: Site, row: RowRef, image: Option<Image>, m: Mutation)
    ensures WithMutation(site, row, WithMutation(site, row, image, m), m) == WithMutation(site, row, image, m)
  {
    if m.Upsert? {
      var x := site.Local(row, m.columns);
      assert (site.Blank(row) + x) + x == site.Blank(row) + x;
      assert image.Some? ==> (image.value + x) + x == image.value + x;
    }
  }

  /** An upsert that shows through the greatest one does so in one order and not in
      another. */
  lemma PartialImagesDiverge(site: Site, ops: seq<(RowOp, bool)>, row: RowRef, top: RowOp, x: RowOp)
    requires OneOpPerId(ops) && Winner(ops, row, top) && top.mutation.Upsert? && site.Writes(row)
    requires Carried(ops, x) && x.row == row && x.mutation.Upsert? && !ShowsNothing(site, row, x.mutation.columns, top.mutation.columns)
    ensures !Converges(site, ops, row)
  {
    hide Carried;
    hide OneOpPerId;
    hide SameOps;
    hide DeliveredAll;
    hide ImageAfter;
    hide Beats;
    WinnerFirst(site, ops, row, top);
    WinnerSecond(site, ops, row, top, x);
    var first, second := [(top, false)] + ops, [(x, false), (top, false)] + ops;
    SameOpsOnePerId(ops, first);
    SameOpsOnePerId(ops, second);
    RowsAreImages(site, first, row);
    RowsAreImages(site, second, row);
    ShowsThrough(site, row, x.mutation, top.mutation);
  }

  lemma ShowsThrough(site: Site, row: RowRef, m: Mutation, top: Mutation)
    requires site.Writes(row) && m.Upsert? && top.Upsert? && !ShowsNothing(site, row, m.columns, top.columns)
    ensures WithMutation(site, row, WithMutation(site, row, None, m), top) != WithMutation(site, row, None, top)
  {
    var x, y, blank := site.Local(row, m.columns), site.Local(row, top.columns), site.Blank(row);
    if c :| c in x && c !in y && x[c] != blank[c] {
      assert ((blank + x) + y)[c] == x[c];
      assert y != map[] ==> (blank + y)[c] == blank[c];
    }
  }

  lemma {:induction false} WinnerExists(ops: seq<(RowOp, bool)>, row: RowRef)
    requires exists o :: Carried(ops, o) && o.row == row
    ensures exists top :: Winner(ops, row, top)
  {
    var init, last := ops[..|ops| - 1], ops[|ops| - 1];
    assert ops == init + [last];
    forall o
      ensures Carried(ops, o) <==> Carried(init, o) || o == last.0
    {
      CarriedMore(init, last, o);
    }
    hide Carried;
    if exists o :: Carried(init, o) && o.row == row {
      WinnerExists(init, row);
      var top :| Winner(init, row, top);
      assert Winner(ops, row, if last.0.row == row && Less(top.key, last.0.key) then last.0 else top);
    } else {
      assert Winner(ops, row, last.0);
    }
  }

  lemma {:induction false} NoOpsNoImage(site: Site, ops: seq<(RowOp, bool)>, row: RowRef)
    requires forall o | Carried(ops, o) :: o.row != row
    ensures ImageAfter(site, ops, row) == None
  {
    if ops != [] {
      var init, last := ops[..|ops| - 1], ops[|ops| - 1];
      assert ops == init + [last];
      forall o
        ensures Carried(ops, o) <==> Carried(init, o) || o == last.0
      {
        CarriedMore(init, last, o);
      }
      NoOpsNoImage(site, init, row);
    }
  }

  /** Every order and repetition leaves a row the same if and only if its table is not
      written here, or its greatest op is a delete, or each upsert of the row gives every
      column the greatest one leaves out its default, and names none if that one names
      none. */
  lemma ConvergesExactly(site: Site, ops: seq<(RowOp, bool)>, row: RowRef)
    requires OneOpPerId(ops)
    ensures Converges(site, ops, row) <==> forall top | Winner(ops, row, top) :: Settles(site, ops, top)
  {
    if forall top | Winner(ops, row, top) :: Settles(site, ops, top) {
      forall other | SameOps(ops, other)
        ensures At(DeliveredAll(site, other).rows, row) == At(DeliveredAll(site, ops).rows, row)
      {
        SettledAlike(site, ops, other, row);
      }
    } else {
      var top :| Winner(ops, row, top) && !Settles(site, ops, top);
      var x :| Carried(ops, x) && x.row == row && x.mutation.Upsert? && !ShowsNothing(site, row, x.mutation.columns, top.mutation.columns);
      PartialImagesDiverge(site, ops, row, top, x);
    }
  }

  lemma SettledAlike(site: Site, ops: seq<(RowOp, bool)>, other: seq<(RowOp, bool)>, row: RowRef)
    requires OneOpPerId(ops) && SameOps(ops, other)
    requires forall top | Winner(ops, row, top) :: Settles(site, ops, top)
    ensures At(DeliveredAll(site, other).rows, row) == At(DeliveredAll(site, ops).rows, row)
  {
    SameOpsOnePerId(ops, other);
    if exists o :: Carried(ops, o) && o.row == row {
      WinnerExists(ops, row);
      var top :| Winner(ops, row, top);
      hide Carried;
      hide OneOpPerId;
      DeliveriesConverge(site, ops, row, top);
      DeliveriesConverge(site, other, row, top);
    } else {
      RowsAreImages(site, ops, row);
      RowsAreImages(site, other, row);
      NoOpsNoImage(site, ops, row);
      NoOpsNoImage(site, other, row);
    }
  }

  ghost predicate AllSettled(site: Site, ops: seq<(RowOp, bool)>) {
    forall row, top | Winner(ops, row, top) :: Settles(site, ops, top)
  }

  lemma SameRowsAt(a: map<RowRef, Image>, b: map<RowRef, Image>)
    ensures a == b <==> forall row :: At(a, row) == At(b, row)
  {
    if forall row :: At(a, row) == At(b, row) {
      forall row
        ensures (row in a <==> row in b) && (row in a ==> a[row] == b[row])
      {
        assert At(a, row) == At(b, row);
      }
    }
  }

  /** Any two nodes that are sent these ops show the same rows if and only if every row is
      settled. */
  lemma SameOpsSameRows(site: Site, ops: seq<(RowOp, bool)>)
    requires OneOpPerId(ops)
    ensures (forall other | SameOps(ops, other) :: DeliveredAll(site, other).rows == DeliveredAll(site, ops).rows) <==> AllSettled(site, ops)
  {
    hide OneOpPerId;
    hide SameOps;
    hide DeliveredAll;
    hide Winner;
    hide Settles;
    if AllSettled(site, ops) {
      forall other | SameOps(ops, other)
        ensures DeliveredAll(site, other).rows == DeliveredAll(site, ops).rows
      {
        forall row
          ensures At(DeliveredAll(site, other).rows, row) == At(DeliveredAll(site, ops).rows, row)
        {
          SettledAlike(site, ops, other, row);
        }
        SameRowsAt(DeliveredAll(site, other).rows, DeliveredAll(site, ops).rows);
      }
    } else {
      var row, top :| Winner(ops, row, top) && !Settles(site, ops, top);
      ConvergesExactly(site, ops, row);
      var other :| SameOps(ops, other) && At(DeliveredAll(site, other).rows, row) != At(DeliveredAll(site, ops).rows, row);
    }
  }

  /** Ops that carry every column of their table settle every row. */
  lemma FullImagesSettle(site: Site, ops: seq<(RowOp, bool)>, fields: string -> set<string>, row: RowRef, top: RowOp)
    requires forall o | Carried(ops, o) && o.mutation.Upsert? :: o.mutation.columns.Keys == fields(o.row.table)
    requires Winner(ops, row, top)
    ensures Settles(site, ops, top)
  {
  }
}
