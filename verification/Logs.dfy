/** The reference op-log (src/log.rs): an append-only set of signed ops kept in
    order-key order beside the order in which they first arrived. */
module Logs {
  import opened OrderKeys

  /** A relay stream's random identity; 0 is the all-zero "no cursor yet" value. */
  type Epoch = nat

  /** A signed op. `id` is its content address, so equal ids mean equal ops;
      `wireLen` is the length of its base64 envelope on a page. */
  datatype SignedOp = SignedOp(id: OpId, hlc: nat, device: DeviceId, store: string,
                               payload: seq<Byte>, wireLen: nat)
  {
    function Key(): OrderKey { OrderKey(hlc, device, id) }
  }

  predicate Ascending(ops: seq<SignedOp>) {
    forall i, j | 0 <= i < j < |ops| :: Less(ops[i].Key(), ops[j].Key())
  }

  predicate DistinctIds(ops: seq<SignedOp>) {
    forall i, j | 0 <= i < j < |ops| :: ops[i].id != ops[j].id
  }

  ghost function Ids(ops: seq<SignedOp>): set<OpId> {
    set i | 0 <= i < |ops| :: ops[i].id
  }

  /** What one snapshot of an op-log shows: the ops in key order, and the same ops
      in arrival order, where the op at index `i` has sequence `i + 1`. */
  datatype Log = Log(epoch: Epoch, ops: seq<SignedOp>, arrivals: seq<SignedOp>)
  {
    ghost predicate Valid() {
      && epoch != 0
      && Ascending(ops)
      && DistinctIds(arrivals)
      && (forall op :: op in ops <==> op in arrivals)
    }

    function Head(): nat { |arrivals| }
  }

  /** `later` is what `earlier` becomes by appending. */
  ghost predicate Extends(later: Log, earlier: Log) {
    later.epoch == earlier.epoch && earlier.arrivals <= later.arrivals
  }

  /** `BTreeMap::insert` for a key not yet present. */
  function Insert(ops: seq<SignedOp>, op: SignedOp): (r: seq<SignedOp>)
    ensures forall o :: o in r <==> o == op || o in ops
  {
    if ops == [] then [op]
    else if Less(op.Key(), ops[0].Key()) then [op] + ops
    else
      assert ops == [ops[0]] + ops[1..];
      [ops[0]] + Insert(ops[1..], op)
  }

  lemma {:induction false} InsertAscends(ops: seq<SignedOp>, op: SignedOp)
    requires Ascending(ops)
    requires forall o | o in ops :: o.id != op.id
    ensures Ascending(Insert(ops, op))
  {
    if ops != [] && !Less(op.Key(), ops[0].Key()) {
      InsertAscends(ops[1..], op);
      var rest := Insert(ops[1..], op);
      forall i | 0 <= i < |rest|
        ensures Less(ops[0].Key(), rest[i].Key())
      {
        assert rest[i] in rest;
        assert ops[0] in ops;
      }
    }
  }

  lemma EmptyHasNoMember<T(!new)>(ops: seq<T>)
    ensures ops == [] <==> forall op :: op !in ops
  {
    assert ops != [] ==> ops[0] in ops;
  }

  /** An ascending arrangement of a set of ops is unique. */
  lemma {:induction false} AscendingUnique(a: seq<SignedOp>, b: seq<SignedOp>)
    requires Ascending(a) && Ascending(b)
    requires forall op :: op in a <==> op in b
    ensures a == b
  {
    if a == [] {
      EmptyHasNoMember(b);
    } else {
      assert a[0] in a && a[0] in b;
      assert b[0] in b && b[0] in a;
      assert a[0] == b[0];
      forall op
        ensures op in a[1..] <==> op in b[1..]
      {
        assert op in a[1..] <==> op in a && op != a[0];
        assert op in b[1..] <==> op in b && op != b[0];
      }
      AscendingUnique(a[1..], b[1..]);
      assert a == [a[0]] + a[1..] && b == [b[0]] + b[1..];
    }
  }

  /** `OpLog::append` on values: first arrival wins, repeats change nothing. */
  function Appended(log: Log, op: SignedOp): Log {
    if exists o :: o in log.arrivals && o.id == op.id then log
    else Log(log.epoch, Insert(log.ops, op), log.arrivals + [op])
  }

  lemma AppendedKeepsValid(log: Log, op: SignedOp)
    requires log.Valid()
    ensures Appended(log, op).Valid() && Extends(Appended(log, op), log)
    ensures Ids(Appended(log, op).arrivals) == Ids(log.arrivals) + {op.id}
  {
    var next := Appended(log, op);
    if o :| o in log.arrivals && o.id == op.id {
      var i :| 0 <= i < |log.arrivals| && log.arrivals[i] == o;
      assert log.arrivals[i].id in Ids(log.arrivals);
    } else {
      InsertAscends(log.ops, op);
      forall id
        ensures id in Ids(next.arrivals) <==> id in Ids(log.arrivals) + {op.id}
      {
        if id in Ids(log.arrivals) {
          var i :| 0 <= i < |log.arrivals| && log.arrivals[i].id == id;
          assert next.arrivals[i].id == id;
        }
        assert next.arrivals[|log.arrivals|].id == op.id;
      }
    }
  }

  lemma IdsMember(ops: seq<SignedOp>, id: OpId)
    ensures id in Ids(ops) <==> exists o :: o in ops && o.id == id
  {
  }

  lemma AppendedGrows(log: Log, op: SignedOp)
    ensures |Appended(log, op).arrivals| == |log.arrivals| + (if op.id in Ids(log.arrivals) then 0 else 1)
  {
  }

  /** A log that ops were appended to one by one. */
  function Built(epoch: Epoch, ops: seq<SignedOp>): Log {
    if ops == [] then Log(epoch, [], []) else Appended(Built(epoch, ops[..|ops| - 1]), ops[|ops| - 1])
  }

  ghost predicate ContentAddressed(ops: seq<SignedOp>) {
    forall i, j | 0 <= i < |ops| && 0 <= j < |ops| && ops[i].id == ops[j].id :: ops[i] == ops[j]
  }

  lemma {:induction false} BuiltHolds(epoch: Epoch, ops: seq<SignedOp>)
    requires epoch != 0 && ContentAddressed(ops)
    ensures Built(epoch, ops).Valid() && forall op :: op in Built(epoch, ops).ops <==> op in ops
  {
    if ops != [] {
      var init, last := ops[..|ops| - 1], ops[|ops| - 1];
      assert ops == init + [last];
      BuiltHolds(epoch, init);
      var log := Built(epoch, init);
      AppendedKeepsValid(log, last);
      if o :| o in log.arrivals && o.id == last.id {
        assert o in init;
        assert o == last;
      }
    }
  }

  lemma InsertLater(ops: seq<SignedOp>, i: nat, op: SignedOp)
    requires i < |ops| && !Less(op.Key(), ops[i].Key())
    ensures ops[..i] + Insert(ops[i..], op) == ops[..i + 1] + Insert(ops[i + 1..], op)
  {
    assert ops[i..][1..] == ops[i + 1..];
    var rest := Insert(ops[i + 1..], op);
    assert Insert(ops[i..], op) == [ops[i]] + rest;
    hide Insert;
  }

  lemma InsertHere(ops: seq<SignedOp>, i: nat, op: SignedOp)
    requires i <= |ops| && (i < |ops| ==> Less(op.Key(), ops[i].Key()))
    ensures Insert(ops[i..], op) == [op] + ops[i..]
  {
  }

  /** The ordered insertion as a walk to the place of the new key. */
  method InsertSorted(ops: seq<SignedOp>, op: SignedOp) returns (r: seq<SignedOp>)
    ensures r == Insert(ops, op)
  {
    hide Insert;
    var i := 0;
    assert ops[0..] == ops;
    while i < |ops| && !Less(op.Key(), ops[i].Key())
      invariant 0 <= i <= |ops|
      invariant Insert(ops, op) == ops[..i] + Insert(ops[i..], op)
    {
      InsertLater(ops, i, op);
      i := i + 1;
    }
    InsertHere(ops, i, op);
    r := ops[..i] + [op] + ops[i..];
  }

  // ------------------------------------------------------------------- reading

  function Take<T>(s: seq<T>, n: nat): (r: seq<T>)
    ensures |r| == if |s| < n then |s| else n
  {
    if |s| <= n then s else s[..n]
  }

  lemma TakeIsPrefix<T>(s: seq<T>, p: seq<T>)
    requires p <= s
    ensures Take(s, |p|) == p
  {
  }

  predicate InStore(op: SignedOp, store: Option<string>) {
    store.Some? ==> op.store == store.value
  }

  predicate Wanted(op: SignedOp, origin: DeviceId, after: Option<OrderKey>, store: Option<string>) {
    Above(op.Key(), after) && op.device == origin && InStore(op, store)
  }

  /** One origin's ops above `after`, ascending. */
  function OriginRows(ops: seq<SignedOp>, origin: DeviceId, after: Option<OrderKey>, store: Option<string>): seq<SignedOp> {
    if ops == [] then []
    else
      OriginRows(ops[..|ops| - 1], origin, after, store)
      + if Wanted(ops[|ops| - 1], origin, after, store) then [ops[|ops| - 1]] else []
  }

  lemma {:induction false} OriginRowsExact(ops: seq<SignedOp>, origin: DeviceId, after: Option<OrderKey>, store: Option<string>)
    ensures forall op :: op in OriginRows(ops, origin, after, store) <==>
              op in ops && op.device == origin && (after.Some? ==> Less(after.value, op.Key())) && (store.Some? ==> op.store == store.value)
  {
    if ops != [] {
      OriginRowsExact(ops[..|ops| - 1], origin, after, store);
      assert ops == ops[..|ops| - 1] + [ops[|ops| - 1]];
    }
  }

  lemma {:induction false} OriginRowsAscend(ops: seq<SignedOp>, origin: DeviceId, after: Option<OrderKey>, store: Option<string>)
    requires Ascending(ops)
    ensures Ascending(OriginRows(ops, origin, after, store))
  {
    if ops != [] {
      var init := ops[..|ops| - 1];
      OriginRowsAscend(init, origin, after, store);
      OriginRowsExact(init, origin, after, store);
      var rows := OriginRows(init, origin, after, store);
      forall i | 0 <= i < |rows|
        ensures Less(rows[i].Key(), ops[|ops| - 1].Key())
      {
        assert rows[i] in rows;
      }
    }
  }

  lemma {:induction false} OriginRowsSplit(a: seq<SignedOp>, b: seq<SignedOp>, origin: DeviceId, after: Option<OrderKey>, store: Option<string>)
    ensures OriginRows(a + b, origin, after, store)
         == OriginRows(a, origin, after, store) + OriginRows(b, origin, after, store)
  {
    if b == [] {
      assert a + b == a;
    } else {
      var init := b[..|b| - 1];
      assert (a + b)[..|a + b| - 1] == a + init;
      OriginRowsSplit(a, init, origin, after, store);
    }
  }

  lemma OriginRowsPrefix(ops: seq<SignedOp>, n: nat, origin: DeviceId, after: Option<OrderKey>, store: Option<string>)
    requires n <= |ops|
    ensures OriginRows(ops[..n], origin, after, store) <= OriginRows(ops, origin, after, store)
  {
    assert ops == ops[..n] + ops[n..];
    OriginRowsSplit(ops[..n], ops[n..], origin, after, store);
  }

  lemma OriginRowsStep(ops: seq<SignedOp>, i: nat, origin: DeviceId, after: Option<OrderKey>, store: Option<string>)
    requires i < |ops|
    ensures OriginRows(ops[..i + 1], origin, after, store)
         == OriginRows(ops[..i], origin, after, store) + if Wanted(ops[i], origin, after, store) then [ops[i]] else []
  {
    assert ops[..i + 1][..i] == ops[..i];
  }

  /** The loop of `origin_since`. It pushes before it compares with the limit, so a limit
      of zero still yields one row. */
  method OriginScan(ops: seq<SignedOp>, origin: DeviceId, after: Option<OrderKey>, store: Option<string>, limit: nat)
    returns (out: seq<SignedOp>)
    ensures out == Take(OriginRows(ops, origin, after, store), if limit == 0 then 1 else limit)
  {
    assert OriginRows(ops[..0], origin, after, store) == [];
    hide OriginRows;
    hide Wanted;
    out := [];
    for i := 0 to |ops|
      invariant out == OriginRows(ops[..i], origin, after, store)
      invariant limit > 0 ==> |out| < limit
      invariant limit == 0 ==> out == []
    {
      OriginRowsStep(ops, i, origin, after, store);
      if !Wanted(ops[i], origin, after, store) {
        continue;
      }
      out := out + [ops[i]];
      if |out| >= limit {
        OriginRowsPrefix(ops, i + 1, origin, after, store);
        TakeIsPrefix(OriginRows(ops, origin, after, store), out);
        return;
      }
    }
    assert ops[..|ops|] == ops;
  }

  predicate AscendingIds(ds: seq<DeviceId>) {
    forall i, j | 0 <= i < j < |ds| :: ds[i] < ds[j]
  }

  /** `BTreeSet::insert`. */
  function InsertDevice(ds: seq<DeviceId>, d: DeviceId): (r: seq<DeviceId>)
    ensures forall x :: x in r <==> x == d || x in ds
  {
    if ds == [] || d < ds[0] then [d] + ds
    else if d == ds[0] then ds
    else
      assert ds == [ds[0]] + ds[1..];
      [ds[0]] + InsertDevice(ds[1..], d)
  }

  lemma {:induction false} InsertDeviceAscends(ds: seq<DeviceId>, d: DeviceId)
    requires AscendingIds(ds)
    ensures AscendingIds(InsertDevice(ds, d))
  {
    if ds != [] && d > ds[0] {
      InsertDeviceAscends(ds[1..], d);
      var rest := InsertDevice(ds[1..], d);
      forall i | 0 <= i < |rest|
        ensures ds[0] < rest[i]
      {
        assert rest[i] in rest;
      }
    }
  }

  function OriginList(ops: seq<SignedOp>): seq<DeviceId> {
    if ops == [] then [] else InsertDevice(OriginList(ops[..|ops| - 1]), ops[|ops| - 1].device)
  }

  /** The origins of a log: each device with an op in it, once, ascending. */
  lemma {:induction false} OriginListExact(ops: seq<SignedOp>)
    ensures AscendingIds(OriginList(ops))
    ensures forall op | op in ops :: op.device in OriginList(ops)
    ensures forall d | d in OriginList(ops) :: exists op :: op in ops && op.device == d
  {
    if ops != [] {
      var init, last := ops[..|ops| - 1], ops[|ops| - 1];
      OriginListExact(init);
      InsertDeviceAscends(OriginList(init), last.device);
      assert ops == init + [last];
      assert last in ops;
    }
  }

  /** An op-log object. `ops` is the ordered map as the list of its values. */
  class OpLog {
    var ops: seq<SignedOp>
    var ids: set<OpId>
    const relayEpoch: Epoch
    var relayOrder: seq<OrderKey>
    /** The op behind each key of `relayOrder`. */
    ghost var arrivals: seq<SignedOp>

    ghost function View(): Log
      reads this
    {
      Log(relayEpoch, ops, arrivals)
    }

    ghost predicate Valid()
      reads this
    {
      && View().Valid()
      && ids == Ids(arrivals)
      && |relayOrder| == |arrivals|
      && (forall i | 0 <= i < |arrivals| :: relayOrder[i] == arrivals[i].Key())
    }

    constructor (random: Epoch)
      ensures Valid() && View() == Log(if random == 0 then 1 else random, [], [])
    {
      ops, ids, relayOrder, arrivals := [], {}, [], [];
      relayEpoch := if random == 0 then 1 else random;
    }

    method Append(op: SignedOp) returns (isNew: bool)
      requires Valid()
      modifies this
      ensures Valid() && View() == Appended(old(View()), op)
      ensures isNew <==> op.id !in old(ids)
      ensures ids == old(ids) + {op.id}
    {
      AppendedKeepsValid(View(), op);
      IdsMember(arrivals, op.id);
      if op.id in ids {
        return false;
      }
      ids := ids + {op.id};
      relayOrder := relayOrder + [op.Key()];
      arrivals := arrivals + [op];
      ops := InsertSorted(ops, op);
      isNew := true;
    }

    /** Every origin present, collected into an ordered set. */
    method Origins() returns (r: seq<DeviceId>)
      requires Valid()
      ensures r == OriginList(View().ops)
    {
      r := [];
      for i := 0 to |ops|
        invariant r == OriginList(ops[..i])
      {
        assert ops[..i + 1][..i] == ops[..i];
        r := InsertDevice(r, ops[i].device);
      }
      assert ops[..|ops|] == ops;
    }

    /** One origin's rows strictly after `after`, at most `limit` of them but at least one. */
    method OriginSince(origin: DeviceId, after: Option<OrderKey>, store: Option<string>, limit: nat)
      returns (out: seq<SignedOp>)
      requires Valid()
      ensures out == Take(OriginRows(View().ops, origin, after, store), if limit == 0 then 1 else limit)
    {
      out := OriginScan(ops, origin, after, store, limit);
    }

    /** `BTreeMap::get`. */
    method Get(key: OrderKey) returns (op: SignedOp)
      requires Valid() && exists o :: o in ops && o.Key() == key
      ensures op in ops && op.Key() == key
    {
      ghost var o :| o in ops && o.Key() == key;
      ghost var at :| 0 <= at < |ops| && ops[at] == o;
      var i := 0;
      while ops[i].Key() != key
        invariant 0 <= i <= at
        decreases at - i
      {
        i := i + 1;
      }
      op := ops[i];
    }

    /** Arrivals strictly after `after`, at most `limit`: `(seq, op)` pairs. */
    method RelayPage(after: nat, limit: nat) returns (entries: seq<(nat, SignedOp)>)
      requires Valid()
      ensures entries == RelayRows(View().arrivals, after, limit)
    {
      entries := [];
      var start := if after < |relayOrder| then after else |relayOrder|;
      var i := start;
      while i < |relayOrder| && i - start < limit
        invariant start <= i <= |relayOrder| && i - start <= limit
        invariant |entries| == i - start
        invariant forall j | 0 <= j < i - start :: entries[j] == (start + j + 1, arrivals[start + j])
      {
        assert arrivals[i] in ops;
        var op := Get(relayOrder[i]);
        assert op == arrivals[i] by {
          assert op in arrivals;
        }
        entries := entries + [(i + 1, op)];
        i := i + 1;
      }
    }
  }

  /** The arrivals numbered `after + 1` onwards, at most `limit` of them. */
  function RelayRows(arrivals: seq<SignedOp>, after: nat, limit: nat): (r: seq<(nat, SignedOp)>) {
    var start := if after < |arrivals| then after else |arrivals|;
    var n := if |arrivals| - start < limit then |arrivals| - start else limit;
    seq(n, j requires 0 <= j < n => (start + j + 1, arrivals[start + j]))
  }
}
