/** Replaying a log into the reference key/value store (src/log.rs, src/kv.rs): the result
    depends on the set of ops alone. */
module Replay {
  import opened OrderKeys
  import opened Logs

  datatype KvOp = Put(key: seq<Byte>, value: seq<Byte>) | Delete(key: seq<Byte>)

  type Data = map<seq<Byte>, seq<Byte>>

  /** Decoding a payload may fail. */
  type Decoder = seq<Byte> -> Option<KvOp>

  function Effect(data: Data, op: KvOp): Data {
    match op
    case Put(key, value) => data[key := value]
    case Delete(key) => data - {key}
  }

  datatype Outcome = Outcome(data: Data, ok: bool)

  /** `apply_ops`: ops of other stores are passed over, the first undecodable one ends it. */
  function Applied(ops: seq<SignedOp>, store: string, decode: Decoder, data: Data): Outcome
    decreases |ops|
  {
    if ops == [] then Outcome(data, true)
    else if ops[0].store != store then Applied(ops[1..], store, decode, data)
    else
      match decode(ops[0].payload)
      case None => Outcome(data, false)
      case Some(op) => Applied(ops[1..], store, decode, Effect(data, op))
  }

  function Lookup(data: Data, key: seq<Byte>): Option<seq<Byte>> {
    if key in data then Some(data[key]) else None
  }

  class KvStore {
    const storeId: string
    var data: Data

    constructor (storeId: string)
      ensures this.storeId == storeId && data == map[]
    {
      this.storeId := storeId;
      data := map[];
    }

    method Apply(op: KvOp)
      modifies this
      ensures data == Effect(old(data), op)
      ensures Lookup(data, op.key) == if op.Put? then Some(op.value) else None
      ensures forall k | k != op.key :: Lookup(data, k) == Lookup(old(data), k)
    {
      match op
      case Put(key, value) => data := data[key := value];
      case Delete(key) => data := data - {key};
    }
  }

  /** `apply_ops`. */
  method ApplyOps(ops: seq<SignedOp>, kv: KvStore, decode: Decoder) returns (ok: bool)
    modifies kv
    ensures Outcome(kv.data, ok) == Applied(ops, kv.storeId, decode, old(kv.data))
  {
    var i := 0;
    assert ops[0..] == ops;
    while i < |ops|
      invariant 0 <= i <= |ops|
      invariant Applied(ops, kv.storeId, decode, old(kv.data)) == Applied(ops[i..], kv.storeId, decode, kv.data)
    {
      var op := ops[i];
      assert ops[i..][1..] == ops[i + 1..];
      i := i + 1;
      if op.store != kv.storeId {
        continue;
      }
      var native := decode(op.payload);
      if native.None? {
        return false;
      }
      kv.Apply(native.value);
    }
    ok := true;
  }

  /** `replay`. */
  method ReplayLog(log: OpLog, kv: KvStore, decode: Decoder) returns (ok: bool)
    requires log.Valid()
    modifies kv
    ensures Outcome(kv.data, ok) == Applied(log.View().ops, kv.storeId, decode, old(kv.data))
  {
    ok := ApplyOps(log.ops, kv, decode);
  }

  // --------------------------------------------------------- order of arrival

  /** Two logs holding the same ops, appended in any order with repeats, replay alike. */
  lemma SameOpsReplayAlike(e: Epoch, f: Epoch, a: seq<SignedOp>, b: seq<SignedOp>, store: string, decode: Decoder, data: Data)
    requires e != 0 && f != 0 && ContentAddressed(a) && ContentAddressed(b)
    requires forall op :: op in a <==> op in b
    ensures Built(e, a).ops == Built(f, b).ops
    ensures Applied(Built(e, a).ops, store, decode, data) == Applied(Built(f, b).ops, store, decode, data)
  {
    BuiltHolds(e, a);
    BuiltHolds(f, b);
    AscendingUnique(Built(e, a).ops, Built(f, b).ops);
  }

  // ------------------------------------------------------------ replaying again

  /** What one op does to one key, if anything: `Some(None)` removes it. */
  function EffectOn(op: SignedOp, store: string, decode: Decoder, key: seq<Byte>): Option<Option<seq<Byte>>> {
    if op.store != store || decode(op.payload).None? || decode(op.payload).value.key != key then None
    else
      match decode(op.payload).value
      case Put(_, value) => Some(Some(value))
      case Delete(_) => Some(None)
  }

  predicate Touches(ops: seq<SignedOp>, store: string, decode: Decoder, key: seq<Byte>) {
    exists i :: 0 <= i < |ops| && EffectOn(ops[i], store, decode, key).Some?
  }

  /** Whether a replay goes through does not depend on what the store held, and where it
      does a key the ops touch ends the same whatever was there. */
  lemma {:induction false} ReplayForgets(ops: seq<SignedOp>, store: string, decode: Decoder, a: Data, b: Data, key: seq<Byte>)
    ensures Applied(ops, store, decode, a).ok == Applied(ops, store, decode, b).ok
    ensures Applied(ops, store, decode, a).ok && (Lookup(a, key) == Lookup(b, key) || Touches(ops, store, decode, key)) ==>
              Lookup(Applied(ops, store, decode, a).data, key) == Lookup(Applied(ops, store, decode, b).data, key)
    decreases |ops|
  {
    if ops != [] {
      var rest := ops[1..];
      if Touches(ops, store, decode, key) && EffectOn(ops[0], store, decode, key).None? {
        var i :| 0 <= i < |ops| && EffectOn(ops[i], store, decode, key).Some?;
        assert rest[i - 1] == ops[i];
      }
      if ops[0].store != store {
        ReplayForgets(rest, store, decode, a, b, key);
      } else if decode(ops[0].payload).Some? {
        var op := decode(ops[0].payload).value;
        ReplayForgets(rest, store, decode, Effect(a, op), Effect(b, op), key);
      }
    }
  }

  /** A replay leaves alone every key its ops do not touch. */
  lemma {:induction false} ReplayTouches(ops: seq<SignedOp>, store: string, decode: Decoder, data: Data, key: seq<Byte>)
    ensures Lookup(Applied(ops, store, decode, data).data, key) == Lookup(data, key) || Touches(ops, store, decode, key)
    decreases |ops|
  {
    if ops != [] {
      var rest := ops[1..];
      var next := if ops[0].store == store && decode(ops[0].payload).Some? then Effect(data, decode(ops[0].payload).value) else data;
      ReplayTouches(rest, store, decode, next, key);
      if Touches(rest, store, decode, key) {
        var i :| 0 <= i < |rest| && EffectOn(rest[i], store, decode, key).Some?;
        assert ops[i + 1] == rest[i];
      }
      assert EffectOn(ops[0], store, decode, key).Some? ==> Touches(ops, store, decode, key);
    }
  }

  lemma SameLookups(a: Data, b: Data)
    requires forall key :: Lookup(a, key) == Lookup(b, key)
    ensures a == b
  {
    forall key
      ensures (key in a <==> key in b) && (key in a ==> a[key] == b[key])
    {
      assert Lookup(a, key) == Lookup(b, key);
    }
  }

  // -------------------------------------------------------- replays that break off

  /** How many ops a replay gets through: those before the store's first undecodable one. */
  function Reached(ops: seq<SignedOp>, store: string, decode: Decoder): (n: nat)
    ensures n <= |ops|
  {
    if ops == [] || (ops[0].store == store && decode(ops[0].payload).None?) then 0 else 1 + Reached(ops[1..], store, decode)
  }

  /** Everything of the store before that point decodes, and the op there does not. */
  lemma {:induction false} ReachedExactly(ops: seq<SignedOp>, store: string, decode: Decoder)
    ensures var n := Reached(ops, store, decode);
            && (forall i | 0 <= i < n && ops[i].store == store :: decode(ops[i].payload).Some?)
            && (n < |ops| ==> ops[n].store == store && decode(ops[n].payload).None?)
  {
    if ops != [] && !(ops[0].store == store && decode(ops[0].payload).None?) {
      var rest, m := ops[1..], Reached(ops[1..], store, decode);
      ReachedExactly(rest, store, decode);
      forall i | 0 <= i < m + 1 && ops[i].store == store
        ensures decode(ops[i].payload).Some?
      {
        assert i > 0 ==> rest[i - 1] == ops[i];
      }
    }
  }

  /** A replay is the clean replay of what it reaches, and goes through when that is all. */
  lemma {:induction false} ReplayReaches(ops: seq<SignedOp>, store: string, decode: Decoder, data: Data)
    ensures var n := Reached(ops, store, decode);
            && Applied(ops[..n], store, decode, data) == Outcome(Applied(ops, store, decode, data).data, true)
            && (Applied(ops, store, decode, data).ok <==> n == |ops|)
    decreases |ops|
  {
    var n := Reached(ops, store, decode);
    if n > 0 {
      var next := if ops[0].store == store then Effect(data, decode(ops[0].payload).value) else data;
      ReplayReaches(ops[1..], store, decode, next);
      assert ops[..n][1..] == ops[1..][..n - 1];
    } else {
      assert ops[..0] == [];
    }
  }

  // ------------------------------------------------------------ the last write wins

  /** An op of the store that puts or deletes this key. */
  predicate Writes(op: SignedOp, store: string, decode: Decoder, key: seq<Byte>) {
    op.store == store && decode(op.payload).Some? && decode(op.payload).value.key == key
  }

  /** What a store shows once the op is the last to write the key. */
  predicate Shows(end: Option<seq<Byte>>, op: KvOp) {
    match op
    case Put(_, value) => end == Some(value)
    case Delete(_) => end == None
  }

  ghost predicate IsLastWrite(ops: seq<SignedOp>, store: string, decode: Decoder, key: seq<Byte>, i: nat) {
    i < |ops| && Writes(ops[i], store, decode, key) && forall j | i < j < |ops| :: !Writes(ops[j], store, decode, key)
  }

  /** The last put or delete of a key before the store's first undecodable op decides it, and
      a key none of them writes keeps what it had. */
  lemma LastWriteWins(ops: seq<SignedOp>, store: string, decode: Decoder, data: Data, key: seq<Byte>)
    ensures var reached := ops[..Reached(ops, store, decode)];
            var end := Lookup(Applied(ops, store, decode, data).data, key);
            && (forall i: nat | IsLastWrite(reached, store, decode, key, i) :: Shows(end, decode(reached[i].payload).value))
            && ((forall op | op in reached :: !Writes(op, store, decode, key)) ==> end == Lookup(data, key))
  {
    var reached := ops[..Reached(ops, store, decode)];
    ReplayReaches(ops, store, decode, data);
    forall i: nat | IsLastWrite(reached, store, decode, key, i)
      ensures Shows(Lookup(Applied(reached, store, decode, data).data, key), decode(reached[i].payload).value)
    {
      LastWriteDecides(reached, store, decode, data, key, i);
    }
    if forall op | op in reached :: !Writes(op, store, decode, key) {
      forall i | 0 <= i < |reached|
        ensures EffectOn(reached[i], store, decode, key).None?
      {
        assert reached[i] in reached;
      }
      ReplayTouches(reached, store, decode, data, key);
    }
  }

  lemma {:induction false} LastWriteDecides(ops: seq<SignedOp>, store: string, decode: Decoder, data: Data, key: seq<Byte>, i: nat)
    requires Applied(ops, store, decode, data).ok && IsLastWrite(ops, store, decode, key, i)
    ensures Shows(Lookup(Applied(ops, store, decode, data).data, key), decode(ops[i].payload).value)
    decreases |ops|
  {
    var rest := ops[1..];
    var next := if ops[0].store == store then Effect(data, decode(ops[0].payload).value) else data;
    if i == 0 {
      forall j | 0 <= j < |rest|
        ensures EffectOn(rest[j], store, decode, key).None?
      {
        assert rest[j] == ops[j + 1];
      }
      ReplayTouches(rest, store, decode, next, key);
    } else {
      assert rest[i - 1] == ops[i];
      forall j | i - 1 < j < |rest|
        ensures !Writes(rest[j], store, decode, key)
      {
        assert rest[j] == ops[j + 1];
      }
      LastWriteDecides(rest, store, decode, next, key, i - 1);
    }
  }

  /** Whatever order a log received its ops in, a replay that goes through leaves each key as
      the op with the greatest order key among those that write it says. */
  lemma GreatestWriteWins(epoch: Epoch, ops: seq<SignedOp>, store: string, decode: Decoder, data: Data, top: SignedOp, key: seq<Byte>)
    requires epoch != 0 && ContentAddressed(ops) && top in ops && Writes(top, store, decode, key)
    requires forall op | op in ops && op.store == store :: decode(op.payload).Some?
    requires forall op | op in ops && Writes(op, store, decode, key) :: AtMost(op.Key(), top.Key())
    ensures var r := Applied(Built(epoch, ops).ops, store, decode, data);
            r.ok && Shows(Lookup(r.data, key), decode(top.payload).value)
  {
    BuiltHolds(epoch, ops);
    var log := Built(epoch, ops).ops;
    hide Built;
    ReachesAll(log, store, decode);
    ReplayReaches(log, store, decode, data);
    var i :| 0 <= i < |log| && log[i] == top;
    forall j | i < j < |log|
      ensures !Writes(log[j], store, decode, key)
    {
      assert log[j] in log && Less(log[i].Key(), log[j].Key());
    }
    LastWriteDecides(log, store, decode, data, key, i);
  }

  /** The op binds this key when it is replayed. */
  predicate Binds(op: SignedOp, store: string, decode: Decoder, key: seq<Byte>) {
    EffectOn(op, store, decode, key).Some? && EffectOn(op, store, decode, key).value.Some?
  }

  /** Replaying any part of the ops first, in any order, leaves no trace once the whole log
      has been replayed over it. */
  ghost predicate LeavesNoTrace(ops: seq<SignedOp>, store: string, decode: Decoder) {
    forall some | (forall op | op in some :: op in ops) ::
      Applied(ops, store, decode, Applied(some, store, decode, map[]).data) == Applied(ops, store, decode, map[])
  }

  /** Each key some op of the log binds is touched before the replay breaks off. */
  ghost predicate BoundIsReached(ops: seq<SignedOp>, store: string, decode: Decoder) {
    forall op, key | op in ops && Binds(op, store, decode, key) :: Touches(ops[..Reached(ops, store, decode)], store, decode, key)
  }

  /** A key a replay into an empty store leaves bound was bound by one of its ops. */
  lemma {:induction false} BoundByAnOp(ops: seq<SignedOp>, store: string, decode: Decoder, data: Data, key: seq<Byte>)
    ensures key in Applied(ops, store, decode, data).data ==> key in data || exists op :: op in ops && Binds(op, store, decode, key)
    decreases |ops|
  {
    if ops != [] && !(ops[0].store == store && decode(ops[0].payload).None?) {
      var next := if ops[0].store == store then Effect(data, decode(ops[0].payload).value) else data;
      BoundByAnOp(ops[1..], store, decode, next, key);
      assert key in next && key !in data ==> Binds(ops[0], store, decode, key);
    }
  }

  lemma ReachedErasesTrace(ops: seq<SignedOp>, some: seq<SignedOp>, store: string, decode: Decoder)
    requires BoundIsReached(ops, store, decode) && forall op | op in some :: op in ops
    ensures Applied(ops, store, decode, Applied(some, store, decode, map[]).data) == Applied(ops, store, decode, map[])
  {
    var held := Applied(some, store, decode, map[]).data;
    var reached := ops[..Reached(ops, store, decode)];
    ReplayReaches(ops, store, decode, held);
    ReplayReaches(ops, store, decode, map[]);
    forall key
      ensures Lookup(Applied(reached, store, decode, held).data, key) == Lookup(Applied(reached, store, decode, map[]).data, key)
    {
      BoundByAnOp(some, store, decode, map[], key);
      ReplayForgets(reached, store, decode, held, map[], key);
    }
    SameLookups(Applied(reached, store, decode, held).data, Applied(reached, store, decode, map[]).data);
  }

  /** Replaying first an op that binds a key the replay does not reach leaves it bound. */
  lemma UnreachedLeavesTrace(ops: seq<SignedOp>, store: string, decode: Decoder, op: SignedOp, key: seq<Byte>)
    requires op in ops && Binds(op, store, decode, key)
    requires !Touches(ops[..Reached(ops, store, decode)], store, decode, key)
    ensures Applied(ops, store, decode, Applied([op], store, decode, map[]).data) != Applied(ops, store, decode, map[])
  {
    var native := decode(op.payload).value;
    assert [op][0] == op && [op][1..] == [];
    assert Applied([], store, decode, Effect(map[], native)).data == Effect(map[], native);
    var held := Applied([op], store, decode, map[]).data;
    assert held == Effect(map[], native) && key in held;
    var reached := ops[..Reached(ops, store, decode)];
    ReplayReaches(ops, store, decode, held);
    ReplayReaches(ops, store, decode, map[]);
    ReplayTouches(reached, store, decode, held, key);
    ReplayTouches(reached, store, decode, map[], key);
  }

  /** Replaying over a replay of any part of the log comes to a fresh replay if and only if
      each key a put of the store binds anywhere in the log is touched by the ops before
      the store's first undecodable one. */
  lemma NoTraceExactly(ops: seq<SignedOp>, store: string, decode: Decoder)
    ensures LeavesNoTrace(ops, store, decode) <==> BoundIsReached(ops, store, decode)
  {
    if BoundIsReached(ops, store, decode) {
      forall some | forall op | op in some :: op in ops
        ensures Applied(ops, store, decode, Applied(some, store, decode, map[]).data) == Applied(ops, store, decode, map[])
      {
        ReachedErasesTrace(ops, some, store, decode);
      }
    } else {
      var op, key :| op in ops && Binds(op, store, decode, key) && !Touches(ops[..Reached(ops, store, decode)], store, decode, key);
      UnreachedLeavesTrace(ops, store, decode, op, key);
      assert forall o | o in [op] :: o in ops;
    }
  }

  /** A log whose ops all decode is replayed over without trace. */
  lemma DecodableLeavesNoTrace(ops: seq<SignedOp>, store: string, decode: Decoder)
    requires forall op | op in ops && op.store == store :: decode(op.payload).Some?
    ensures LeavesNoTrace(ops, store, decode)
  {
    ReachesAll(ops, store, decode);
    assert ops[..|ops|] == ops;
    forall op, key | op in ops && Binds(op, store, decode, key)
      ensures Touches(ops, store, decode, key)
    {
      var i :| 0 <= i < |ops| && ops[i] == op;
      assert EffectOn(ops[i], store, decode, key).Some?;
    }
    NoTraceExactly(ops, store, decode);
  }

  lemma {:induction false} ReachesAll(ops: seq<SignedOp>, store: string, decode: Decoder)
    requires forall op | op in ops && op.store == store :: decode(op.payload).Some?
    ensures Reached(ops, store, decode) == |ops|
  {
    if ops != [] {
      assert ops[0] in ops;
      ReachesAll(ops[1..], store, decode);
    }
  }
}
