/** The global total order every replica sorts by (src/op.rs), its 72-byte wire
    form, and the SQL folds that compare wire forms instead of keys.

    Device ids and op ids are 32-byte strings that the program only ever
    compares bytewise; here they are the numbers those bytes spell big-endian. */
module OrderKeys {

  type DeviceId = nat
  type OpId = nat

  datatype Option<+T> = None | Some(value: T)

  datatype OrderKey = OrderKey(hlc: nat, device: DeviceId, opId: OpId)

  /** `(hlc, device, op_id)`, compared lexicographically. */
  predicate Less(a: OrderKey, b: OrderKey) {
    || a.hlc < b.hlc
    || (a.hlc == b.hlc && a.device < b.device)
    || (a.hlc == b.hlc && a.device == b.device && a.opId < b.opId)
  }

  predicate AtMost(a: OrderKey, b: OrderKey) {
    a == b || Less(a, b)
  }

  function Max(a: OrderKey, b: OrderKey): OrderKey {
    if Less(a, b) then b else a
  }

  /** Whether `key` lies strictly above an optional bound. */
  predicate Above(key: OrderKey, bound: Option<OrderKey>) {
    bound.Some? ==> Less(bound.value, key)
  }

  // ---------------------------------------------------------------- wire form

  newtype Byte = n: int | 0 <= n < 256

  function Pow256(n: nat): (r: nat)
    ensures r > 0
  {
    if n == 0 then 1 else 256 * Pow256(n - 1)
  }

  /** `n` as `len` big-endian bytes; higher bytes are dropped. */
  function BigEndian(n: nat, len: nat): (r: seq<Byte>)
    ensures |r| == len
  {
    if len == 0 then [] else BigEndian(n / 256, len - 1) + [(n % 256) as Byte]
  }

  function FromBigEndian(bytes: seq<Byte>): (r: nat)
  {
    if bytes == [] then 0
    else FromBigEndian(bytes[..|bytes| - 1]) * 256 + bytes[|bytes| - 1] as nat
  }

  /** Byte strings of one length in `memcmp` order, which is how SQLite orders blobs. */
  predicate BytesLess(a: seq<Byte>, b: seq<Byte>)
    requires |a| == |b|
  {
    a != [] && (a[0] < b[0] || (a[0] == b[0] && BytesLess(a[1..], b[1..])))
  }

  /** The ranges of the fixed-width fields: a `u64` and two 32-byte ids. */
  ghost predicate Fits(k: OrderKey) {
    k.hlc < Pow256(8) && k.device < Pow256(32) && k.opId < Pow256(32)
  }

  function Wire(k: OrderKey): (r: seq<Byte>)
    ensures |r| == 72
  {
    BigEndian(k.hlc, 8) + BigEndian(k.device, 32) + BigEndian(k.opId, 32)
  }

  function FromWire(bytes: seq<Byte>): OrderKey
    requires |bytes| == 72
  {
    OrderKey(FromBigEndian(bytes[..8]), FromBigEndian(bytes[8..40]), FromBigEndian(bytes[40..]))
  }

  /** `OrderKey::to_wire`, filling its buffer field by field. */
  method ToWire(k: OrderKey) returns (out: array<Byte>)
    ensures fresh(out) && out[..] == Wire(k)
  {
    out := new Byte[72];
    var hlc, device, op := BigEndian(k.hlc, 8), BigEndian(k.device, 32), BigEndian(k.opId, 32);
    for i := 0 to 8
      invariant forall j | 0 <= j < i :: out[j] == hlc[j]
    {
      out[i] := hlc[i];
    }
    for i := 8 to 40
      invariant forall j | 0 <= j < i :: out[j] == Wire(k)[j]
    {
      out[i] := device[i - 8];
    }
    for i := 40 to 72
      invariant forall j | 0 <= j < i :: out[j] == Wire(k)[j]
    {
      out[i] := op[i - 40];
    }
  }

  lemma {:induction false} BigEndianRoundTrip(n: nat, len: nat)
    requires n < Pow256(len)
    ensures FromBigEndian(BigEndian(n, len)) == n
  {
    if len > 0 {
      BigEndianRoundTrip(n / 256, len - 1);
      assert BigEndian(n, len)[..len - 1] == BigEndian(n / 256, len - 1);
    }
  }

  /** Comparing concatenations compares the first fields, then the second. */
  lemma {:induction false} BytesLessConcat(a: seq<Byte>, a': seq<Byte>, b: seq<Byte>, b': seq<Byte>)
    requires |a| == |b| && |a'| == |b'|
    ensures BytesLess(a + a', b + b') <==> BytesLess(a, b) || (a == b && BytesLess(a', b'))
  {
    if a == [] {
      assert a + a' == a' && b + b' == b';
    } else {
      BytesLessConcat(a[1..], a', b[1..], b');
      assert (a + a')[1..] == a[1..] + a' && (b + b')[1..] == b[1..] + b';
      assert a == [a[0]] + a[1..] && b == [b[0]] + b[1..];
    }
  }

  lemma BigEndianInjective(n: nat, m: nat, len: nat)
    requires n < Pow256(len) && m < Pow256(len)
    ensures BigEndian(n, len) == BigEndian(m, len) <==> n == m
  {
    BigEndianRoundTrip(n, len);
    BigEndianRoundTrip(m, len);
  }

  lemma {:induction false} BigEndianOrder(n: nat, m: nat, len: nat)
    requires n < Pow256(len) && m < Pow256(len)
    ensures BytesLess(BigEndian(n, len), BigEndian(m, len)) <==> n < m
  {
    if len > 0 {
      var a, b := BigEndian(n / 256, len - 1), BigEndian(m / 256, len - 1);
      var x, y := [(n % 256) as Byte], [(m % 256) as Byte];
      BigEndianOrder(n / 256, m / 256, len - 1);
      BigEndianInjective(n / 256, m / 256, len - 1);
      BytesLessConcat(a, x, b, y);
      assert BytesLess(x, y) <==> n % 256 < m % 256;
    }
  }

  lemma WireRoundTrip(k: OrderKey)
    requires Fits(k)
    ensures FromWire(Wire(k)) == k
  {
    hide BigEndian;
    hide FromBigEndian;
    hide Pow256;
    BigEndianRoundTrip(k.hlc, 8);
    BigEndianRoundTrip(k.device, 32);
    BigEndianRoundTrip(k.opId, 32);
    var w := Wire(k);
    assert w[..8] == BigEndian(k.hlc, 8);
    assert w[8..40] == BigEndian(k.device, 32);
    assert w[40..] == BigEndian(k.opId, 32);
  }

  /** Lexicographic order of the 72 bytes is the order-key order. */
  lemma WireOrder(a: OrderKey, b: OrderKey)
    requires Fits(a) && Fits(b)
    ensures BytesLess(Wire(a), Wire(b)) <==> Less(a, b)
  {
    var ha, hb := BigEndian(a.hlc, 8), BigEndian(b.hlc, 8);
    var da, db := BigEndian(a.device, 32), BigEndian(b.device, 32);
    var oa, ob := BigEndian(a.opId, 32), BigEndian(b.opId, 32);
    BigEndianOrder(a.hlc, b.hlc, 8);
    BigEndianInjective(a.hlc, b.hlc, 8);
    BigEndianOrder(a.device, b.device, 32);
    BigEndianInjective(a.device, b.device, 32);
    BigEndianOrder(a.opId, b.opId, 32);
    BytesLessConcat(ha + da, oa, hb + db, ob);
    BytesLessConcat(ha, da, hb, db);
    assert ha + da == hb + db <==> ha == hb && da == db by {
      assert (ha + da)[..8] == ha && (hb + db)[..8] == hb;
      assert (ha + da)[8..] == da && (hb + db)[8..] == db;
    }
  }

  // ------------------------------------------------- folding keys into a table

  /** A per-device high-water table: claims by origin, or cursors by peer. */
  type KeyTable = map<DeviceId, OrderKey>

  /** Raise `who`'s entry to `key`, never lowering it. */
  function Raise(t: KeyTable, who: DeviceId, key: OrderKey): (r: KeyTable)
    ensures who in r && AtMost(key, r[who])
    ensures forall d | d in t :: d in r && AtMost(t[d], r[d])
    ensures forall d | d in r && d != who :: d in t && r[d] == t[d]
    ensures r[who] == key || (who in t && r[who] == t[who])
  {
    t[who := if who in t then Max(t[who], key) else key]
  }

  /** The same table as stored: 72-byte blobs. */
  type WireTable = map<DeviceId, seq<Byte>>

  ghost predicate IsWire(blob: seq<Byte>) {
    exists k :: Fits(k) && blob == Wire(k)
  }

  ghost predicate ValidTable(t: WireTable) {
    forall d | d in t :: IsWire(t[d])
  }

  ghost function Decoded(t: WireTable): KeyTable
    requires ValidTable(t)
  {
    map d | d in t :: assert IsWire(t[d]); FromWire(t[d])
  }

  /** The conflict clause: keep the stored blob unless it is smaller. */
  function LargerBlob(stored: seq<Byte>, blob: seq<Byte>): seq<Byte>
    requires |stored| == |blob|
  {
    if BytesLess(stored, blob) then blob else stored
  }

  lemma LargerBlobIsMax(stored: seq<Byte>, key: OrderKey)
    requires IsWire(stored) && Fits(key)
    ensures IsWire(LargerBlob(stored, Wire(key)))
    ensures FromWire(LargerBlob(stored, Wire(key))) == Max(FromWire(stored), key)
  {
    var k :| Fits(k) && stored == Wire(k);
    WireRoundTrip(k);
    WireRoundTrip(key);
    WireOrder(k, key);
  }

  /** `advance_local_coverage` and `save_cursor` share this statement shape:
      insert, or on conflict replace exactly when the stored blob is smaller. */
  class BlobTable {
    var rows: WireTable

    ghost predicate Valid()
      reads this
    {
      ValidTable(rows)
    }

    constructor ()
      ensures Valid() && rows == map[]
    {
      rows := map[];
    }

    method Upsert(who: DeviceId, key: OrderKey)
      requires Valid() && Fits(key)
      modifies this
      ensures Valid()
      ensures Decoded(rows) == Raise(old(Decoded(rows)), who, key)
    {
      hide Wire;
      hide FromWire;
      hide Fits;
      hide LargerBlob;
      WireRoundTrip(key);
      if who !in rows {
        rows := rows[who := Wire(key)];
      } else {
        assert IsWire(rows[who]);
        LargerBlobIsMax(rows[who], key);
        rows := rows[who := LargerBlob(rows[who], Wire(key))];
      }
    }
  }

  /** Any run of upserts. */
  ghost function RaiseAll(t: KeyTable, entries: seq<(DeviceId, OrderKey)>): KeyTable {
    if entries == [] then t
    else
      var last := entries[|entries| - 1];
      Raise(RaiseAll(t, entries[..|entries| - 1]), last.0, last.1)
  }

  /** Over any run no entry moves back, and each entry ends at the greatest of its
      start and everything folded into it: an upper bound that is attained. */
  lemma {:induction false} RaiseAllIsMaximum(t: KeyTable, entries: seq<(DeviceId, OrderKey)>, d: DeviceId)
    ensures d in t ==> d in RaiseAll(t, entries) && AtMost(t[d], RaiseAll(t, entries)[d])
    ensures forall e | e in entries && e.0 == d :: d in RaiseAll(t, entries) && AtMost(e.1, RaiseAll(t, entries)[d])
    ensures d in RaiseAll(t, entries) ==>
              || (d in t && RaiseAll(t, entries)[d] == t[d])
              || (d, RaiseAll(t, entries)[d]) in entries
  {
    if entries != [] {
      var init, last := entries[..|entries| - 1], entries[|entries| - 1];
      RaiseAllIsMaximum(t, init, d);
      assert entries == init + [last];
    }
  }

  /** The order in which a set of keys is folded does not matter. */
  lemma RaiseAllOrderIrrelevant(t: KeyTable, a: seq<(DeviceId, OrderKey)>, b: seq<(DeviceId, OrderKey)>)
    requires forall e :: e in a <==> e in b
    ensures RaiseAll(t, a) == RaiseAll(t, b)
  {
    var ra, rb := RaiseAll(t, a), RaiseAll(t, b);
    forall d
      ensures d in ra <==> d in rb
      ensures d in ra ==> ra[d] == rb[d]
    {
      RaiseAllIsMaximum(t, a, d);
      RaiseAllIsMaximum(t, b, d);
    }
  }
}
