/** Pull protocol v3, serving side (src/pull.rs, src/net/pull_server.rs): one page
    holds a keyed channel, each origin's ops above the puller's claims, and a
    positional channel, the arrivals those claims already cover. */
module PullServer {
  import opened OrderKeys
  import opened Logs

  const PAGE_LIMIT_MAX := 8192
  const PAGE_BYTE_BUDGET := 32 * 1024 * 1024

  /** Per-origin high-water claims. */
  type Claims = KeyTable

  /** Whether `key` is at or below the claim for its origin. */
  predicate Covers(claims: Claims, key: OrderKey) {
    key.device in claims && AtMost(key, claims[key.device])
  }

  /** Where the next page picks up. `None` inside `Keyed` is text that does not decode. */
  datatype Resume =
    | Backfill(afterSeq: nat)
    | Keyed(origin: Option<DeviceId>, afterKey: Option<OrderKey>)

  datatype Cursor = Cursor(epoch: Epoch, after: nat)

  datatype StreamState = StreamState(epoch: Epoch, head: nat, floor: nat)

  datatype PullRequest = PullRequest(
    coverage: Claims, relayEpoch: Epoch, relayAfter: nat,
    resume: Option<Resume>, limit: nat, audit: bool, store: Option<string>)

  datatype PullPage = PullPage(
    epoch: Epoch, reset: bool, floor: nat,
    backfill: seq<(nat, SignedOp)>, keyed: seq<SignedOp>,
    nextRelaySeq: nat, headSeq: nat,
    resume: Option<Resume>, complete: bool, snapshotRecommended: bool, store: Option<string>)

  /** `decode_coverage`: an entry whose key names another origin is dropped. */
  function DecodeCoverage(wire: Claims): Claims {
    wire - (set d | d in wire && wire[d].device != d)
  }

  predicate PullNeedsReset(requestEpoch: Epoch, after: nat, state: StreamState) {
    || (requestEpoch == 0 && state.floor > 0)
    || (requestEpoch != 0 && requestEpoch != state.epoch)
    || (requestEpoch == state.epoch && (after < state.floor || after > state.head))
  }

  function ResetPage(s: StreamState): PullPage {
    PullPage(s.epoch, true, s.floor, [], [], 0, s.head, None, false, false, None)
  }

  function StateOf(log: Log): StreamState {
    StreamState(log.epoch, log.Head(), 0)
  }

  // ------------------------------------------------------------- keyed channel

  function Bytes(rows: seq<SignedOp>): nat {
    if rows == [] then 0 else Bytes(rows[..|rows| - 1]) + rows[|rows| - 1].wireLen
  }

  /** How many of `rows` fit before the byte budget is reached; the row that
      reaches it is still served. */
  function Served(rows: seq<SignedOp>, bytes: nat, budget: nat): (n: nat)
    ensures n <= |rows| && (rows != [] ==> n > 0)
  {
    if rows == [] then 0
    else if bytes + rows[0].wireLen >= budget then 1
    else 1 + Served(rows[1..], bytes + rows[0].wireLen, budget)
  }

  lemma {:induction false} BytesConcat(a: seq<SignedOp>, b: seq<SignedOp>)
    ensures Bytes(a + b) == Bytes(a) + Bytes(b)
  {
    if b == [] {
      assert a + b == a;
    } else {
      BytesConcat(a, b[..|b| - 1]);
      assert (a + b)[..|a + b| - 1] == a + b[..|b| - 1];
    }
  }

  lemma BytesOfNone(rows: seq<SignedOp>)
    ensures Bytes(rows[..0]) == 0
  {
  }

  lemma BytesOfFirst(rows: seq<SignedOp>, m: nat)
    requires m < |rows|
    ensures Bytes(rows[..m + 1]) == rows[0].wireLen + Bytes(rows[1..][..m])
  {
    assert rows[..m + 1] == rows[..1] + rows[1..][..m];
    BytesConcat(rows[..1], rows[1..][..m]);
    assert rows[..1] == [rows[0]];
  }

  lemma BytesOfLast(rows: seq<SignedOp>, m: nat)
    requires m < |rows|
    ensures Bytes(rows[..m + 1]) == Bytes(rows[..m]) + rows[m].wireLen
  {
    assert rows[..m + 1][..m] == rows[..m];
  }

  lemma ServedStep(rows: seq<SignedOp>, m: nat, bytes: nat, budget: nat)
    requires m < |rows|
    ensures Served(rows[m..], bytes, budget)
         == 1 + if bytes + rows[m].wireLen >= budget then 0 else Served(rows[m + 1..], bytes + rows[m].wireLen, budget)
  {
    assert rows[m..][1..] == rows[m + 1..];
  }

  /** The budget is reached exactly by the last row served, or not at all. */
  lemma {:induction false} ServedBudget(rows: seq<SignedOp>, bytes: nat, budget: nat)
    requires bytes < budget
    ensures var n := Served(rows, bytes, budget);
            && (n < |rows| ==> bytes + Bytes(rows[..n]) >= budget)
            && (n > 0 ==> bytes + Bytes(rows[..n - 1]) < budget)
  {
    hide Bytes;
    if rows != [] {
      var b := bytes + rows[0].wireLen;
      BytesOfNone(rows);
      if b < budget {
        ServedBudget(rows[1..], b, budget);
        var m := Served(rows[1..], b, budget);
        BytesOfFirst(rows, m);
        if m > 0 {
          BytesOfFirst(rows, m - 1);
        }
      } else {
        BytesOfNone(rows[1..]);
        BytesOfFirst(rows, 0);
      }
    }
  }

  /** `encode_origin_rows`: push rows until the byte budget is met. */
  method EncodeOriginRows(rows: seq<SignedOp>, keyed: seq<SignedOp>, bytes: nat, budget: nat)
    returns (keyed': seq<SignedOp>, bytes': nat, served: nat, lastKey: Option<OrderKey>)
    ensures served == Served(rows, bytes, budget)
    ensures keyed' == keyed + rows[..served]
    ensures bytes' == bytes + Bytes(rows[..served])
    ensures lastKey == LastKey(rows[..served])
  {
    BytesOfNone(rows);
    assert rows[0..] == rows;
    hide Bytes;
    hide Served;
    keyed', bytes', served, lastKey := keyed, bytes, 0, None;
    while served < |rows|
      invariant served <= |rows|
      invariant keyed' == keyed + rows[..served]
      invariant bytes' == bytes + Bytes(rows[..served])
      invariant lastKey == LastKey(rows[..served])
      invariant Served(rows, bytes, budget) == served + Served(rows[served..], bytes', budget)
    {
      var row := rows[served];
      ServedStep(rows, served, bytes', budget);
      BytesOfLast(rows, served);
      assert rows[..served + 1] == rows[..served] + [row];
      bytes' := bytes' + row.wireLen;
      keyed' := keyed' + [row];
      lastKey := Some(row.Key());
      served := served + 1;
      if bytes' >= budget {
        return;
      }
    }
    NoneServed(rows, bytes', budget);
  }

  lemma NoneServed(rows: seq<SignedOp>, bytes: nat, budget: nat)
    ensures Served(rows[|rows|..], bytes, budget) == 0
  {
  }

  function LastKey(rows: seq<SignedOp>): Option<OrderKey> {
    if rows == [] then None else Some(rows[|rows| - 1].Key())
  }

  /** One origin to serve, and the key to serve it above. */
  datatype Segment = Segment(origin: DeviceId, after: Option<OrderKey>)

  function Claim(claims: Claims, audit: bool, origin: DeviceId): Option<OrderKey> {
    if audit || origin !in claims then None else Some(claims[origin])
  }

  /** The greater of the claim and the resume key, where both exist. */
  function After(claim: Option<OrderKey>, resumeKey: Option<OrderKey>): Option<OrderKey> {
    match (claim, resumeKey)
    case (Some(c), Some(k)) => Some(Max(c, k))
    case (Some(c), None) => Some(c)
    case (None, k) => k
  }

  function ResumeOrigin(resume: Option<Resume>): Option<DeviceId> {
    if resume.Some? && resume.value.Keyed? then resume.value.origin else None
  }

  function ResumeKey(resume: Option<Resume>): Option<OrderKey> {
    if resume.Some? && resume.value.Keyed? then resume.value.afterKey else None
  }

  /** `partition_point` over an ascending list: what is not below `origin`. */
  function DropBelow(origins: seq<DeviceId>, origin: DeviceId): seq<DeviceId> {
    if origins != [] && origins[0] < origin then DropBelow(origins[1..], origin) else origins
  }

  function SegmentOf(origin: DeviceId, claims: Claims, audit: bool, resume: Option<Resume>): Segment {
    Segment(origin, After(Claim(claims, audit, origin),
                          if ResumeOrigin(resume) == Some(origin) then ResumeKey(resume) else None))
  }

  /** The segments of the loop over `origins`, leaving out a fronted one. */
  function Segments(origins: seq<DeviceId>, fronted: Option<DeviceId>, claims: Claims, audit: bool, resume: Option<Resume>)
    : seq<Segment>
  {
    if origins == [] then []
    else
      (if fronted == Some(origins[0]) then [] else [SegmentOf(origins[0], claims, audit, resume)])
      + Segments(origins[1..], fronted, claims, audit, resume)
  }

  /** Everything a request asks of the keyed channel, in serving order. */
  function Plan(origins: seq<DeviceId>, own: DeviceId, claims: Claims, audit: bool, resume: Option<Resume>)
    : seq<Segment>
  {
    if resume.None? && own in origins then
      [Segment(own, Claim(claims, audit, own))] + Segments(origins, Some(own), claims, audit, resume)
    else
      var from := if ResumeOrigin(resume).Some? then DropBelow(origins, ResumeOrigin(resume).value) else origins;
      Segments(from, None, claims, audit, resume)
  }

  /** What the channel is read from: the log in key order, one store of it or all, and
      the byte budget of the page. */
  datatype Shelf = Shelf(ops: seq<SignedOp>, store: Option<string>, budget: nat)

  datatype Channel = Channel(keyed: seq<SignedOp>, cut: Option<Resume>)

  /** Room left on the page: entries still allowed, bytes already used. */
  datatype Room = Room(remaining: nat, bytes: nat)

  /** The rows one segment contributes with `remaining` entries to spare. */
  function SegmentRows(shelf: Shelf, s: Segment, remaining: nat): seq<SignedOp> {
    Take(OriginRows(shelf.ops, s.origin, s.after, shelf.store), remaining)
  }

  function ServedRows(shelf: Shelf, s: Segment, room: Room): seq<SignedOp> {
    var rows := SegmentRows(shelf, s, room.remaining);
    rows[..Served(rows, room.bytes, shelf.budget)]
  }

  /** Whether the page ends in this segment: the count or the bytes ran out. */
  predicate CutIn(shelf: Shelf, s: Segment, room: Room) {
    var rows, served := SegmentRows(shelf, s, room.remaining), ServedRows(shelf, s, room);
    |rows| == room.remaining || |served| < |rows| || room.bytes + Bytes(served) >= shelf.budget
  }

  function RoomAfter(shelf: Shelf, s: Segment, room: Room): Room {
    var served := ServedRows(shelf, s, room);
    Room(room.remaining - |served|, room.bytes + Bytes(served))
  }

  /** `keyed` already on the page, then a channel. */
  function Then(keyed: seq<SignedOp>, ch: Channel): Channel {
    Channel(keyed + ch.keyed, ch.cut)
  }

  /** Serve segments in turn until the page is cut in one. */
  function Serve(shelf: Shelf, plan: seq<Segment>, room: Room): Channel {
    if plan == [] then Channel([], None)
    else
      var served := ServedRows(shelf, plan[0], room);
      if CutIn(shelf, plan[0], room) then Channel(served, Some(Keyed(Some(plan[0].origin), LastKey(served))))
      else Then(served, Serve(shelf, plan[1..], RoomAfter(shelf, plan[0], room)))
  }

  function KeyedChannel(log: Log, own: DeviceId, claims: Claims, audit: bool, resume: Option<Resume>, store: Option<string>, count: nat, budget: nat)
    : Channel
  {
    if count == 0 then Channel([], resume)
    else Serve(Shelf(log.ops, store, budget), Plan(OriginList(log.ops), own, claims, audit, resume), Room(count, 0))
  }

  lemma ServeCons(shelf: Shelf, s: Segment, rest: seq<Segment>, room: Room, keyed: seq<SignedOp>)
    ensures var served := ServedRows(shelf, s, room);
            Then(keyed, Serve(shelf, [s] + rest, room)) ==
            if CutIn(shelf, s, room) then Channel(keyed + served, Some(Keyed(Some(s.origin), LastKey(served))))
            else Then(keyed + served, Serve(shelf, rest, RoomAfter(shelf, s, room)))
  {
  }

  /** Serve one origin onto the page and decide whether the page is cut there. */
  method ServeOrigin(log: OpLog, s: Segment, store: Option<string>, remaining: nat, bytes: nat, budget: nat, keyed: seq<SignedOp>)
    returns (keyed': seq<SignedOp>, remaining': nat, bytes': nat, cut: Option<Resume>)
    requires log.Valid() && remaining > 0
    ensures var shelf, room := Shelf(log.View().ops, store, budget), Room(remaining, bytes);
            var served := ServedRows(shelf, s, room);
            && keyed' == keyed + served
            && Room(remaining', bytes') == RoomAfter(shelf, s, room)
            && cut == (if CutIn(shelf, s, room) then Some(Keyed(Some(s.origin), LastKey(served))) else None)
            && (cut.None? ==> remaining' > 0)
  {
    var rows := log.OriginSince(s.origin, s.after, store, remaining);
    var served, lastKey;
    keyed', bytes', served, lastKey := EncodeOriginRows(rows, keyed, bytes, budget);
    remaining' := remaining - served;
    cut := if |rows| == remaining || served < |rows| || bytes' >= budget then Some(Keyed(Some(s.origin), lastKey)) else None;
  }

  lemma SegmentsStep(from: seq<DeviceId>, i: nat, fronted: Option<DeviceId>, claims: Claims, audit: bool, resume: Option<Resume>)
    requires i < |from|
    ensures fronted == Some(from[i]) ==>
              Segments(from[i..], fronted, claims, audit, resume) == Segments(from[i + 1..], fronted, claims, audit, resume)
    ensures fronted != Some(from[i]) ==>
              Segments(from[i..], fronted, claims, audit, resume)
              == [SegmentOf(from[i], claims, audit, resume)] + Segments(from[i + 1..], fronted, claims, audit, resume)
  {
  }

  /** The loop of `build_keyed_channel` over the origins to walk. */
  method ServeOrigins(log: OpLog, from: seq<DeviceId>, fronted: Option<DeviceId>, claims: Claims, audit: bool, resume: Option<Resume>,
                      store: Option<string>, count: nat, bytes: nat, budget: nat, keyed: seq<SignedOp>)
    returns (keyed': seq<SignedOp>, cut: Option<Resume>)
    requires log.Valid() && count > 0
    ensures Channel(keyed', cut)
         == Then(keyed, Serve(Shelf(log.View().ops, store, budget), Segments(from, fronted, claims, audit, resume), Room(count, bytes)))
  {
    hide ServedRows;
    hide CutIn;
    hide RoomAfter;
    hide SegmentOf;
    ghost var shelf := Shelf(log.View().ops, store, budget);
    ghost var goal := Then(keyed, Serve(shelf, Segments(from, fronted, claims, audit, resume), Room(count, bytes)));
    keyed' := keyed;
    var remaining: nat, total: nat := count, bytes;
    var i := 0;
    assert from[0..] == from;
    while i < |from|
      invariant 0 <= i <= |from| && remaining > 0
      invariant goal == Then(keyed', Serve(shelf, Segments(from[i..], fronted, claims, audit, resume), Room(remaining, total)))
    {
      SegmentsStep(from, i, fronted, claims, audit, resume);
      var origin := from[i];
      i := i + 1;
      if fronted == Some(origin) {
        continue;
      }
      var s := SegmentOf(origin, claims, audit, resume);
      ServeCons(shelf, s, Segments(from[i..], fronted, claims, audit, resume), Room(remaining, total), keyed');
      keyed', remaining, total, cut := ServeOrigin(log, s, store, remaining, total, budget, keyed');
      if cut.Some? {
        return;
      }
    }
    cut := None;
  }

  /** `build_keyed_channel`. */
  method BuildKeyedChannel(log: OpLog, claims: Claims, resume: Option<Resume>, audit: bool, count: nat, budget: nat,
                           store: Option<string>, own: DeviceId)
    returns (keyed: seq<SignedOp>, cut: Option<Resume>)
    requires log.Valid()
    ensures Channel(keyed, cut) == KeyedChannel(log.View(), own, claims, audit, resume, store, count, budget)
  {
    keyed := [];
    if count == 0 {
      return keyed, resume;
    }
    var origins := log.Origins();
    if resume.None? && own in origins {
      var remaining, bytes;
      var s := Segment(own, Claim(claims, audit, own));
      ServeCons(Shelf(log.View().ops, store, budget), s, Segments(origins, Some(own), claims, audit, resume), Room(count, 0), keyed);
      keyed, remaining, bytes, cut := ServeOrigin(log, s, store, count, 0, budget, keyed);
      if cut.None? {
        keyed, cut := ServeOrigins(log, origins, Some(own), claims, audit, resume, store, remaining, bytes, budget, keyed);
      }
    } else {
      var from := if ResumeOrigin(resume).Some? then DropBelow(origins, ResumeOrigin(resume).value) else origins;
      keyed, cut := ServeOrigins(log, from, None, claims, audit, resume, store, count, 0, budget, keyed);
    }
  }

  // -------------------------------------------------------- positional channel

  datatype ScanResult = ScanResult(backfill: seq<(nat, SignedOp)>, next: nat, byteCut: bool)

  /** Walk scanned arrivals, keeping the covered ones; once the byte budget is met,
      go on only over arrivals that need no bytes. */
  function Scan(rows: seq<(nat, SignedOp)>, claims: Claims, next: nat, bytes: nat, byteCut: bool): ScanResult {
    if rows == [] then ScanResult([], next, byteCut)
    else
      var (s, op) := rows[0];
      if !Covers(claims, op.Key()) then Scan(rows[1..], claims, s, bytes, byteCut)
      else if byteCut then ScanResult([], next, byteCut)
      else
        var b := bytes + op.wireLen;
        var rest := Scan(rows[1..], claims, s, b, b >= PAGE_BYTE_BUDGET);
        rest.(backfill := [rows[0]] + rest.backfill)
  }

  function Clamp(limit: nat): (n: nat)
    ensures 1 <= n <= PAGE_LIMIT_MAX && (1 <= limit <= PAGE_LIMIT_MAX ==> n == limit)
  {
    if limit < 1 then 1 else if limit > PAGE_LIMIT_MAX then PAGE_LIMIT_MAX else limit
  }

  function KeyedPart(resume: Option<Resume>): Option<Resume> {
    if resume.Some? && resume.value.Keyed? then resume else None
  }

  function DataPage(log: Log, backfill: seq<(nat, SignedOp)>, keyed: seq<SignedOp>, next: nat, resume: Option<Resume>, store: Option<string>)
    : PullPage
  {
    PullPage(log.epoch, false, 0, backfill, keyed, next, log.Head(), resume, resume.None?, false, store)
  }

  /** The positional part of a page whose keyed part is `keyed`. */
  function BackfillPage(log: Log, claims: Claims, keyed: seq<SignedOp>, start: nat, budget: nat): PullPage {
    var rows := RelayRows(log.arrivals, start, budget);
    var r := Scan(rows, claims, start, Bytes(keyed), false);
    DataPage(log, r.backfill, keyed, r.next,
             if (|rows| == budget && budget > 0) || r.byteCut then Some(Backfill(r.next)) else None, None)
  }

  /** The page a server answers with from one snapshot of its log. */
  function PageFor(log: Log, own: DeviceId, req: PullRequest): PullPage {
    var claims := DecodeCoverage(req.coverage);
    var limit := Clamp(req.limit);
    if req.store.None? && PullNeedsReset(req.relayEpoch, req.relayAfter, StateOf(log)) then ResetPage(StateOf(log))
    else if req.store.Some? then
      var ch := KeyedChannel(log, own, claims, req.audit, KeyedPart(req.resume), req.store, limit, PAGE_BYTE_BUDGET);
      DataPage(log, [], ch.keyed, req.relayAfter, ch.cut, req.store)
    else if req.resume.Some? && req.resume.value.Backfill? then
      BackfillPage(log, claims, [], req.resume.value.afterSeq, limit)
    else
      var ch := KeyedChannel(log, own, claims, req.audit, KeyedPart(req.resume), None, limit, PAGE_BYTE_BUDGET);
      if ch.cut.Some? then DataPage(log, [], ch.keyed, req.relayAfter, ch.cut, None)
      else if |ch.keyed| >= limit then DataPage(log, [], ch.keyed, req.relayAfter, Some(Backfill(req.relayAfter)), None)
      else BackfillPage(log, claims, ch.keyed, req.relayAfter, limit - |ch.keyed|)
  }

  /** The scan loop of `build_pull_page`. */
  method ScanArrivals(rows: seq<(nat, SignedOp)>, claims: Claims, start: nat, bytes: nat)
    returns (backfill: seq<(nat, SignedOp)>, next: nat, byteCut: bool)
    ensures ScanResult(backfill, next, byteCut) == Scan(rows, claims, start, bytes, false)
  {
    backfill, next, byteCut := [], start, false;
    var pageBytes: nat := bytes;
    var i := 0;
    while i < |rows|
      invariant 0 <= i <= |rows|
      invariant var r := Scan(rows[i..], claims, next, pageBytes, byteCut);
                Scan(rows, claims, start, bytes, false) == r.(backfill := backfill + r.backfill)
    {
      var (s, op) := rows[i];
      assert rows[i..][1..] == rows[i + 1..];
      if byteCut && Covers(claims, op.Key()) {
        break;
      }
      next := s;
      if Covers(claims, op.Key()) {
        pageBytes := pageBytes + op.wireLen;
        backfill := backfill + [(s, op)];
        byteCut := pageBytes >= PAGE_BYTE_BUDGET;
      }
      i := i + 1;
    }
  }

  /** Sum of the encoded lengths already on the page. */
  method PageBytes(keyed: seq<SignedOp>) returns (n: nat)
    ensures n == Bytes(keyed)
  {
    n := 0;
    for i := 0 to |keyed|
      invariant n == Bytes(keyed[..i])
    {
      assert keyed[..i + 1][..i] == keyed[..i];
      n := n + keyed[i].wireLen;
    }
    assert keyed[..|keyed|] == keyed;
  }

  /** `build_pull_page`, against a log that does not change meanwhile. */
  method BuildPullPage(log: OpLog, own: DeviceId, req: PullRequest) returns (page: PullPage)
    requires log.Valid()
    ensures page == PageFor(log.View(), own, req)
  {
    hide KeyedChannel;
    hide BackfillPage;
    hide PullNeedsReset;
    hide DecodeCoverage;
    var stream := StreamState(log.relayEpoch, |log.relayOrder|, 0);
    if req.store.None? && PullNeedsReset(req.relayEpoch, req.relayAfter, stream) {
      return ResetPage(stream);
    }
    var limit := Clamp(req.limit);
    var claims := DecodeCoverage(req.coverage);
    var resumeKeyed := KeyedPart(req.resume);
    if req.store.Some? {
      var keyed, cut := BuildKeyedChannel(log, claims, resumeKeyed, req.audit, limit, PAGE_BYTE_BUDGET, req.store, own);
      return PullPage(stream.epoch, false, 0, [], keyed, req.relayAfter, stream.head, cut, cut.None?, false, req.store);
    }
    var resumeBackfill := req.resume.Some? && req.resume.value.Backfill?;
    var startSeq := if resumeBackfill then req.resume.value.afterSeq else req.relayAfter;
    if resumeBackfill {
      page := BuildBackfill(log, claims, [], startSeq, limit);
      return;
    }
    var keyed, cut := BuildKeyedChannel(log, claims, resumeKeyed, req.audit, limit, PAGE_BYTE_BUDGET, None, own);
    if cut.Some? {
      return PullPage(stream.epoch, false, 0, [], keyed, startSeq, stream.head, cut, false, false, None);
    }
    if |keyed| >= limit {
      return PullPage(stream.epoch, false, 0, [], keyed, startSeq, stream.head, Some(Backfill(startSeq)), false, false, None);
    }
    page := BuildBackfill(log, claims, keyed, startSeq, limit - |keyed|);
  }

  /** The tail of `build_pull_page`: the positional channel beside `keyed`. */
  method BuildBackfill(log: OpLog, claims: Claims, keyed: seq<SignedOp>, startSeq: nat, budget: nat) returns (page: PullPage)
    requires log.Valid()
    ensures page == BackfillPage(log.View(), claims, keyed, startSeq, budget)
  {
    var pageBytes := PageBytes(keyed);
    var scanned := log.RelayPage(startSeq, budget);
    var backfill, next, byteCut := ScanArrivals(scanned, claims, startSeq, pageBytes);
    var resume := if (|scanned| == budget && budget > 0) || byteCut then Some(Backfill(next)) else None;
    page := PullPage(log.relayEpoch, false, 0, backfill, keyed, next, |log.relayOrder|, resume, resume.None?, false, None);
  }
}
