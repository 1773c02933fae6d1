/** Relay protocol v2 (src/net/relay.rs, src/net/server.rs, src/net/sync.rs): ops in the
    order a peer first stored them, pulled under an epoch and a sequence number. */
module Relay {
  import opened OrderKeys
  import opened Logs
  import opened PullServer
  import opened PullPages
  import opened PullClient

  const RELAY_PROTOCOL_VERSION := 2
  const DEFAULT_PULL_LIMIT := 512

  /** One entry on the wire; `None` is an envelope that does not decode. */
  datatype WireEntry = WireEntry(number: nat, envelope: Option<SignedOp>)

  datatype RelayResponse = RelayResponse(
    version: nat, epoch: Epoch, head: nat, floor: nat, next: nat, reset: bool, entries: seq<WireEntry>)

  datatype RelayPage = RelayPage(
    epoch: Epoch, head: nat, floor: nat, next: nat, reset: bool, entries: seq<(nat, SignedOp)>)

  datatype Reply = BadRequest | InternalError | Response(wire: RelayResponse)

  predicate ValidState(s: StreamState) {
    s.epoch != 0 && s.floor <= s.head
  }

  /** The numbers directly after `after`, none of them past `head`. */
  predicate Contiguous(numbers: seq<nat>, after: nat, head: nat) {
    forall i | 0 <= i < |numbers| :: numbers[i] == after + 1 + i && numbers[i] <= head
  }

  /** The loop over `previous` that both ends run. */
  method CheckContiguous(numbers: seq<nat>, after: nat, head: nat) returns (ok: bool)
    ensures ok <==> Contiguous(numbers, after, head)
  {
    var previous := after;
    for i := 0 to |numbers|
      invariant previous == after + i
      invariant forall j | 0 <= j < i :: numbers[j] == after + 1 + j && numbers[j] <= head
    {
      if previous + 1 != numbers[i] || numbers[i] > head {
        return false;
      }
      previous := numbers[i];
    }
    ok := true;
  }

  // -------------------------------------------------------------------- server

  function Numbers(entries: seq<(nat, SignedOp)>): seq<nat> {
    seq(|entries|, i requires 0 <= i < |entries| => entries[i].0)
  }

  function Wired(entries: seq<(nat, SignedOp)>): seq<WireEntry> {
    seq(|entries|, i requires 0 <= i < |entries| => WireEntry(entries[i].0, Some(entries[i].1)))
  }

  function ResetResponse(s: StreamState): RelayResponse {
    RelayResponse(RELAY_PROTOCOL_VERSION, s.epoch, s.head, s.floor, s.floor, true, [])
  }

  /** The answer to a cursor when the log source reports `first`, then `second` with
      `entries`. */
  function Answer(first: StreamState, second: StreamState, entries: seq<(nat, SignedOp)>, cursor: Cursor, limit: nat): Reply {
    if limit == 0 || limit > DEFAULT_PULL_LIMIT || (cursor.epoch == 0 && cursor.after != 0) then BadRequest
    else if !ValidState(first) then InternalError
    else if PullNeedsReset(cursor.epoch, cursor.after, first) then Response(ResetResponse(first))
    else if !ValidState(second) then InternalError
    else if PullNeedsReset(cursor.epoch, cursor.after, second) then Response(ResetResponse(second))
    else if |entries| > limit || !Contiguous(Numbers(entries), cursor.after, second.head) then InternalError
    else Response(RelayResponse(RELAY_PROTOCOL_VERSION, second.epoch, second.head, second.floor,
                                cursor.after + |entries|, false, Wired(entries)))
  }

  /** `get_relay_ops`, over whatever the log source returned. */
  method GetRelayOps(first: StreamState, second: StreamState, entries: seq<(nat, SignedOp)>, cursor: Cursor, limit: nat)
    returns (reply: Reply)
    ensures reply == Answer(first, second, entries, cursor, limit)
  {
    if limit == 0 || limit > DEFAULT_PULL_LIMIT {
      return BadRequest;
    }
    if cursor.epoch == 0 && cursor.after != 0 {
      return BadRequest;
    }
    if !ValidState(first) {
      return InternalError;
    }
    if PullNeedsReset(cursor.epoch, cursor.after, first) {
      return Response(ResetResponse(first));
    }
    if !ValidState(second) {
      return InternalError;
    }
    if PullNeedsReset(cursor.epoch, cursor.after, second) {
      return Response(ResetResponse(second));
    }
    if |entries| > limit {
      return InternalError;
    }
    var ok := CheckContiguous(Numbers(entries), cursor.after, second.head);
    if !ok {
      return InternalError;
    }
    assert entries != [] ==> Numbers(entries)[|entries| - 1] == entries[|entries| - 1].0;
    var next := if entries == [] then cursor.after else entries[|entries| - 1].0;
    reply := Response(RelayResponse(RELAY_PROTOCOL_VERSION, second.epoch, second.head, second.floor, next, false, Wired(entries)));
  }

  // -------------------------------------------------------------------- client

  function WireNumbers(entries: seq<WireEntry>): seq<nat> {
    seq(|entries|, i requires 0 <= i < |entries| => entries[i].number)
  }

  /** A response the puller takes for this cursor. */
  predicate Acceptable(wire: RelayResponse, cursor: Cursor, maxEntries: nat, statusOnly: bool) {
    && wire.version == RELAY_PROTOCOL_VERSION
    && ValidState(StreamState(wire.epoch, wire.head, wire.floor))
    && wire.reset == PullNeedsReset(cursor.epoch, cursor.after, StreamState(wire.epoch, wire.head, wire.floor))
    && (wire.reset ==> wire.entries == [] && wire.next == wire.floor)
    && (!wire.reset && statusOnly ==> wire.entries == [] && wire.next == cursor.after)
    && (!wire.reset && !statusOnly ==>
          && |wire.entries| <= maxEntries
          && Contiguous(WireNumbers(wire.entries), cursor.after, wire.head)
          && wire.next == cursor.after + |wire.entries| && wire.floor <= wire.next <= wire.head)
  }

  /** Of whatever a peer sends, the puller takes exactly this: for a cursor that is not of the
      stream a bare reset to the floor, and otherwise entries numbered directly after the
      cursor, without a gap, up to the next cursor; none in answer to a status request. */
  lemma AcceptableExactly(wire: RelayResponse, cursor: Cursor, maxEntries: nat, statusOnly: bool)
    ensures Acceptable(wire, cursor, maxEntries, statusOnly) <==>
              && wire.version == RELAY_PROTOCOL_VERSION && wire.epoch != 0 && wire.floor <= wire.head
              && (if (if cursor.epoch == 0 then wire.floor > 0 else !(cursor.epoch == wire.epoch && wire.floor <= cursor.after <= wire.head))
                  then wire.reset && wire.entries == [] && wire.next == wire.floor
                  else
                    && !wire.reset && wire.next == cursor.after + |wire.entries|
                    && (forall i | 0 <= i < |wire.entries| :: wire.entries[i].number == cursor.after + 1 + i)
                    && |wire.entries| <= (if statusOnly then 0 else maxEntries)
                    && (statusOnly || wire.floor <= wire.next <= wire.head))
  {
    var numbers := WireNumbers(wire.entries);
    assert forall i | 0 <= i < |numbers| :: numbers[i] == wire.entries[i].number;
  }

  predicate AllDecode(entries: seq<WireEntry>) {
    forall i | 0 <= i < |entries| :: entries[i].envelope.Some?
  }

  function Decoded(entries: seq<WireEntry>): seq<(nat, SignedOp)>
    requires AllDecode(entries)
  {
    seq(|entries|, i requires 0 <= i < |entries| => (entries[i].number, entries[i].envelope.value))
  }

  /** `decode_relay_response`; `None` stands for each of its wire errors. */
  method DecodeRelayResponse(wire: RelayResponse, cursor: Cursor, maxEntries: nat, statusOnly: bool) returns (page: Option<RelayPage>)
    ensures page.Some? <==> Acceptable(wire, cursor, maxEntries, statusOnly) && (wire.reset || AllDecode(wire.entries))
    ensures page.Some? ==>
              page.value == RelayPage(wire.epoch, wire.head, wire.floor, wire.next, wire.reset,
                                      if wire.reset then [] else Decoded(wire.entries))
  {
    hide Contiguous;
    page := None;
    if wire.version != RELAY_PROTOCOL_VERSION {
      return;
    }
    if wire.epoch == 0 || wire.floor > wire.head {
      return;
    }
    var cursorInvalid := PullNeedsReset(cursor.epoch, cursor.after, StreamState(wire.epoch, wire.head, wire.floor));
    if wire.reset {
      if !cursorInvalid || wire.entries != [] || wire.next != wire.floor {
        return;
      }
      return Some(RelayPage(wire.epoch, wire.head, wire.floor, wire.next, true, []));
    }
    if cursorInvalid {
      return;
    }
    if statusOnly {
      if wire.entries != [] || wire.next != cursor.after {
        return;
      }
    } else {
      if |wire.entries| > maxEntries {
        return;
      }
      var ok := CheckContiguous(WireNumbers(wire.entries), cursor.after, wire.head);
      if !ok {
        return;
      }
      if wire.entries != [] { LastNumber(wire.entries, cursor.after, wire.head); }
      var expectedNext := if wire.entries == [] then cursor.after else wire.entries[|wire.entries| - 1].number;
      if wire.next != expectedNext || wire.next < wire.floor || wire.next > wire.head {
        return;
      }
    }
    var entries: seq<(nat, SignedOp)> := [];
    for i := 0 to |wire.entries|
      invariant |entries| == i
      invariant forall j | 0 <= j < i :: wire.entries[j].envelope.Some? && entries[j] == (wire.entries[j].number, wire.entries[j].envelope.value)
    {
      if wire.entries[i].envelope.None? {
        return;
      }
      entries := entries + [(wire.entries[i].number, wire.entries[i].envelope.value)];
    }
    assert entries == Decoded(wire.entries);
    page := Some(RelayPage(wire.epoch, wire.head, wire.floor, wire.next, false, entries));
  }

  lemma LastNumber(entries: seq<WireEntry>, after: nat, head: nat)
    requires Contiguous(WireNumbers(entries), after, head) && entries != []
    ensures entries[|entries| - 1].number == after + |entries|
  {
    assert WireNumbers(entries)[|entries| - 1] == entries[|entries| - 1].number;
  }

  /** Whatever its log source does, a server never sends what the puller would refuse,
      and what the puller reads is what the log source gave. */
  lemma AnswersAreAcceptable(first: StreamState, second: StreamState, entries: seq<(nat, SignedOp)>, cursor: Cursor, limit: nat)
    requires Answer(first, second, entries, cursor, limit).Response?
    ensures var wire := Answer(first, second, entries, cursor, limit).wire;
            Acceptable(wire, cursor, limit, false) && AllDecode(wire.entries)
            && (!wire.reset ==> Decoded(wire.entries) == entries)
  {
    assert WireNumbers(Wired(entries)) == Numbers(entries);
    assert Contiguous(Numbers(entries), cursor.after, second.head) && entries != [] ==>
             Numbers(entries)[|entries| - 1] <= second.head;
  }

  /** A valid stream resets exactly the cursors the puller's check refuses, the puller
      takes each such reset, and the cursor it installs needs no second one. */
  lemma RelayResetAgreement(s: StreamState, entries: seq<(nat, SignedOp)>, cursor: Cursor, limit: nat)
    requires ValidState(s) && 1 <= limit <= DEFAULT_PULL_LIMIT && (cursor.epoch == 0 ==> cursor.after == 0)
    ensures Answer(s, s, entries, cursor, limit) == Response(ResetResponse(s)) <==> PullNeedsReset(cursor.epoch, cursor.after, s)
    ensures Acceptable(ResetResponse(s), cursor, limit, false) <==> PullNeedsReset(cursor.epoch, cursor.after, s)
    ensures !PullNeedsReset(s.epoch, ResetResponse(s).next, s)
  {
  }

  /** The reference log never makes its own server refuse. */
  lemma ReferenceLogIsServed(first: Log, second: Log, cursor: Cursor, limit: nat)
    requires first.Valid() && second.Valid()
    requires 1 <= limit <= DEFAULT_PULL_LIMIT && (cursor.epoch == 0 ==> cursor.after == 0)
    ensures Answer(StateOf(first), StateOf(second), RelayRows(second.arrivals, cursor.after, limit), cursor, limit).Response?
  {
  }

  // ----------------------------------------------------------------- one sync

  /** What the model does not decide: op checks, file writes, the sync, the replay. */
  datatype RelayWorld = RelayWorld(durable: bool, accepts: (nat, SignedOp) -> bool, writes: nat -> bool, syncs: bool, replays: bool)

  datatype Puller = Puller(held: set<OpId>, cursor: Cursor)

  /** How many leading entries get into the log. */
  function Taken(ops: seq<SignedOp>, held: set<OpId>, w: RelayWorld, tick: nat): (n: nat)
    ensures n <= |ops|
  {
    if ops == [] then 0
    else
      var op := ops[0];
      if !w.accepts(tick, op) || (op.id !in held && w.durable && !w.writes(tick)) then 0
      else 1 + Taken(ops[1..], held + {op.id}, w, tick + 1)
  }

  /** What an entry needs to be taken: to pass its checks, and to be held, or seen earlier on
      the page, or written. */
  predicate Takeable(ops: seq<SignedOp>, held: set<OpId>, w: RelayWorld, tick: nat, i: nat)
    requires i < |ops|
  {
    && w.accepts(tick + i, ops[i])
    && (ops[i].id in held || (exists j :: 0 <= j < i && ops[j].id == ops[i].id) || !w.durable || w.writes(tick + i))
  }

  /** The batch takes exactly the entries before the first that lacks this. */
  lemma {:induction false} TakenExactly(ops: seq<SignedOp>, held: set<OpId>, w: RelayWorld, tick: nat)
    ensures var n := Taken(ops, held, w, tick);
            && (forall i | 0 <= i < n :: Takeable(ops, held, w, tick, i))
            && (n < |ops| ==> !Takeable(ops, held, w, tick, n))
  {
    if ops != [] {
      var op, rest := ops[0], ops[1..];
      TakenExactly(rest, held + {op.id}, w, tick + 1);
      forall i | 0 < i < |ops|
        ensures Takeable(ops, held, w, tick, i) <==> Takeable(rest, held + {op.id}, w, tick + 1, i - 1)
      {
        TakeableLater(ops, held, w, tick, i - 1);
      }
      hide Takeable;
      assert Takeable(ops, held, w, tick, 0) <==> w.accepts(tick, op) && (op.id in held || !w.durable || w.writes(tick)) by {
        TakeableFirst(ops, held, w, tick);
      }
      forall i | 0 <= i < Taken(ops, held, w, tick)
        ensures Takeable(ops, held, w, tick, i)
      {
        if i > 0 {
          assert Takeable(rest, held + {op.id}, w, tick + 1, i - 1);
        }
      }
    }
  }

  lemma TakeableFirst(ops: seq<SignedOp>, held: set<OpId>, w: RelayWorld, tick: nat)
    requires ops != []
    ensures Takeable(ops, held, w, tick, 0) <==> w.accepts(tick, ops[0]) && (ops[0].id in held || !w.durable || w.writes(tick))
  {
  }

  lemma TakeableLater(ops: seq<SignedOp>, held: set<OpId>, w: RelayWorld, tick: nat, i: nat)
    requires i < |ops| - 1
    ensures Takeable(ops[1..], held + {ops[0].id}, w, tick + 1, i) <==> Takeable(ops, held, w, tick, i + 1)
  {
    var rest := ops[1..];
    if j :| 0 <= j < i + 1 && ops[j].id == ops[i + 1].id {
      assert j > 0 ==> rest[j - 1].id == rest[i].id;
    }
    if j :| 0 <= j < i && rest[j].id == rest[i].id {
      assert ops[j + 1].id == ops[i + 1].id;
    }
  }

  /** A page folded into the puller: the entries taken are held, and the cursor names the
      last of them unless syncing or replaying failed. */
  function Pulled(p: Puller, page: RelayPage, w: RelayWorld): Puller {
    if page.reset then p.(cursor := Cursor(page.epoch, page.next))
    else
      var n := Taken(OpsOf(page.entries), p.held, w, 0);
      var after := if n > 0 then page.entries[n - 1].0 else p.cursor.after;
      var held := p.held + FirstIds(OpsOf(page.entries), n);
      if after != p.cursor.after && ((w.durable && !w.syncs) || !w.replays) then Puller(held, p.cursor)
      else Puller(held, Cursor(page.epoch, after))
  }

  datatype SyncOutcome = Aborted | Synced(received: nat, appended: nat, reset: bool)

  lemma TakenStep(ops: seq<SignedOp>, held: set<OpId>, w: RelayWorld, n: nat)
    requires n < |ops|
    ensures Taken(ops[n..], held, w, n) ==
            if !w.accepts(n, ops[n]) || (ops[n].id !in held && w.durable && !w.writes(n)) then 0
            else 1 + Taken(ops[n + 1..], held + {ops[n].id}, w, n + 1)
  {
    assert ops[n..][1..] == ops[n + 1..];
  }

  /** The batch loop of `sync_relay_once`. */
  method TakeEntries(log: OpLog, entries: seq<(nat, SignedOp)>, start: nat, w: RelayWorld)
    returns (after: nat, received: nat, appended: nat, abort: bool)
    requires log.Valid()
    modifies log
    ensures log.Valid()
    ensures received == Taken(OpsOf(entries), old(log.ids), w, 0)
    ensures log.ids == old(log.ids) + FirstIds(OpsOf(entries), received)
    ensures after == if received > 0 then entries[received - 1].0 else start
    ensures abort <==> received < |entries|
    ensures |log.View().arrivals| == |old(log.View().arrivals)| + appended
  {
    hide Appended;
    hide Ascending;
    hide DistinctIds;
    hide Ids;
    hide FirstIds;
    hide Taken;
    after, received, appended, abort := start, 0, 0, false;
    var ops := OpsOf(entries);
    FirstIdsNone(ops);
    assert ops[0..] == ops && ops[|ops|..] == [];
    while received < |entries|
      invariant log.Valid() && received <= |entries| && !abort
      invariant Taken(ops, old(log.ids), w, 0) == received + Taken(ops[received..], log.ids, w, received)
      invariant log.ids == old(log.ids) + FirstIds(ops, received)
      invariant after == if received > 0 then entries[received - 1].0 else start
      invariant |log.View().arrivals| == |old(log.View().arrivals)| + appended
    {
      var op := entries[received].1;
      TakenStep(ops, log.ids, w, received);
      FirstIdsStep(ops, received);
      if !w.accepts(received, op) {
        return after, received, appended, true;
      }
      if op.id !in log.ids {
        if w.durable && !w.writes(received) {
          return after, received, appended, true;
        }
        ghost var before := log.View();
        var isNew := log.Append(op);
        AppendedGrows(before, op);
        appended := appended + 1;
      } else {
        assert log.ids + {op.id} == log.ids;
      }
      after := entries[received].0;
      received := received + 1;
    }
  }

  /** `sync_relay_once`, once the page has been fetched and decoded. */
  method SyncRelayOnce(log: OpLog, cursor: Cursor, page: RelayPage, w: RelayWorld) returns (cursor': Cursor, outcome: SyncOutcome)
    requires log.Valid()
    modifies log
    ensures log.Valid()
    ensures Puller(log.ids, cursor') == Pulled(Puller(old(log.ids), cursor), page, w)
    ensures outcome == Synced(0, 0, true) <==> page.reset
    ensures !page.reset ==>
              var n := Taken(OpsOf(page.entries), old(log.ids), w, 0);
              var moved := n > 0 && page.entries[n - 1].0 != cursor.after;
              outcome.Synced? <==> n == |page.entries| && !(moved && ((w.durable && !w.syncs) || !w.replays))
    ensures outcome.Synced? && !page.reset ==>
              && outcome.received == |page.entries| && !outcome.reset
              && |log.View().arrivals| == |old(log.View().arrivals)| + outcome.appended
  {
    hide FirstIds;
    hide Ids;
    hide Ascending;
    hide DistinctIds;
    if page.reset {
      return Cursor(page.epoch, page.next), Synced(0, 0, true);
    }
    var after, received, appended, abort := TakeEntries(log, page.entries, cursor.after, w);
    if after != cursor.after {
      if w.durable && !w.syncs {
        return cursor, Aborted;
      }
      if !w.replays {
        return cursor, Aborted;
      }
    }
    cursor' := Cursor(page.epoch, after);
    outcome := if abort then Aborted else Synced(received, appended, false);
  }

  // ------------------------------------------------------------------ all runs

  /** Every arrival of the cursor's own stream at or below it is held. */
  ghost predicate HeldUpTo(log: Log, p: Puller) {
    p.cursor.epoch == log.epoch ==>
      && p.cursor.after <= log.Head()
      && forall i | 0 <= i < p.cursor.after :: log.arrivals[i].id in p.held
  }

  datatype Flight = Idle | Asked(limit: nat) | Looked(limit: nat, first: StreamState) | Replied(limit: nat, reply: Reply, snap: Log)

  datatype RelayLink = RelayLink(log: Log, used: set<Epoch>, p: Puller, flight: Flight)

  datatype Step =
    | Append(op: SignedOp)      // the server stores an op
    | Restart(stream: Log)      // the server comes back with a new stream
    | Ask(limit: nat)           // the puller sends its cursor
    | Look                      // the server reads its stream state
    | Serve                     // the server reads the page and replies
    | Arrive(w: RelayWorld)     // the reply reaches the puller
    | Lose                      // the exchange fails on the way
    | Gain(ids: set<OpId>)      // the puller learns ops elsewhere

  ghost predicate Enabled(l: RelayLink, s: Step) {
    match s
    case Restart(stream) => stream.Valid() && stream.epoch !in l.used
    case Ask(_) => l.flight.Idle?
    case Look => l.flight.Asked?
    case Serve => l.flight.Looked?
    case Arrive(_) => l.flight.Replied?
    case _ => true
  }

  /** The puller's side of one reply: decode it, then fold it in. */
  ghost function Received(p: Puller, limit: nat, reply: Reply, w: RelayWorld): Puller {
    if reply.Response? && Acceptable(reply.wire, p.cursor, limit, false) && AllDecode(reply.wire.entries) then
      var wire := reply.wire;
      Pulled(p, RelayPage(wire.epoch, wire.head, wire.floor, wire.next, wire.reset, Decoded(wire.entries)), w)
    else p
  }

  ghost function Next(l: RelayLink, s: Step): RelayLink
    requires Enabled(l, s)
  {
    match s
    case Append(op) => l.(log := Appended(l.log, op))
    case Restart(stream) => l.(log := stream, used := l.used + {stream.epoch})
    case Ask(limit) => l.(flight := Asked(limit))
    case Look => l.(flight := Looked(l.flight.limit, StateOf(l.log)))
    case Serve =>
      var rows := RelayRows(l.log.arrivals, l.p.cursor.after, l.flight.limit);
      l.(flight := Replied(l.flight.limit, Answer(l.flight.first, StateOf(l.log), rows, l.p.cursor, l.flight.limit), l.log))
    case Arrive(w) => l.(p := Received(l.p, l.flight.limit, l.flight.reply, w), flight := Idle)
    case Lose => l.(flight := Idle)
    case Gain(ids) => l.(p := l.p.(held := l.p.held + ids))
  }

  /** A reply in flight: a reset of some stream the server has had, or rows of a snapshot. */
  ghost predicate HonestReply(l: RelayLink, reply: Reply, snap: Log) {
    && snap.Valid() && snap.epoch in l.used
    && (snap.epoch == l.log.epoch ==> Extends(l.log, snap))
    && HeldUpTo(snap, l.p)
    && (reply.Response? ==>
          if reply.wire.reset then reply.wire.epoch in l.used && reply.wire.next == 0
          else
            && reply.wire.epoch == snap.epoch
            && (l.p.cursor.epoch == snap.epoch || l.p.cursor.after == 0)
            && reply.wire.entries == Wired(RelayRows(snap.arrivals, l.p.cursor.after, |reply.wire.entries|)))
  }

  ghost predicate Inv(l: RelayLink) {
    && l.log.Valid() && l.log.epoch in l.used
    && (l.p.cursor.epoch == 0 ==> l.p.cursor.after == 0)
    && (l.p.cursor.epoch != 0 ==> l.p.cursor.epoch in l.used)
    && HeldUpTo(l.log, l.p)
    && (l.flight.Looked? ==> l.flight.first.epoch in l.used && l.flight.first.floor == 0)
    && (l.flight.Replied? ==> HonestReply(l, l.flight.reply, l.flight.snap))
  }

  ghost predicate Start(l: RelayLink) {
    && l.log.Valid() && l.used == {l.log.epoch}
    && l.p.cursor == Cursor(0, 0) && l.flight == Idle
  }

  ghost predicate Follows(l: RelayLink, l': RelayLink) {
    exists s :: Enabled(l, s) && l' == Next(l, s)
  }

  ghost predicate IsRun(run: seq<RelayLink>) {
    && run != [] && Start(run[0])
    && forall i | 0 <= i < |run| - 1 :: Follows(run[i], run[i + 1])
  }

  lemma AppendKeepsInv(l: RelayLink, op: SignedOp)
    requires Inv(l)
    ensures Inv(Next(l, Append(op)))
  {
    hide Appended;
    hide Wired;
    hide RelayRows;
    AppendedKeepsValid(l.log, op);
  }

  lemma ServeKeepsInv(l: RelayLink)
    requires Inv(l) && Enabled(l, Serve)
    ensures Inv(Next(l, Serve))
  {
  }

  /** Folding an honest page in moves the cursor only over held arrivals. */
  lemma PulledIsHeld(snap: Log, p: Puller, page: RelayPage, w: RelayWorld)
    requires HeldUpTo(snap, p) && page.epoch == snap.epoch
    requires p.cursor.epoch == snap.epoch || p.cursor.after == 0
    requires page.reset ==> page.next == 0
    requires !page.reset ==> page.entries == RelayRows(snap.arrivals, p.cursor.after, |page.entries|)
    ensures var p' := Pulled(p, page, w);
            && HeldUpTo(snap, p') && p.held <= p'.held
            && (p'.cursor == p.cursor || p'.cursor.epoch == snap.epoch)
  {
    if !page.reset {
      var n := Taken(OpsOf(page.entries), p.held, w, 0);
      hide Taken;
      var p' := Pulled(p, page, w);
      forall i | p.cursor.after <= i < p.cursor.after + n
        ensures i < |snap.arrivals| && snap.arrivals[i].id in p'.held
      {
        var k := i - p.cursor.after;
        assert page.entries[k].1 == snap.arrivals[i];
        assert OpsOf(page.entries)[k].id in FirstIds(OpsOf(page.entries), n);
      }
    }
  }

  lemma ArriveKeepsInv(l: RelayLink, w: RelayWorld)
    requires Inv(l) && Enabled(l, Arrive(w))
    ensures Inv(Next(l, Arrive(w)))
  {
    hide Acceptable;
    hide RelayRows;
    var reply, snap := l.flight.reply, l.flight.snap;
    var p' := Received(l.p, l.flight.limit, reply, w);
    if reply.Response? && Acceptable(reply.wire, l.p.cursor, l.flight.limit, false) && AllDecode(reply.wire.entries) {
      var wire := reply.wire;
      var page := RelayPage(wire.epoch, wire.head, wire.floor, wire.next, wire.reset, Decoded(wire.entries));
      if !wire.reset {
        assert Decoded(wire.entries) == RelayRows(snap.arrivals, l.p.cursor.after, |wire.entries|);
        PulledIsHeld(snap, l.p, page, w);
        hide Pulled;
        assert p' == Pulled(l.p, page, w);
      }
    }
  }

  lemma StepKeepsInv(l: RelayLink, s: Step)
    requires Inv(l) && Enabled(l, s)
    ensures Inv(Next(l, s))
  {
    match s
    case Append(op) => AppendKeepsInv(l, op);
    case Serve => ServeKeepsInv(l);
    case Arrive(w) => ArriveKeepsInv(l, w);
    case _ =>
      hide RelayRows;
      hide Wired;
  }

  /** In every run the puller holds every arrival of its cursor's stream up to the
      cursor: across pages, aborts within a page, retries, restarts and resets. */
  lemma {:induction false} EveryRunHoldsUpTo(run: seq<RelayLink>, i: nat)
    requires IsRun(run) && i < |run|
    ensures Inv(run[i]) && HeldUpTo(run[i].log, run[i].p)
  {
    hide HonestReply;
    hide HeldUpTo;
    if i == 0 {
      StartHasInv(run[0]);
    } else {
      EveryRunHoldsUpTo(run, i - 1);
      assert Follows(run[i - 1], run[i - 1 + 1]);
      var s :| Enabled(run[i - 1], s) && run[i] == Next(run[i - 1], s);
      StepKeepsInv(run[i - 1], s);
    }
  }

  lemma StartHasInv(l: RelayLink)
    requires Start(l)
    ensures Inv(l)
  {
  }

  /** A page on which every entry can be taken, the sync works and the replay works moves the
      cursor on by the whole page, and short of the limit that is the head of the stream. */
  lemma CleanPageAdvances(snap: Log, p: Puller, limit: nat, w: RelayWorld)
    requires p.cursor.epoch == snap.epoch && p.cursor.after <= snap.Head()
    requires var ops := OpsOf(RelayRows(snap.arrivals, p.cursor.after, limit));
             forall i | 0 <= i < |ops| :: Takeable(ops, p.held, w, 0, i)
    requires (w.durable ==> w.syncs) && w.replays
    ensures var rows := RelayRows(snap.arrivals, p.cursor.after, limit);
            var p' := Pulled(p, RelayPage(snap.epoch, snap.Head(), 0, 0, false, rows), w);
            && p'.cursor == Cursor(snap.epoch, if p.cursor.after + limit < snap.Head() then p.cursor.after + limit else snap.Head())
            && forall i | 0 <= i < |rows| :: rows[i].1.id in p'.held
  {
    var rows := RelayRows(snap.arrivals, p.cursor.after, limit);
    var ops := OpsOf(rows);
    TakenExactly(ops, p.held, w, 0);
    hide Taken;
    hide Takeable;
    forall i | 0 <= i < |rows|
      ensures rows[i].1.id in FirstIds(ops, |ops|)
    {
      assert ops[i] == rows[i].1;
    }
  }
}
