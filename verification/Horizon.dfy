/** How far compaction may reach (src/sqlite/retention.rs, src/sqlite/coverage.rs): the
    retention horizon, found by binary search over numbers with holes, and the position
    every live peer has acknowledged. */
module Horizon {
  import opened OrderKeys
  import opened SqlLog
  import opened Compaction

  /** Arrival times do not go back along the stream. */
  ghost predicate Monotone(arrivals: map<nat, Arrival>) {
    forall m, n | m in arrivals && n in arrivals && m <= n :: arrivals[m].at <= arrivals[n].at
  }

  function UpTo(numbers: set<nat>, n: nat): set<nat> {
    set m | m in numbers && m <= n
  }

  /** `horizon_relay_floor`: the last arrival at or before the cutoff. */
  method HorizonRelayFloor(db: Db, cutoff: int) returns (floor: nat)
    requires 0 !in db.arrivals
    ensures floor == 0 || (floor in db.arrivals && db.arrivals[floor].at <= cutoff)
    ensures Monotone(db.arrivals) ==> forall n | n in db.arrivals :: n <= floor <==> db.arrivals[n].at <= cutoff
  {
    var numbers := db.arrivals.Keys;
    if numbers == {} {
      return 0;
    }
    var oldest := Bottom(numbers);
    if db.arrivals[oldest].at > cutoff {
      return 0;
    }
    var newest := Top(numbers);
    if db.arrivals[newest].at <= cutoff {
      return newest;
    }
    var lo: int, hi: int, best: nat := oldest, newest, oldest;
    while lo <= hi
      invariant oldest <= lo
      invariant best in db.arrivals && db.arrivals[best].at <= cutoff
      invariant Monotone(db.arrivals) ==> forall n | n in numbers && n < lo :: n <= best
      invariant Monotone(db.arrivals) ==> forall n | n in numbers && n > hi :: db.arrivals[n].at > cutoff
      decreases hi - lo
    {
      var mid: nat := lo + (hi - lo) / 2;
      var probed := UpTo(numbers, mid);
      assert forall m | m in numbers && m <= mid :: m in probed;
      if probed == {} {
        lo := mid + 1;
        continue;
      }
      var n := Top(probed);
      if db.arrivals[n].at <= cutoff {
        best := if best < n then n else best;
        lo := mid + 1;
      } else {
        hi := n - 1;
      }
    }
    floor := best;
  }

  // --------------------------------------------------------------------- acks

  /** A row of `devices`; `None` is an id that does not parse. */
  datatype Device = Device(id: Option<DeviceId>, trusted: bool, lastSeen: int)

  datatype Ack = Ack(epoch: nat, position: nat)

  type Acks = map<DeviceId, Ack>

  predicate IsPeer(d: Device, local: DeviceId) {
    d.trusted && d.id != Some(local)
  }

  predicate Dormant(d: Device, before: Option<int>) {
    before.Some? && d.lastSeen < before.value
  }

  function Peers(devices: seq<Device>, local: DeviceId): (r: seq<Device>)
    ensures forall d :: d in r <==> d in devices && IsPeer(d, local)
  {
    if devices == [] then []
    else
      assert devices == [devices[0]] + devices[1..];
      if IsPeer(devices[0], local) then [devices[0]] + Peers(devices[1..], local) else Peers(devices[1..], local)
  }

  predicate HasAck(acks: Acks, epoch: nat, d: Device) {
    d.id.Some? && d.id.value in acks && acks[d.id.value].epoch == epoch
  }

  /** A peer that holds the floor at zero: unreadable, or live and without an ack. */
  predicate HoldsBack(acks: Acks, epoch: nat, before: Option<int>, d: Device) {
    d.id.None? || (!Dormant(d, before) && (!HasAck(acks, epoch, d) || acks[d.id.value].position == 0))
  }

  predicate Counts(acks: Acks, epoch: nat, before: Option<int>, d: Device) {
    HasAck(acks, epoch, d) && !Dormant(d, before)
  }

  /** The least position among the peers that count, or nothing when none does. */
  ghost predicate IsFloor(peers: seq<Device>, acks: Acks, epoch: nat, before: Option<int>, floor: Option<nat>) {
    match floor
    case None => forall d | d in peers :: !Counts(acks, epoch, before, d)
    case Some(n) =>
      && (forall d | d in peers && Counts(acks, epoch, before, d) :: n <= acks[d.id.value].position)
      && (exists d :: d in peers && Counts(acks, epoch, before, d) && acks[d.id.value].position == n)
  }

  lemma FloorPasses(peers: seq<Device>, acks: Acks, epoch: nat, before: Option<int>, floor: Option<nat>, d: Device)
    requires IsFloor(peers, acks, epoch, before, floor) && !Counts(acks, epoch, before, d)
    ensures IsFloor(peers + [d], acks, epoch, before, floor)
  {
  }

  lemma FloorTakes(peers: seq<Device>, acks: Acks, epoch: nat, before: Option<int>, floor: Option<nat>, d: Device)
    requires IsFloor(peers, acks, epoch, before, floor) && Counts(acks, epoch, before, d)
    ensures var n := acks[d.id.value].position;
            IsFloor(peers + [d], acks, epoch, before, if floor.Some? && floor.value < n then floor else Some(n))
  {
  }

  /** `min_peer_ack`: zero as soon as one peer holds the floor back, otherwise the least
      position a live peer has acknowledged, or nothing when there is no live peer. */
  method MinPeerAck(devices: seq<Device>, local: DeviceId, acks: Acks, epoch: nat, before: Option<int>) returns (r: Option<nat>)
    ensures var peers := Peers(devices, local);
            if exists d :: d in peers && HoldsBack(acks, epoch, before, d) then r == Some(0)
            else IsFloor(peers, acks, epoch, before, r)
  {
    hide IsFloor;
    hide Dormant;
    hide Peers;
    var peers := Peers(devices, local);
    r := None;
    assert IsFloor([], acks, epoch, before, None) by { NoPeers(acks, epoch, before); }
    for i := 0 to |peers|
      invariant forall d | d in peers[..i] :: !HoldsBack(acks, epoch, before, d)
      invariant IsFloor(peers[..i], acks, epoch, before, r) && r != Some(0)
    {
      var peer := peers[i];
      assert peer in peers && peers[..i + 1] == peers[..i] + [peer];
      if peer.id.None? {
        return Some(0);
      }
      if !HasAck(acks, epoch, peer) {
        if Dormant(peer, before) {
          FloorPasses(peers[..i], acks, epoch, before, r, peer);
          continue;
        }
        return Some(0);
      }
      if Dormant(peer, before) {
        FloorPasses(peers[..i], acks, epoch, before, r, peer);
        continue;
      }
      FloorTakes(peers[..i], acks, epoch, before, r, peer);
      var acked := acks[peer.id.value].position;
      r := if r.Some? && r.value < acked then r else Some(acked);
      if r == Some(0) {
        return Some(0);
      }
    }
    assert peers[..|peers|] == peers;
  }

  lemma NoPeers(acks: Acks, epoch: nat, before: Option<int>)
    ensures IsFloor([], acks, epoch, before, None)
  {
  }

  /** `record_peer_ack`: acks for another stream are ignored; within one they only rise. */
  function Recorded(acks: Acks, current: nat, peer: DeviceId, epoch: nat, position: nat): Acks {
    if epoch != current then acks
    else if peer in acks && acks[peer].epoch == epoch && position < acks[peer].position then acks
    else acks[peer := Ack(epoch, position)]
  }

  function RecordedAll(acks: Acks, current: nat, presented: seq<(DeviceId, nat, nat)>): Acks {
    if presented == [] then acks
    else
      var (peer, epoch, position) := presented[|presented| - 1];
      Recorded(RecordedAll(acks, current, presented[..|presented| - 1]), current, peer, epoch, position)
  }

  /** The position recorded for a peer in the current stream is the greatest it presented in
      it or had before, in whatever order they came; other presentations leave no trace. */
  lemma {:induction false} RecordedIsHighest(first: Acks, current: nat, presented: seq<(DeviceId, nat, nat)>, peer: DeviceId)
    ensures var acks := RecordedAll(first, current, presented);
            && (forall n: nat | (peer, current, n) in presented :: peer in acks && acks[peer].epoch == current && n <= acks[peer].position)
            && (peer in first && first[peer].epoch == current ==>
                  peer in acks && acks[peer].epoch == current && first[peer].position <= acks[peer].position)
            && (peer in acks ==>
                  || (acks[peer].epoch == current && (peer, current, acks[peer].position) in presented)
                  || (peer in first && acks[peer] == first[peer]))
            && (peer in first ==> peer in acks)
  {
    if presented != [] {
      var init, last := presented[..|presented| - 1], presented[|presented| - 1];
      RecordedIsHighest(first, current, init, peer);
      assert presented == init + [last] && last in presented;
      var was, acks := RecordedAll(first, current, init), RecordedAll(first, current, presented);
      if peer in was {
        assert (peer, current, was[peer].position) in init ==> (peer, current, was[peer].position) in presented;
      }
      if peer in acks && !(peer in was && acks[peer] == was[peer]) {
        assert last == (peer, current, acks[peer].position);
      }
    }
  }

  // --------------------------------------------------------------- safe floor

  datatype Bounds = Bounds(peers: nat, horizonFloor: nat, ackFloor: nat, safeFloor: nat)

  /** Every live trusted peer has acknowledged this stream up to `n`, and there is one. */
  ghost predicate AckedByAll(devices: seq<Device>, local: DeviceId, acks: Acks, epoch: nat, before: int, n: nat) {
    && (exists d :: d in devices && d.trusted && d.id != Some(local) && d.lastSeen >= before)
    && forall d | d in devices && d.trusted && d.id != Some(local) && d.lastSeen >= before ::
         d.id.Some? && d.id.value in acks && acks[d.id.value].epoch == epoch && n <= acks[d.id.value].position
  }

  /** No trusted peer has an id that does not parse. */
  ghost predicate AllReadable(devices: seq<Device>, local: DeviceId) {
    forall d | d in devices && d.trusted && d.id != Some(local) :: d.id.Some?
  }

  /** `safe_relay_floor`: an arrival younger than the cutoff lies at or below the floor exactly
      when every trusted peer is readable and every live one has acknowledged past it in the
      current stream, so only then is it ever a candidate for deletion. */
  method SafeRelayFloor(db: Db, devices: seq<Device>, local: DeviceId, acks: Acks, cutoff: int) returns (b: Bounds)
    requires 0 !in db.arrivals
    ensures b.horizonFloor <= b.safeFloor
    ensures Monotone(db.arrivals) ==> forall n | n in db.arrivals && db.arrivals[n].at <= cutoff :: n <= b.safeFloor
    ensures Monotone(db.arrivals) ==> forall n | n in db.arrivals && db.arrivals[n].at > cutoff ::
              n <= b.safeFloor <==> AckedByAll(devices, local, acks, db.epoch, cutoff, n) && AllReadable(devices, local)
    ensures Monotone(db.arrivals) ==>
              forall keep: nat, n | Candidate(View(db), keep, b.safeFloor, db.pinned, n) && db.arrivals[n].at > cutoff ::
                AckedByAll(devices, local, acks, db.epoch, cutoff, n)
  {
    hide Shadowed;
    hide Bulk;
    var peers := Peers(devices, local);
    var horizon := HorizonRelayFloor(db, cutoff);
    if |peers| == 0 {
      return Bounds(0, horizon, 0, horizon);
    }
    var ack := MinPeerAck(devices, local, acks, db.epoch, Some(cutoff));
    var ackFloor := if ack.Some? then ack.value else 0;
    b := Bounds(|peers|, horizon, ackFloor, if horizon < ackFloor then ackFloor else horizon);
  }
}
