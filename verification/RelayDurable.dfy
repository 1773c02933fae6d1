/** The reference daemon across crashes (src/bin/pnsd.rs, src/net/sync.rs, src/durable.rs):
    a relay puller whose ops are held in the durability file and whose cursor is saved
    after a sync. Whatever a crash loses, a saved cursor does not point past it; what a
    restart cannot read is another matter. */
module RelayDurable {
  import opened OrderKeys
  import opened Logs
  import opened PullServer
  import opened PullPages
  import opened PullClient
  import Relay
  import Durable

  // ----------------------------------------------------------------- one batch

  type Accepts = (nat, SignedOp) -> bool

  /** The file after the batch loop of `sync_relay_once`: every entry that is accepted and
      new is appended, until one is not accepted or not written. */
  function Filed(codec: Durable.Codec, f: Durable.File, ops: seq<SignedOp>, held: set<OpId>, accepts: Accepts,
                 fate: nat -> Durable.Fate, tick: nat): Durable.File
    decreases |ops|
  {
    if ops == [] || !accepts(tick, ops[0]) then f
    else if ops[0].id in held then Filed(codec, f, ops[1..], held + {ops[0].id}, accepts, fate, tick + 1)
    else
      var f' := Durable.Wrote(f, Durable.Frame(codec, ops[0]), fate(tick));
      if !Durable.Succeeds(f, fate(tick)) then f'
      else Filed(codec, f', ops[1..], held + {ops[0].id}, accepts, fate, tick + 1)
  }

  /** The same batch as the puller sees it. */
  function WorldOf(f: Durable.File, accepts: Accepts, fate: nat -> Durable.Fate, syncs: bool, replays: bool): Relay.RelayWorld {
    Relay.RelayWorld(true, accepts, (t: nat) => Durable.Succeeds(f, fate(t)), syncs, replays)
  }

  ghost predicate Records(f: Durable.File, fate: nat -> Durable.Fate, w: Relay.RelayWorld) {
    w.durable && forall t :: w.writes(t) == Durable.Succeeds(f, fate(t))
  }

  /** Accepted ops fit a frame and are of known devices. */
  ghost predicate Vetted(codec: Durable.Codec, known: set<DeviceId>, accepts: Accepts) {
    forall t, op | accepts(t, op) :: Durable.FitsFrame(codec, op) && op.device in known
  }

  ghost predicate OfDevices(ops: seq<SignedOp>, known: set<DeviceId>) {
    forall op | op in ops :: op.device in known
  }

  lemma IdsOfPrefix(a: seq<SignedOp>, b: seq<SignedOp>)
    requires a <= b
    ensures Ids(a) <= Ids(b)
  {
    forall id | id in Ids(a)
      ensures id in Ids(b)
    {
      var i :| 0 <= i < |a| && a[i].id == id;
      assert b[i].id == id;
    }
  }

  lemma IdsOfOneMore(ops: seq<SignedOp>, op: SignedOp)
    ensures Ids(ops + [op]) == Ids(ops) + {op.id}
  {
    IdsOfPrefix(ops, ops + [op]);
    assert (ops + [op])[|ops|] == op;
  }

  /** A sound open file in which everything held is stored, of known devices. */
  ghost predicate Holding(codec: Durable.Codec, f: Durable.File, held: set<OpId>, known: set<DeviceId>) {
    && Durable.Inv(codec, f) && f.open
    && held <= Ids(Durable.Stored(codec, f)) && OfDevices(Durable.Stored(codec, f), known)
  }

  /** One append keeps it, and a successful one adds its op. */
  lemma WriteIsHeld(codec: Durable.Codec, f: Durable.File, held: set<OpId>, known: set<DeviceId>, op: SignedOp, fate: Durable.Fate)
    requires codec.RoundTrips() && Holding(codec, f, held, known) && Durable.FitsFrame(codec, op) && op.device in known
    ensures var f' := Durable.Wrote(f, Durable.Frame(codec, op), fate);
            && Holding(codec, f', if Durable.Succeeds(f, fate) then held + {op.id} else held, known)
            && f'.safe == f.safe && f.bytes <= f'.bytes
            && (Durable.Succeeds(f, fate) ==> !f'.poisoned)
  {
    Durable.WriteKeepsInv(codec, f, op, fate);
    var f' := Durable.Next(codec, f, Durable.Write(op, fate));
    var ops := Durable.Stored(codec, f);
    IdsOfOneMore(ops, op);
    assert OfDevices(ops + [op], known);
    hide Durable.Inv;
    hide Durable.Stored;
    hide Durable.Wrote;
  }

  lemma {:induction false} BatchIsHeld(codec: Durable.Codec, f: Durable.File, ops: seq<SignedOp>, held: set<OpId>, known: set<DeviceId>,
                                       fate: nat -> Durable.Fate, w: Relay.RelayWorld, tick: nat)
    requires codec.RoundTrips() && Holding(codec, f, held, known) && Vetted(codec, known, w.accepts) && Records(f, fate, w)
    ensures var f' := Filed(codec, f, ops, held, w.accepts, fate, tick);
            && Holding(codec, f', held + FirstIds(ops, Relay.Taken(ops, held, w, tick)), known)
            && f'.safe == f.safe && f.bytes <= f'.bytes
    decreases |ops|
  {
    hide Holding;
    hide Durable.Wrote;
    hide Durable.Frame;
    FirstIdsNone(ops);
    assert held + {} == held;
    if ops != [] && w.accepts(tick, ops[0]) {
      var op, rest := ops[0], ops[1..];
      var more := held + {op.id};
      if op.id in held {
        assert more == held;
        BatchIsHeld(codec, f, rest, more, known, fate, w, tick + 1);
        var n := Relay.Taken(rest, more, w, tick + 1);
        FirstIdsCons(ops, n);
        assert held + FirstIds(ops, n + 1) == more + FirstIds(rest, n);
      } else {
        WriteIsHeld(codec, f, held, known, op, fate(tick));
        if Durable.Succeeds(f, fate(tick)) {
          var f1 := Durable.Wrote(f, Durable.Frame(codec, op), fate(tick));
          assert Records(f1, fate, w);
          BatchIsHeld(codec, f1, rest, more, known, fate, w, tick + 1);
          var n := Relay.Taken(rest, more, w, tick + 1);
          FirstIdsCons(ops, n);
          assert held + FirstIds(ops, n + 1) == more + FirstIds(rest, n);
        }
      }
    }
  }

  lemma FirstIdsCons(ops: seq<SignedOp>, n: nat)
    requires n < |ops|
    ensures FirstIds(ops, n + 1) == {ops[0].id} + FirstIds(ops[1..], n)
  {
    var rest := ops[1..];
    forall id | id in FirstIds(ops, n + 1)
      ensures id in {ops[0].id} + FirstIds(rest, n)
    {
      var i :| 0 <= i < n + 1 && ops[i].id == id;
      if i > 0 {
        assert rest[i - 1].id == id;
      }
    }
    forall id | id in FirstIds(rest, n)
      ensures id in FirstIds(ops, n + 1)
    {
      var i :| 0 <= i < n && rest[i].id == id;
      assert ops[i + 1].id == id;
    }
  }

  // ------------------------------------------------------------------ the node

  /** The link to one peer, the file, the device keys on disk, and every cursor that was
      ever saved for the peer. */
  datatype Node = Node(link: Relay.RelayLink, file: Durable.File, known: set<DeviceId>, saved: set<Cursor>)

  datatype Step =
    | Net(s: Relay.Step)                                       // the server, the exchange
    | Arrive(accepts: Accepts, fate: nat -> Durable.Fate, syncs: bool, replays: bool)
    | Elsewhere(op: SignedOp, fates: Durable.Fate)             // another link's pull
    | SyncElsewhere
    | Learn(d: DeviceId)                                       // a key is saved, then used
    | Save
    | Crash(n: nat, cursor: Cursor, bad: Option<nat>)          // and restart; a body may be unreadable

  ghost predicate Enabled(codec: Durable.Codec, nd: Node, step: Step) {
    match step
    case Net(s) => Relay.Enabled(nd.link, s) && !s.Arrive? && !s.Gain?
    case Arrive(accepts, _, _, _) => nd.link.flight.Replied? && Vetted(codec, nd.known, accepts)
    case Elsewhere(op, _) => Durable.FitsFrame(codec, op) && op.device in nd.known
    case Crash(n, cursor, _) => nd.file.safe <= n <= |nd.file.bytes| && cursor in nd.saved
    case _ => true
  }

  /** The entries of a reply that the puller folds in. */
  ghost function EntriesOf(p: Relay.Puller, limit: nat, reply: Relay.Reply): seq<SignedOp> {
    if reply.Response? && Relay.Acceptable(reply.wire, p.cursor, limit, false) && Relay.AllDecode(reply.wire.entries) && !reply.wire.reset
    then OpsOf(Relay.Decoded(reply.wire.entries))
    else []
  }

  function TroubleOf(bad: Option<nat>): Durable.Trouble {
    if bad.None? then Durable.Smooth else Durable.BadBody(bad.value)
  }

  /** The file after a crash and the restart that follows it. A restart that fails leaves the
      file to the next one. */
  function Restarted(codec: Durable.Codec, f: Durable.File, n: nat, bad: Option<nat>): Durable.File
    requires n <= |f.bytes|
  {
    Durable.Recovered(codec, f.(bytes := f.bytes[..n], open := false), TroubleOf(bad), true)
  }

  /** The ids in the log after a replay of the file into an empty one; an op of a device
      with no known key does not verify. */
  ghost function Reloaded(codec: Durable.Codec, f: Durable.File, known: set<DeviceId>): set<OpId> {
    Ids(Durable.Restored(Log(1, [], []), Durable.Stored(codec, f), (op: SignedOp) => op.device in known).arrivals)
  }

  ghost function Next(codec: Durable.Codec, nd: Node, step: Step): Node
    requires Enabled(codec, nd, step)
  {
    match step
    case Net(s) => nd.(link := Relay.Next(nd.link, s))
    case Arrive(accepts, fate, syncs, replays) =>
      var l := nd.link;
      var l' := Relay.Next(l, Relay.Arrive(WorldOf(nd.file, accepts, fate, syncs, replays)));
      var ops := EntriesOf(l.p, l.flight.limit, l.flight.reply);
      var f := Filed(codec, nd.file, ops, l.p.held, accepts, fate, 0);
      var n := Relay.Taken(ops, l.p.held, WorldOf(nd.file, accepts, fate, syncs, replays), 0);
      nd.(link := l', file := if n > 0 && syncs then f.(safe := |f.bytes|) else f)
    case Elsewhere(op, fates) =>
      if op.id in nd.link.p.held then nd
      else nd.(file := Durable.Wrote(nd.file, Durable.Frame(codec, op), fates),
               link := if Durable.Succeeds(nd.file, fates) then nd.link.(p := nd.link.p.(held := nd.link.p.held + {op.id})) else nd.link)
    case SyncElsewhere => nd.(file := nd.file.(safe := |nd.file.bytes|))
    case Learn(d) => nd.(known := nd.known + {d})
    case Save => nd.(saved := nd.saved + {nd.link.p.cursor})
    case Crash(n, cursor, bad) =>
      var f := Restarted(codec, nd.file, n, bad);
      nd.(file := f, link := nd.link.(p := Relay.Puller(Reloaded(codec, f, nd.known), cursor), flight := Relay.Idle))
  }

  // ---------------------------------------------------------------- invariants

  /** The ids every later replay reads back. */
  ghost function OnDisk(codec: Durable.Codec, f: Durable.File): set<OpId> {
    Ids(Durable.Kept(codec, f))
  }

  /** The link as it would be had the puller only what is on the disk. */
  ghost function Shadow(l: Relay.RelayLink, disk: set<OpId>): Relay.RelayLink {
    l.(p := l.p.(held := disk))
  }

  /** A cursor that may be restarted from, with `disk` held. */
  ghost predicate Restartable(l: Relay.RelayLink, disk: set<OpId>, c: Cursor) {
    && (c.epoch == 0 ==> c.after == 0)
    && (c.epoch != 0 ==> c.epoch in l.used)
    && Relay.HeldUpTo(l.log, Relay.Puller(disk, c))
  }

  ghost predicate SavedInv(l: Relay.RelayLink, disk: set<OpId>, saved: set<Cursor>) {
    forall c | c in saved :: Restartable(l, disk, c)
  }

  ghost predicate Inv(codec: Durable.Codec, nd: Node) {
    && Relay.Inv(nd.link) && Holding(codec, nd.file, nd.link.p.held, nd.known)
    && Relay.Inv(Shadow(nd.link, OnDisk(codec, nd.file)))
    && SavedInv(nd.link, OnDisk(codec, nd.file), nd.saved)
  }

  lemma RestartableWithMore(l: Relay.RelayLink, disk: set<OpId>, more: set<OpId>, c: Cursor)
    requires Restartable(l, disk, c) && disk <= more
    ensures Restartable(l, more, c)
  {
  }

  lemma ShadowWithMore(l: Relay.RelayLink, disk: set<OpId>, more: set<OpId>)
    requires Relay.Inv(Shadow(l, disk)) && disk <= more
    ensures Relay.Inv(Shadow(l, more))
  {
    hide Relay.Wired;
  }

  /** More on the disk keeps all of it. */
  lemma MoreOnDisk(l: Relay.RelayLink, disk: set<OpId>, more: set<OpId>, saved: set<Cursor>)
    requires Relay.Inv(Shadow(l, disk)) && SavedInv(l, disk, saved) && disk <= more
    ensures Relay.Inv(Shadow(l, more)) && SavedInv(l, more, saved)
  {
    hide Restartable;
    ShadowWithMore(l, disk, more);
    forall c | c in saved
      ensures Restartable(l, more, c)
    {
      RestartableWithMore(l, disk, more, c);
    }
  }

  /** The file keeps what is on the disk when it grows. */
  lemma OnDiskStays(codec: Durable.Codec, f: Durable.File, f': Durable.File)
    requires f.safe <= |f.bytes| && f'.safe == f.safe && f.bytes <= f'.bytes
    ensures OnDisk(codec, f') == OnDisk(codec, f)
  {
    assert f'.bytes[..f.safe] == f.bytes[..f.safe];
  }

  lemma SyncPutsOnDisk(codec: Durable.Codec, f: Durable.File, held: set<OpId>, known: set<DeviceId>)
    requires codec.RoundTrips() && Holding(codec, f, held, known)
    ensures var f' := f.(safe := |f.bytes|);
            Holding(codec, f', held, known) && OnDisk(codec, f) <= OnDisk(codec, f') && held <= OnDisk(codec, f')
  {
    Durable.SyncKeepsInv(codec, f, true);
    Durable.InvIsTidy(codec, f);
    hide Durable.Inv;
    var f' := f.(safe := |f.bytes|);
    assert f'.bytes == f.bytes;
    IdsOfPrefix(Durable.Kept(codec, f), Durable.Kept(codec, f'));
  }

  // --------------------------------------------------------------------- steps

  lemma NetKeepsSaved(l: Relay.RelayLink, disk: set<OpId>, saved: set<Cursor>, s: Relay.Step)
    requires Relay.Inv(l) && SavedInv(l, disk, saved) && Relay.Enabled(l, s) && !s.Arrive? && !s.Gain?
    ensures SavedInv(Relay.Next(l, s), disk, saved)
  {
    hide Relay.Answer;
    hide RelayRows;
    match s
    case Append(op) => AppendedKeepsValid(l.log, op);
    case _ =>
  }

  lemma NetCommutes(l: Relay.RelayLink, disk: set<OpId>, s: Relay.Step)
    requires Relay.Enabled(l, s) && !s.Arrive? && !s.Gain?
    ensures Relay.Enabled(Shadow(l, disk), s) && Relay.Next(Shadow(l, disk), s) == Shadow(Relay.Next(l, s), disk)
    ensures Relay.Next(l, s).p == l.p
  {
    hide Relay.Answer;
    hide RelayRows;
    hide Appended;
  }

  lemma NetKeepsInv(codec: Durable.Codec, nd: Node, s: Relay.Step)
    requires Inv(codec, nd) && Enabled(codec, nd, Net(s))
    ensures Inv(codec, Next(codec, nd, Net(s)))
  {
    hide Relay.Inv;
    hide SavedInv;
    hide Holding;
    hide OnDisk;
    var disk := OnDisk(codec, nd.file);
    Relay.StepKeepsInv(nd.link, s);
    NetCommutes(nd.link, disk, s);
    Relay.StepKeepsInv(Shadow(nd.link, disk), s);
    NetKeepsSaved(nd.link, disk, nd.saved, s);
    hide Relay.Next;
  }

  /** The puller's cursor after a reply: where it was, or at nothing, or past entries that
      were taken and synced. */
  lemma ArriveMoves(l: Relay.RelayLink, w: Relay.RelayWorld)
    requires Relay.Inv(l) && l.flight.Replied? && w.durable
    ensures var l' := Relay.Next(l, Relay.Arrive(w));
            var ops := EntriesOf(l.p, l.flight.limit, l.flight.reply);
            var n := Relay.Taken(ops, l.p.held, w, 0);
            && l'.p.held == l.p.held + FirstIds(ops, n)
            && (l'.p.cursor == l.p.cursor || l'.p.cursor.after == 0 || (n > 0 && w.syncs))
            && l'.flight.Idle? && l'.log == l.log && l'.used == l.used
  {
    hide Relay.Acceptable;
    hide RelayRows;
    hide Relay.Taken;
    var reply := l.flight.reply;
    FirstIdsNone(EntriesOf(l.p, l.flight.limit, reply));
    if EntriesOf(l.p, l.flight.limit, reply) == [] {
      assert l.p.held + {} == l.p.held;
    }
  }

  lemma ArriveKeepsShadow(l: Relay.RelayLink, l': Relay.RelayLink, disk: set<OpId>, disk': set<OpId>, saved: set<Cursor>)
    requires Relay.Inv(Shadow(l, disk)) && SavedInv(l, disk, saved) && Relay.Inv(l') && disk <= disk'
    requires l'.flight.Idle? && l'.log == l.log && l'.used == l.used
    requires l'.p.cursor == l.p.cursor || l'.p.cursor.after == 0 || l'.p.held <= disk'
    ensures Relay.Inv(Shadow(l', disk')) && SavedInv(l', disk', saved)
  {
    forall c | c in saved
      ensures Restartable(l', disk', c)
    {
      assert Restartable(l, disk, c);
    }
  }

  lemma ArriveKeepsInv(codec: Durable.Codec, nd: Node, step: Step)
    requires codec.RoundTrips() && Inv(codec, nd) && step.Arrive? && Enabled(codec, nd, step)
    ensures Inv(codec, Next(codec, nd, step))
  {
    hide Relay.Inv;
    hide SavedInv;
    hide Holding;
    hide OnDisk;
    hide Filed;
    hide Relay.Taken;
    hide EntriesOf;
    hide FirstIds;
    var l, w := nd.link, WorldOf(nd.file, step.accepts, step.fate, step.syncs, step.replays);
    var ops := EntriesOf(l.p, l.flight.limit, l.flight.reply);
    var n := Relay.Taken(ops, l.p.held, w, 0);
    var f := Filed(codec, nd.file, ops, l.p.held, step.accepts, step.fate, 0);
    var l' := Relay.Next(l, Relay.Arrive(w));
    ArriveMoves(l, w);
    Relay.StepKeepsInv(l, Relay.Arrive(w));
    hide Relay.Next;
    BatchIsHeld(codec, nd.file, ops, l.p.held, nd.known, step.fate, w, 0);
    HoldingIsSafe(codec, nd.file, l.p.held, nd.known);
    OnDiskStays(codec, nd.file, f);
    SyncPutsOnDisk(codec, f, l'.p.held, nd.known);
    var f' := if n > 0 && step.syncs then f.(safe := |f.bytes|) else f;
    ArriveKeepsShadow(l, l', OnDisk(codec, nd.file), OnDisk(codec, f'), nd.saved);
  }

  lemma HoldingIsSafe(codec: Durable.Codec, f: Durable.File, held: set<OpId>, known: set<DeviceId>)
    requires Holding(codec, f, held, known)
    ensures f.safe <= |f.bytes|
  {
  }

  lemma HeldWithMore(l: Relay.RelayLink, ids: set<OpId>)
    requires Relay.Inv(l)
    ensures Relay.Inv(l.(p := l.p.(held := l.p.held + ids)))
  {
    hide Relay.Wired;
  }

  lemma ElsewhereKeepsInv(codec: Durable.Codec, nd: Node, step: Step)
    requires codec.RoundTrips() && Inv(codec, nd) && step.Elsewhere? && Enabled(codec, nd, step)
    ensures Inv(codec, Next(codec, nd, step))
  {
    HeldWithMore(nd.link, {step.op.id});
    hide Relay.Inv;
    hide Holding;
    hide OnDisk;
    WriteIsHeld(codec, nd.file, nd.link.p.held, nd.known, step.op, step.fates);
    HoldingIsSafe(codec, nd.file, nd.link.p.held, nd.known);
    OnDiskStays(codec, nd.file, Next(codec, nd, step).file);
  }

  lemma SyncKeepsInv(codec: Durable.Codec, nd: Node)
    requires codec.RoundTrips() && Inv(codec, nd)
    ensures Inv(codec, Next(codec, nd, SyncElsewhere))
  {
    hide Relay.Inv;
    hide SavedInv;
    hide Holding;
    hide OnDisk;
    SyncPutsOnDisk(codec, nd.file, nd.link.p.held, nd.known);
    MoreOnDisk(nd.link, OnDisk(codec, nd.file), OnDisk(codec, nd.file.(safe := |nd.file.bytes|)), nd.saved);
  }

  lemma SaveKeepsInv(codec: Durable.Codec, nd: Node)
    requires Inv(codec, nd)
    ensures Inv(codec, Next(codec, nd, Save))
  {
    hide Holding;
    hide OnDisk;
    assert Restartable(nd.link, OnDisk(codec, nd.file), nd.link.p.cursor);
  }

  lemma LearnKeepsInv(codec: Durable.Codec, nd: Node, d: DeviceId)
    requires Inv(codec, nd)
    ensures Inv(codec, Next(codec, nd, Learn(d)))
  {
    hide Relay.Inv;
    hide SavedInv;
  }

  /** A restart finds the frames before the one it cannot read. */
  lemma RestartReads(codec: Durable.Codec, f: Durable.File, n: nat, bad: Option<nat>)
    requires codec.RoundTrips() && Durable.Inv(codec, f) && f.safe <= n <= |f.bytes|
    ensures var f', kept := Restarted(codec, f, n, bad), Durable.Kept(codec, f);
            && Durable.Inv(codec, f') && f'.open && Durable.Kept(codec, f') <= Durable.Stored(codec, f') <= Durable.Stored(codec, f)
            && (if bad.Some? && bad.value < |kept| then Durable.Stored(codec, f') == Durable.Kept(codec, f') == kept[..bad.value]
                else kept <= Durable.Kept(codec, f'))
  {
    hide Durable.Inv;
    hide Durable.Stored;
    hide Durable.Kept;
    hide Durable.Clean;
    hide Durable.ReplayFails;
    hide Durable.Recovered;
    hide Durable.Cut;
    var crashed, t := f.(bytes := f.bytes[..n], open := false), TroubleOf(bad);
    Durable.CrashKeepsInv(codec, f, n);
    assert Durable.Next(codec, f, Durable.Crash(n)) == crashed;
    NeverFails(codec, crashed.bytes, bad);
    Durable.RecoverExactly(codec, crashed, t, true);
    Durable.CutKeeps(codec, crashed, t);
    CutIsRecovered(codec, crashed, t);
    Durable.KeptIsStored(codec, Restarted(codec, f, n, bad));
  }

  lemma RestartKeepsFile(codec: Durable.Codec, f: Durable.File, held: set<OpId>, known: set<DeviceId>, n: nat, bad: Option<nat>)
    requires codec.RoundTrips() && Holding(codec, f, held, known) && f.safe <= n <= |f.bytes|
    ensures var f' := Restarted(codec, f, n, bad);
            var kept, back := Durable.Kept(codec, f), Reloaded(codec, f', known);
            && Holding(codec, f', back, known) && OnDisk(codec, f') <= back
            && (if bad.Some? && bad.value < |kept| then back == OnDisk(codec, f') == Ids(kept[..bad.value]) else OnDisk(codec, f) <= OnDisk(codec, f'))
  {
    hide Restarted;
    hide Durable.Inv;
    hide Durable.Stored;
    hide Durable.Kept;
    RestartReads(codec, f, n, bad);
    var f' := Restarted(codec, f, n, bad);
    IdsOfPrefix(Durable.Kept(codec, f'), Durable.Stored(codec, f'));
    ReloadsAll(codec, f', known);
    if !(bad.Some? && bad.value < |Durable.Kept(codec, f)|) {
      IdsOfPrefix(Durable.Kept(codec, f), Durable.Kept(codec, f'));
    }
  }

  lemma NeverFails(codec: Durable.Codec, bytes: Durable.Bytes, bad: Option<nat>)
    ensures !Durable.ReplayFails(codec, bytes, TroubleOf(bad), true)
  {
  }

  lemma CutIsRecovered(codec: Durable.Codec, f: Durable.File, t: Durable.Trouble)
    requires !Durable.ReplayFails(codec, f.bytes, t, true)
    ensures var f', cut := Durable.Recovered(codec, f, t, true), Durable.Cut(codec, f, t);
            f'.open && Durable.Kept(codec, f') == Durable.Kept(codec, cut) && Durable.Stored(codec, f') == Durable.Stored(codec, cut)
  {
  }

  lemma ReloadsAll(codec: Durable.Codec, f: Durable.File, known: set<DeviceId>)
    requires OfDevices(Durable.Stored(codec, f), known)
    ensures Reloaded(codec, f, known) == Ids(Durable.Stored(codec, f))
  {
    hide Durable.Stored;
    hide Durable.Restored;
    var ops := Durable.Stored(codec, f);
    var verifies := (op: SignedOp) => op.device in known;
    Durable.RestoredHolds(Log(1, [], []), ops, verifies);
    forall id
      ensures id in Reloaded(codec, f, known) <==> id in Ids(ops)
    {
      assert forall i | 0 <= i < |ops| :: ops[i] in ops;
      assert id in Reloaded(codec, f, known) <==> exists i :: 0 <= i < |ops| && ops[i].id == id && verifies(ops[i]);
    }
  }

  /** `disk` has every arrival up to a saved cursor of the stream. */
  ghost predicate CoversSaved(l: Relay.RelayLink, disk: set<OpId>, saved: set<Cursor>) {
    forall c, i | c in saved && c.epoch == l.log.epoch && 0 <= i < c.after ::
      i < |l.log.arrivals| && l.log.arrivals[i].id in disk
  }

  /** Every such arrival is in a frame before the one the restart cannot read. */
  ghost predicate Spares(codec: Durable.Codec, nd: Node, bad: Option<nat>) {
    var kept := Durable.Kept(codec, nd.file);
    bad.Some? && bad.value < |kept| ==> CoversSaved(nd.link, Ids(kept[..bad.value]), nd.saved)
  }

  /** Nothing is lost to a restart that can read every synced frame. */
  lemma ReadableSpares(codec: Durable.Codec, nd: Node, bad: Option<nat>)
    requires bad.None? || |Durable.Kept(codec, nd.file)| <= bad.value
    ensures Spares(codec, nd, bad)
  {
  }

  lemma SavedExactly(l: Relay.RelayLink, disk: set<OpId>, disk': set<OpId>, saved: set<Cursor>)
    requires SavedInv(l, disk, saved)
    ensures SavedInv(l, disk', saved) <==> CoversSaved(l, disk', saved)
  {
    if SavedInv(l, disk', saved) {
      forall c, i | c in saved && c.epoch == l.log.epoch && 0 <= i < c.after
        ensures i < |l.log.arrivals| && l.log.arrivals[i].id in disk'
      {
        assert Restartable(l, disk', c);
      }
    }
    if CoversSaved(l, disk', saved) {
      forall c | c in saved
        ensures Restartable(l, disk', c)
      {
        assert Restartable(l, disk, c);
      }
    }
  }

  /** The saved cursors survive a restart if and only if it spares what they cover. */
  lemma RestartKeepsSavedExactly(codec: Durable.Codec, nd: Node, n: nat, bad: Option<nat>)
    requires codec.RoundTrips() && Inv(codec, nd) && nd.file.safe <= n <= |nd.file.bytes|
    ensures SavedInv(nd.link, OnDisk(codec, Restarted(codec, nd.file, n, bad)), nd.saved) <==> Spares(codec, nd, bad)
  {
    hide Relay.Inv;
    hide Holding;
    hide Restarted;
    hide SavedInv;
    hide Durable.Kept;
    RestartKeepsFile(codec, nd.file, nd.link.p.held, nd.known, n, bad);
    var disk, disk' := OnDisk(codec, nd.file), OnDisk(codec, Restarted(codec, nd.file, n, bad));
    if bad.Some? && bad.value < |Durable.Kept(codec, nd.file)| {
      SavedExactly(nd.link, disk, disk', nd.saved);
    } else {
      MoreOnDisk(nd.link, disk, disk', nd.saved);
    }
  }

  lemma RestartKeepsLink(l: Relay.RelayLink, disk: set<OpId>, held: set<OpId>, saved: set<Cursor>, c: Cursor)
    requires Relay.Inv(l) && SavedInv(l, disk, saved) && c in saved && disk <= held
    ensures var l' := l.(p := Relay.Puller(held, c), flight := Relay.Idle);
            Relay.Inv(l') && Relay.Inv(Shadow(l', disk)) && SavedInv(l', disk, saved)
  {
    assert Restartable(l, disk, c);
    forall b | b in saved
      ensures Restartable(l.(p := Relay.Puller(held, c), flight := Relay.Idle), disk, b)
    {
      assert Restartable(l, disk, b);
    }
  }

  lemma SavedElsewhere(l: Relay.RelayLink, l': Relay.RelayLink, disk: set<OpId>, saved: set<Cursor>)
    requires l'.log == l.log && l'.used == l.used
    ensures SavedInv(l', disk, saved) <==> SavedInv(l, disk, saved)
  {
    forall c
      ensures Restartable(l', disk, c) <==> Restartable(l, disk, c)
    {
    }
    hide Restartable;
  }

  lemma CrashExactly(codec: Durable.Codec, nd: Node, step: Step)
    requires codec.RoundTrips() && Inv(codec, nd) && step.Crash? && Enabled(codec, nd, step)
    ensures Inv(codec, Next(codec, nd, step)) <==> Spares(codec, nd, step.bad)
    ensures SavedInv(Next(codec, nd, step).link, OnDisk(codec, Next(codec, nd, step).file), nd.saved) <==> Spares(codec, nd, step.bad)
  {
    hide Relay.Inv;
    hide SavedInv;
    hide Holding;
    hide OnDisk;
    hide Restarted;
    hide Reloaded;
    hide Spares;
    RestartKeepsFile(codec, nd.file, nd.link.p.held, nd.known, step.n, step.bad);
    RestartKeepsSavedExactly(codec, nd, step.n, step.bad);
    var nd' := Next(codec, nd, step);
    SavedElsewhere(nd.link, nd'.link, OnDisk(codec, nd'.file), nd.saved);
    if Spares(codec, nd, step.bad) {
      RestartKeepsLink(nd.link, OnDisk(codec, nd'.file), nd'.link.p.held, nd.saved, step.cursor);
    }
  }

  /** A restart that cannot read the first body goes on from a saved cursor with nothing. */
  lemma BadBodyLosesSaved(codec: Durable.Codec, nd: Node, n: nat, c: Cursor)
    requires codec.RoundTrips() && Inv(codec, nd) && Enabled(codec, nd, Crash(n, c, Some(0)))
    requires c.epoch == nd.link.log.epoch && c.after > 0 && Durable.Kept(codec, nd.file) != []
    ensures var nd' := Next(codec, nd, Crash(n, c, Some(0)));
            nd'.link.p.held == {} && nd'.link.p.cursor == c && !Relay.HeldUpTo(nd'.link.log, nd'.link.p)
  {
    hide Relay.Inv;
    hide Holding;
    hide Restarted;
    hide Durable.Kept;
    hide Reloaded;
    RestartKeepsFile(codec, nd.file, nd.link.p.held, nd.known, n, Some(0));
    assert Ids(Durable.Kept(codec, nd.file)[..0]) == {};
    var nd' := Next(codec, nd, Crash(n, c, Some(0)));
    assert nd'.link.p.held == {};
    assert nd'.link.log.arrivals[..c.after][0].id !in nd'.link.p.held || c.after > |nd'.link.log.arrivals|;
  }

  /** Every step but a restart that loses what a saved cursor covers. */
  ghost predicate Careful(codec: Durable.Codec, nd: Node, step: Step) {
    step.Crash? ==> Spares(codec, nd, step.bad)
  }

  lemma StepExactly(codec: Durable.Codec, nd: Node, step: Step)
    requires codec.RoundTrips() && Inv(codec, nd) && Enabled(codec, nd, step)
    ensures Inv(codec, Next(codec, nd, step)) <==> Careful(codec, nd, step)
    ensures SavedInv(Next(codec, nd, step).link, OnDisk(codec, Next(codec, nd, step).file), Next(codec, nd, step).saved) <==> Careful(codec, nd, step)
  {
    hide Inv;
    hide Next;
    hide SavedInv;
    hide Spares;
    if step.Crash? {
      CrashExactly(codec, nd, step);
      SavedStays(codec, nd, step);
    } else {
      OtherStepKeepsInv(codec, nd, step);
      InvHasSaved(codec, Next(codec, nd, step));
    }
  }

  lemma OtherStepKeepsInv(codec: Durable.Codec, nd: Node, step: Step)
    requires codec.RoundTrips() && Inv(codec, nd) && Enabled(codec, nd, step) && !step.Crash?
    ensures Inv(codec, Next(codec, nd, step))
  {
    hide Inv;
    hide Next;
    match step
    case Net(s) => NetKeepsInv(codec, nd, s);
    case Arrive(_, _, _, _) => ArriveKeepsInv(codec, nd, step);
    case Elsewhere(_, _) => ElsewhereKeepsInv(codec, nd, step);
    case SyncElsewhere => SyncKeepsInv(codec, nd);
    case Learn(d) => LearnKeepsInv(codec, nd, d);
    case Save => SaveKeepsInv(codec, nd);
  }

  lemma SavedStays(codec: Durable.Codec, nd: Node, step: Step)
    requires Enabled(codec, nd, step) && step.Crash?
    ensures Next(codec, nd, step).saved == nd.saved
  {
  }

  lemma InvHasSaved(codec: Durable.Codec, nd: Node)
    requires Inv(codec, nd)
    ensures SavedInv(nd.link, OnDisk(codec, nd.file), nd.saved)
  {
  }

  // ------------------------------------------------------------------ all runs

  /** A first start: no file, no keys but the node's own, no cursor. */
  ghost predicate Start(nd: Node) {
    && Relay.Start(nd.link) && nd.link.p.held == {}
    && nd.file == Durable.File([], 0, 0, false, true) && nd.saved == {Cursor(0, 0)}
  }

  ghost predicate IsRun(codec: Durable.Codec, run: seq<Node>, steps: seq<Step>) {
    && |run| == |steps| + 1 && Start(run[0])
    && forall i | 0 <= i < |steps| :: Enabled(codec, run[i], steps[i]) && run[i + 1] == Next(codec, run[i], steps[i])
  }

  ghost predicate CarefulUpTo(codec: Durable.Codec, run: seq<Node>, steps: seq<Step>, n: nat)
    requires n <= |run| && n <= |steps|
  {
    forall i | 0 <= i < n :: Careful(codec, run[i], steps[i])
  }

  lemma StartHasInv(codec: Durable.Codec, nd: Node)
    requires codec.RoundTrips() && Start(nd)
    ensures Inv(codec, nd)
  {
    Durable.EmptyIsClean(codec);
    assert Durable.Stored(codec, nd.file) == [];
  }

  lemma {:induction false} EveryRunKeepsInv(codec: Durable.Codec, run: seq<Node>, steps: seq<Step>, n: nat)
    requires codec.RoundTrips() && IsRun(codec, run, steps) && n < |run| && CarefulUpTo(codec, run, steps, n)
    ensures Inv(codec, run[n])
  {
    hide Inv;
    hide Careful;
    if n == 0 {
      StartHasInv(codec, run[0]);
    } else {
      EveryRunKeepsInv(codec, run, steps, n - 1);
      StepExactly(codec, run[n - 1], steps[n - 1]);
      assert run[n - 1 + 1] == Next(codec, run[n - 1], steps[n - 1]);
    }
  }

  /** Across crashes at any point, the puller holds every arrival of its cursor's stream up
      to the cursor, as long as no restart loses what a saved cursor covers. */
  lemma CrashesHoldUpTo(codec: Durable.Codec, run: seq<Node>, steps: seq<Step>, n: nat)
    requires codec.RoundTrips() && IsRun(codec, run, steps) && n < |run| && CarefulUpTo(codec, run, steps, n)
    ensures Relay.HeldUpTo(run[n].link.log, run[n].link.p)
  {
    hide IsRun;
    EveryRunKeepsInv(codec, run, steps, n);
  }

  /** Every arrival up to any cursor that was ever saved is on the disk. */
  ghost predicate SavedIsKept(codec: Durable.Codec, nd: Node) {
    forall c | c in nd.saved :: Relay.HeldUpTo(nd.link.log, Relay.Puller(Ids(Durable.Kept(codec, nd.file)), c))
  }

  lemma SavedInvIsKept(codec: Durable.Codec, nd: Node)
    ensures SavedInv(nd.link, OnDisk(codec, nd.file), nd.saved) ==> SavedIsKept(codec, nd)
  {
    if SavedInv(nd.link, OnDisk(codec, nd.file), nd.saved) {
      forall c | c in nd.saved
        ensures Relay.HeldUpTo(nd.link.log, Relay.Puller(Ids(Durable.Kept(codec, nd.file)), c))
      {
        assert Restartable(nd.link, OnDisk(codec, nd.file), c);
      }
    }
  }

  /** A restart leaves cursors and stream as they were. */
  lemma KeptIsSavedInv(codec: Durable.Codec, nd: Node, nd': Node)
    requires Inv(codec, nd) && nd'.link.log == nd.link.log && nd'.link.used == nd.link.used && nd'.saved == nd.saved
    requires SavedIsKept(codec, nd')
    ensures SavedInv(nd'.link, OnDisk(codec, nd'.file), nd'.saved)
  {
    hide Relay.HeldUpTo;
    hide Relay.Inv;
    hide Holding;
    forall c | c in nd'.saved
      ensures Restartable(nd'.link, OnDisk(codec, nd'.file), c)
    {
      assert Restartable(nd.link, OnDisk(codec, nd.file), c);
    }
  }

  lemma CarelessIsSeen(codec: Durable.Codec, nd: Node, step: Step)
    requires codec.RoundTrips() && Inv(codec, nd) && Enabled(codec, nd, step) && !Careful(codec, nd, step)
    ensures !SavedIsKept(codec, Next(codec, nd, step))
  {
    hide Inv;
    hide SavedIsKept;
    hide SavedInv;
    hide Spares;
    StepExactly(codec, nd, step);
    var nd' := Next(codec, nd, step);
    if SavedIsKept(codec, nd') {
      KeptIsSavedInv(codec, nd, nd');
    }
  }

  lemma {:induction false} KeptIsCareful(codec: Durable.Codec, run: seq<Node>, steps: seq<Step>, n: nat)
    requires codec.RoundTrips() && IsRun(codec, run, steps) && n < |run| && forall i | 0 <= i <= n :: SavedIsKept(codec, run[i])
    ensures CarefulUpTo(codec, run, steps, n)
  {
    hide Inv;
    hide Careful;
    hide SavedIsKept;
    if n > 0 {
      KeptIsCareful(codec, run, steps, n - 1);
      EveryRunKeepsInv(codec, run, steps, n - 1);
      assert run[n - 1 + 1] == Next(codec, run[n - 1], steps[n - 1]);
      if !Careful(codec, run[n - 1], steps[n - 1]) {
        CarelessIsSeen(codec, run[n - 1], steps[n - 1]);
      }
    }
  }

  /** At every point of a run every arrival up to any saved cursor is on the disk, where the
      next replay finds it, if and only if no restart met a body it could not read at or
      before the frame of such an arrival. */
  lemma SavedCursorIsKeptExactly(codec: Durable.Codec, run: seq<Node>, steps: seq<Step>)
    requires codec.RoundTrips() && IsRun(codec, run, steps)
    ensures (forall i | 0 <= i < |run| :: SavedIsKept(codec, run[i])) <==> CarefulUpTo(codec, run, steps, |steps|)
  {
    hide Inv;
    hide Careful;
    hide SavedIsKept;
    hide SavedInv;
    if CarefulUpTo(codec, run, steps, |steps|) {
      forall i | 0 <= i < |run|
        ensures SavedIsKept(codec, run[i])
      {
        EveryRunKeepsInv(codec, run, steps, i);
        InvHasSaved(codec, run[i]);
        SavedInvIsKept(codec, run[i]);
      }
    }
    if forall i | 0 <= i < |run| :: SavedIsKept(codec, run[i]) {
      KeptIsCareful(codec, run, steps, |steps|);
    }
  }

  // ----------------------------------------------------- the file mirrors the log

  /** The file holds each op once, and exactly the ops of the log; after a write that went
      wrong and could not be taken back, it may end with one op more. */
  ghost predicate Mirrors(codec: Durable.Codec, f: Durable.File, held: set<OpId>) {
    var ops := Durable.Stored(codec, f);
    && DistinctIds(ops)
    && (held == Ids(ops) || (f.poisoned && ops != [] && held == Ids(ops[..|ops| - 1])))
  }

  lemma WriteMirrors(codec: Durable.Codec, f: Durable.File, held: set<OpId>, known: set<DeviceId>, op: SignedOp, fate: Durable.Fate)
    requires codec.RoundTrips() && Holding(codec, f, held, known) && Mirrors(codec, f, held)
    requires Durable.FitsFrame(codec, op) && op.id !in held
    ensures Mirrors(codec, Durable.Wrote(f, Durable.Frame(codec, op), fate), if Durable.Succeeds(f, fate) then held + {op.id} else held)
  {
    Durable.WriteKeepsInv(codec, f, op, fate);
    var ops := Durable.Stored(codec, f);
    hide Durable.Inv;
    hide Durable.Stored;
    hide Durable.Frame;
    if !f.poisoned {
      IdsOfOneMore(ops, op);
      assert forall i | 0 <= i < |ops| :: ops[i].id in Ids(ops);
      assert (ops + [op])[..|ops + [op]| - 1] == ops;
      hide Durable.Wrote;
    }
  }

  lemma {:induction false} BatchMirrors(codec: Durable.Codec, f: Durable.File, ops: seq<SignedOp>, held: set<OpId>, known: set<DeviceId>,
                                        fate: nat -> Durable.Fate, w: Relay.RelayWorld, tick: nat)
    requires codec.RoundTrips() && Holding(codec, f, held, known) && Mirrors(codec, f, held)
    requires Vetted(codec, known, w.accepts) && Records(f, fate, w)
    ensures Mirrors(codec, Filed(codec, f, ops, held, w.accepts, fate, tick), held + FirstIds(ops, Relay.Taken(ops, held, w, tick)))
    decreases |ops|
  {
    hide Holding;
    hide Mirrors;
    hide Durable.Wrote;
    hide Durable.Frame;
    FirstIdsNone(ops);
    assert held + {} == held;
    if ops != [] && w.accepts(tick, ops[0]) {
      var op, rest := ops[0], ops[1..];
      var more := held + {op.id};
      if op.id in held {
        assert more == held;
        BatchMirrors(codec, f, rest, more, known, fate, w, tick + 1);
        var n := Relay.Taken(rest, more, w, tick + 1);
        FirstIdsCons(ops, n);
        assert held + FirstIds(ops, n + 1) == more + FirstIds(rest, n);
      } else {
        WriteIsHeld(codec, f, held, known, op, fate(tick));
        WriteMirrors(codec, f, held, known, op, fate(tick));
        if Durable.Succeeds(f, fate(tick)) {
          var f1 := Durable.Wrote(f, Durable.Frame(codec, op), fate(tick));
          assert Records(f1, fate, w);
          BatchMirrors(codec, f1, rest, more, known, fate, w, tick + 1);
          var n := Relay.Taken(rest, more, w, tick + 1);
          FirstIdsCons(ops, n);
          assert held + FirstIds(ops, n + 1) == more + FirstIds(rest, n);
        }
      }
    }
  }

  /** A sound file that mirrors the log. */
  ghost predicate MirrorInv(codec: Durable.Codec, nd: Node) {
    Holding(codec, nd.file, nd.link.p.held, nd.known) && Mirrors(codec, nd.file, nd.link.p.held)
  }

  lemma ArriveHolds(l: Relay.RelayLink, w: Relay.RelayWorld)
    requires l.flight.Replied?
    ensures var ops := EntriesOf(l.p, l.flight.limit, l.flight.reply);
            Relay.Next(l, Relay.Arrive(w)).p.held == l.p.held + FirstIds(ops, Relay.Taken(ops, l.p.held, w, 0))
  {
    hide Relay.Acceptable;
    hide Relay.Taken;
    var ops := EntriesOf(l.p, l.flight.limit, l.flight.reply);
    FirstIdsNone(ops);
    assert l.p.held + {} == l.p.held;
  }

  lemma SyncMirrors(codec: Durable.Codec, f: Durable.File, held: set<OpId>)
    requires Mirrors(codec, f, held)
    ensures Mirrors(codec, f.(safe := |f.bytes|), held)
  {
    assert f.(safe := |f.bytes|).bytes == f.bytes;
  }

  lemma ArriveKeepsMirror(codec: Durable.Codec, nd: Node, step: Step)
    requires codec.RoundTrips() && MirrorInv(codec, nd) && step.Arrive? && Enabled(codec, nd, step)
    ensures MirrorInv(codec, Next(codec, nd, step))
  {
    hide Holding;
    hide Mirrors;
    hide Filed;
    hide Relay.Taken;
    hide Relay.Next;
    hide EntriesOf;
    hide FirstIds;
    var l, w := nd.link, WorldOf(nd.file, step.accepts, step.fate, step.syncs, step.replays);
    var ops := EntriesOf(l.p, l.flight.limit, l.flight.reply);
    var f := Filed(codec, nd.file, ops, l.p.held, step.accepts, step.fate, 0);
    ArriveHolds(l, w);
    var held := Relay.Next(l, Relay.Arrive(w)).p.held;
    BatchIsHeld(codec, nd.file, ops, l.p.held, nd.known, step.fate, w, 0);
    BatchMirrors(codec, nd.file, ops, l.p.held, nd.known, step.fate, w, 0);
    SyncPutsOnDisk(codec, f, held, nd.known);
    SyncMirrors(codec, f, held);
  }

  lemma ElsewhereKeepsMirror(codec: Durable.Codec, nd: Node, step: Step)
    requires codec.RoundTrips() && MirrorInv(codec, nd) && step.Elsewhere? && Enabled(codec, nd, step)
    ensures MirrorInv(codec, Next(codec, nd, step))
  {
    hide Holding;
    hide Mirrors;
    if step.op.id !in nd.link.p.held {
      WriteIsHeld(codec, nd.file, nd.link.p.held, nd.known, step.op, step.fates);
      WriteMirrors(codec, nd.file, nd.link.p.held, nd.known, step.op, step.fates);
    }
  }

  lemma CrashKeepsMirror(codec: Durable.Codec, nd: Node, step: Step)
    requires codec.RoundTrips() && MirrorInv(codec, nd) && step.Crash? && Enabled(codec, nd, step)
    ensures MirrorInv(codec, Next(codec, nd, step))
  {
    hide Restarted;
    hide Reloaded;
    hide Durable.Inv;
    hide Durable.Stored;
    hide Durable.Kept;
    RestartReads(codec, nd.file, step.n, step.bad);
    RestartKeepsFile(codec, nd.file, nd.link.p.held, nd.known, step.n, step.bad);
    var f' := Restarted(codec, nd.file, step.n, step.bad);
    assert OfDevices(Durable.Stored(codec, f'), nd.known);
    ReloadsAll(codec, f', nd.known);
  }

  lemma NetKeepsHeld(l: Relay.RelayLink, s: Relay.Step)
    requires Relay.Enabled(l, s) && !s.Arrive? && !s.Gain?
    ensures Relay.Next(l, s).p.held == l.p.held
  {
  }

  lemma StepKeepsMirror(codec: Durable.Codec, nd: Node, step: Step)
    requires codec.RoundTrips() && MirrorInv(codec, nd) && Enabled(codec, nd, step)
    ensures MirrorInv(codec, Next(codec, nd, step))
  {
    match step
    case Net(s) =>
      NetKeepsHeld(nd.link, s);
      hide Relay.Next;
      hide Mirrors;
      hide Holding;
    case Arrive(_, _, _, _) => ArriveKeepsMirror(codec, nd, step);
    case Elsewhere(_, _) => ElsewhereKeepsMirror(codec, nd, step);
    case SyncElsewhere =>
      SyncPutsOnDisk(codec, nd.file, nd.link.p.held, nd.known);
      SyncMirrors(codec, nd.file, nd.link.p.held);
    case Learn(_) =>
    case Save =>
    case Crash(_, _, _) => CrashKeepsMirror(codec, nd, step);
  }

  lemma {:induction false} EveryRunMirrors(codec: Durable.Codec, run: seq<Node>, steps: seq<Step>, n: nat)
    requires codec.RoundTrips() && IsRun(codec, run, steps) && n < |run|
    ensures MirrorInv(codec, run[n])
  {
    hide MirrorInv;
    if n == 0 {
      StartMirrors(codec, run[0]);
    } else {
      EveryRunMirrors(codec, run, steps, n - 1);
      StepKeepsMirror(codec, run[n - 1], steps[n - 1]);
      assert run[n - 1 + 1] == Next(codec, run[n - 1], steps[n - 1]);
    }
  }

  lemma StartMirrors(codec: Durable.Codec, nd: Node)
    requires codec.RoundTrips() && Start(nd)
    ensures MirrorInv(codec, nd)
  {
    StartHasInv(codec, nd);
    assert Durable.Stored(codec, nd.file) == [];
  }

  /** In every run, whatever restarts lose, each op of the log is in the file once, and the
      file has no other op while its writer still writes: replaying it into an empty log
      gives back the very ops that are held, in the order of the file. */
  lemma FileMirrorsLog(codec: Durable.Codec, run: seq<Node>, steps: seq<Step>, n: nat)
    requires codec.RoundTrips() && IsRun(codec, run, steps) && n < |run|
    ensures var f, held := run[n].file, run[n].link.p.held;
            var ops := Durable.Stored(codec, f);
            && DistinctIds(ops) && held <= Ids(ops) && (!f.poisoned ==> Ids(ops) == held)
            && Durable.Restored(Log(1, [], []), ops, (op: SignedOp) => op.device in run[n].known).arrivals == ops
  {
    hide IsRun;
    hide Durable.Stored;
    EveryRunMirrors(codec, run, steps, n);
    var ops := Durable.Stored(codec, run[n].file);
    assert [] + ops == ops;
    Durable.RestoredInOrder(Log(1, [], []), ops, (op: SignedOp) => op.device in run[n].known);
  }
}
