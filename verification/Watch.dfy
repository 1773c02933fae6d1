/** The `/watch` wake-up (src/net/watch.rs, src/bin/pnsd.rs): appenders store a batch of ops
    and then tick once, unless the batch breaks off; watchers mark the tick, read the log
    and only then park. */
module Watch {
  import opened OrderKeys
  import opened Logs

  /** What a watcher waits for: the relay stream to move past a cursor, or the greatest
      order key to pass a known one. */
  datatype Wish = Relay(epoch: Epoch, after: nat) | Head(known: OrderKey)

  /** The check a watcher makes on the log it reads: stay asleep, or return. */
  ghost predicate Unchanged(epoch: Epoch, arrivals: seq<SignedOp>, wish: Wish) {
    match wish
    case Relay(e, after) => e == epoch && after == |arrivals|
    case Head(known) => forall i | 0 <= i < |arrivals| :: AtMost(arrivals[i].Key(), known)
  }

  /** Whether one more op is what a sleeper waits for. */
  predicate Matters(op: SignedOp, wish: Wish) {
    match wish
    case Relay(_, _) => true
    case Head(known) => Less(known, op.Key())
  }

  /** Ready to mark, marked and about to read, asleep, or gone. `read` is how much of the
      log the last read saw. */
  datatype Watcher =
    | Ready(wish: Wish)
    | Marked(wish: Wish, seen: nat)
    | Parked(wish: Wish, seen: nat, read: nat)
    | Returned(wish: Wish)

  /** The arrivals one appender stored under one lock: `from`, up to and without `to`. */
  datatype Batch = Batch(from: nat, to: nat)

  /** `open` are the appenders that have stored and not yet published; `broken` are the
      batches that never were published, because an op after them was refused, or the
      sync or the replay failed. */
  datatype Node = Node(epoch: Epoch, arrivals: seq<SignedOp>, tick: nat, open: map<nat, Batch>, broken: set<Batch>, watchers: map<nat, Watcher>)

  datatype Step =
    | Store(a: nat, ops: seq<SignedOp>)
    | Publish(a: nat)
    | BreakOff(a: nat)
    | Arrive(n: nat, wish: Wish)
    | Mark(n: nat)
    | Read(n: nat)
    | Wake(n: nat)
    | TimeOut(n: nat)

  /** Only ops that are new are stored, and a batch without one publishes nothing. */
  ghost predicate Enabled(s: Node, step: Step) {
    match step
    case Store(a, ops) => a !in s.open && ops != []
    case Publish(a) => a in s.open
    case BreakOff(a) => a in s.open
    case Arrive(n, _) => n !in s.watchers
    case Mark(n) => n in s.watchers && s.watchers[n].Ready?
    case Read(n) => n in s.watchers && s.watchers[n].Marked?
    case Wake(n) => n in s.watchers && s.watchers[n].Parked? && s.watchers[n].seen != s.tick
    case TimeOut(n) => n in s.watchers && s.watchers[n].Parked?
  }

  ghost function Next(s: Node, step: Step): Node
    requires Enabled(s, step)
  {
    match step
    case Store(a, ops) =>
      s.(arrivals := s.arrivals + ops, open := s.open[a := Batch(|s.arrivals|, |s.arrivals| + |ops|)])
    case Publish(a) => s.(open := s.open - {a}, tick := s.tick + 1)
    case BreakOff(a) => s.(open := s.open - {a}, broken := s.broken + {s.open[a]})
    case Arrive(n, wish) => s.(watchers := s.watchers[n := Ready(wish)])
    case Mark(n) => s.(watchers := s.watchers[n := Marked(s.watchers[n].wish, s.tick)])
    case Read(n) =>
      var w := s.watchers[n];
      s.(watchers := s.watchers[n := if Unchanged(s.epoch, s.arrivals, w.wish) then Parked(w.wish, w.seen, |s.arrivals|) else Returned(w.wish)])
    case Wake(n) => s.(watchers := s.watchers[n := Ready(s.watchers[n].wish)])
    case TimeOut(n) => s.(watchers := s.watchers[n := Returned(s.watchers[n].wish)])
  }

  ghost predicate Start(s: Node) {
    s.tick == 0 && s.open == map[] && s.broken == {} && s.watchers == map[]
  }

  // ---------------------------------------------------------------- invariants

  ghost predicate Within(s: Node, b: Batch) {
    b.from < b.to <= |s.arrivals|
  }

  /** The arrival belongs to a batch that nobody has published. */
  ghost predicate Unpublished(s: Node, i: nat) {
    || (exists a :: a in s.open && s.open[a].from <= i < s.open[a].to)
    || (exists b :: b in s.broken && b.from <= i < b.to)
  }

  /** A sleeper found nothing it waits for in what it read; what came later, if nobody has
      ticked since it marked, is unpublished, and batches lie on one side of the read. */
  ghost predicate ParkedInv(s: Node, w: Watcher)
    requires w.Parked?
  {
    && w.seen <= s.tick && w.read <= |s.arrivals|
    && Unchanged(s.epoch, s.arrivals[..w.read], w.wish)
    && (w.seen == s.tick ==> forall i: nat | w.read <= i < |s.arrivals| :: Unpublished(s, i))
    && (forall a | a in s.open :: s.open[a].to <= w.read || w.read <= s.open[a].from)
    && (forall b | b in s.broken :: b.to <= w.read || w.read <= b.from)
  }

  ghost predicate Inv(s: Node) {
    && (forall a | a in s.open :: Within(s, s.open[a]))
    && (forall b | b in s.broken :: Within(s, b))
    && (forall n | n in s.watchers && s.watchers[n].Marked? :: s.watchers[n].seen <= s.tick)
    && (forall n | n in s.watchers && s.watchers[n].Parked? :: ParkedInv(s, s.watchers[n]))
  }

  lemma StoreKeepsParked(s: Node, a: nat, ops: seq<SignedOp>, w: Watcher)
    requires w.Parked? && ParkedInv(s, w) && Enabled(s, Store(a, ops))
    ensures ParkedInv(Next(s, Store(a, ops)), w)
  {
    hide Unchanged;
    var s' := Next(s, Store(a, ops));
    assert s'.arrivals[..w.read] == s.arrivals[..w.read];
    forall i: nat | w.seen == s.tick && w.read <= i < |s'.arrivals|
      ensures Unpublished(s', i)
    {
      if i < |s.arrivals| {
        assert Unpublished(s, i);
        if c :| c in s.open && s.open[c].from <= i < s.open[c].to {
          assert s'.open[c] == s.open[c];
        }
      } else {
        assert s'.open[a].from <= i < s'.open[a].to;
      }
    }
  }

  lemma BreakOffKeepsParked(s: Node, a: nat, w: Watcher)
    requires w.Parked? && ParkedInv(s, w) && Enabled(s, BreakOff(a))
    ensures ParkedInv(Next(s, BreakOff(a)), w)
  {
    hide Unchanged;
    var s' := Next(s, BreakOff(a));
    forall i: nat | w.seen == s.tick && w.read <= i < |s.arrivals|
      ensures Unpublished(s', i)
    {
      assert Unpublished(s, i);
      if c :| c in s.open && s.open[c].from <= i < s.open[c].to {
        assert c == a || s'.open[c] == s.open[c];
        assert c == a ==> s.open[a] in s'.broken;
      } else {
        var b :| b in s.broken && b.from <= i < b.to;
        assert b in s'.broken;
      }
    }
  }

  lemma StepKeepsInv(s: Node, step: Step)
    requires Inv(s) && Enabled(s, step)
    ensures Inv(Next(s, step))
  {
    hide Unchanged;
    hide Unpublished;
    var s' := Next(s, step);
    forall n | n in s'.watchers && s'.watchers[n].Parked?
      ensures ParkedInv(s', s'.watchers[n])
    {
      if step == Read(n) {
        assert s.arrivals[..|s.arrivals|] == s.arrivals;
      } else {
        var w := s.watchers[n];
        assert ParkedInv(s, w);
        match step
        case Store(a, ops) => StoreKeepsParked(s, a, ops, w);
        case BreakOff(a) => BreakOffKeepsParked(s, a, w);
        case _ => SameBatches(s, s', w);
      }
    }
  }

  /** Steps that store nothing and break nothing off leave sleepers alone. */
  lemma SameBatches(s: Node, s': Node, w: Watcher)
    requires w.Parked? && ParkedInv(s, w)
    requires s'.epoch == s.epoch && s'.arrivals == s.arrivals && s'.broken == s.broken
    requires (s'.open == s.open && s'.tick == s.tick) || (s'.open.Keys <= s.open.Keys && s'.tick > s.tick)
    requires forall a | a in s'.open :: s'.open[a] == s.open[a]
    ensures ParkedInv(s', w)
  {
    hide Unchanged;
    forall i: nat | w.seen == s'.tick && w.read <= i < |s.arrivals|
      ensures Unpublished(s', i)
    {
      assert Unpublished(s, i);
    }
  }

  ghost predicate Follows(s: Node, s': Node) {
    exists step :: Enabled(s, step) && s' == Next(s, step)
  }

  ghost predicate IsRun(run: seq<Node>) {
    && run != [] && Start(run[0])
    && forall i | 0 <= i < |run| - 1 :: Follows(run[i], run[i + 1])
  }

  lemma {:induction false} EveryRunKeepsInv(run: seq<Node>, i: nat)
    requires IsRun(run) && i < |run|
    ensures Inv(run[i])
  {
    if i > 0 {
      EveryRunKeepsInv(run, i - 1);
      hide Inv;
      assert Follows(run[i - 1], run[i - 1 + 1]);
      var step :| Enabled(run[i - 1], step) && run[i] == Next(run[i - 1], step);
      StepKeepsInv(run[i - 1], step);
    }
  }

  // ------------------------------------------------------------------ wake-ups

  /** A log has changed for a sleeper exactly when something that matters came after what
      it read. */
  lemma ChangedExactly(epoch: Epoch, arrivals: seq<SignedOp>, read: nat, wish: Wish)
    requires read <= |arrivals| && Unchanged(epoch, arrivals[..read], wish)
    ensures !Unchanged(epoch, arrivals, wish) <==> exists i :: read <= i < |arrivals| && Matters(arrivals[i], wish)
  {
    match wish
    case Relay(_, after) =>
      assert read < |arrivals| ==> Matters(arrivals[read], wish);
    case Head(known) =>
      forall i | 0 <= i < read
        ensures AtMost(arrivals[i].Key(), known)
      {
        assert arrivals[..read][i] == arrivals[i];
      }
      assert forall i | 0 <= i < |arrivals| :: Matters(arrivals[i], wish) <==> !AtMost(arrivals[i].Key(), known);
  }

  /** A batch broke off that lies past what the sleeper read and holds what it waits for. */
  ghost predicate Missed(s: Node, w: Watcher, b: Batch)
    requires w.Parked?
  {
    b in s.broken && w.read <= b.from && exists i :: b.from <= i < b.to && i < |s.arrivals| && Matters(s.arrivals[i], w.wish)
  }

  /** No wake-up is lost but to a batch that broke off: a watcher asleep over a log that has
      what it waits for has a tick waiting, or an appender is still about to tick, or such
      a batch lies past what it read. That holds for a late op with a low order key too. */
  lemma NoWakeUpIsLost(run: seq<Node>, i: nat, n: nat)
    requires IsRun(run) && i < |run| && n in run[i].watchers && run[i].watchers[n].Parked?
    requires !Unchanged(run[i].epoch, run[i].arrivals, run[i].watchers[n].wish)
    ensures Enabled(run[i], Wake(n)) || run[i].open != map[] || exists b :: Missed(run[i], run[i].watchers[n], b)
  {
    EveryRunKeepsInv(run, i);
    if !Enabled(run[i], Wake(n)) && run[i].open == map[] {
      QuietIsMissed(run[i], n);
    }
  }

  lemma QuietIsMissed(s: Node, n: nat)
    requires Inv(s) && n in s.watchers && s.watchers[n].Parked? && s.watchers[n].seen == s.tick && s.open == map[]
    requires !Unchanged(s.epoch, s.arrivals, s.watchers[n].wish)
    ensures exists b :: Missed(s, s.watchers[n], b)
  {
    var w := s.watchers[n];
    assert ParkedInv(s, w);
    ChangedExactly(s.epoch, s.arrivals, w.read, w.wish);
    hide Unchanged;
    var i: nat :| w.read <= i < |s.arrivals| && Matters(s.arrivals[i], w.wish);
    assert Unpublished(s, i);
    var b :| b in s.broken && b.from <= i < b.to;
    assert Missed(s, w, b);
  }

  /** Asleep over a log that has what it waits for, with nothing on its way to wake it. */
  ghost predicate Stuck(s: Node, n: nat) {
    && n in s.watchers && s.watchers[n].Parked?
    && !Unchanged(s.epoch, s.arrivals, s.watchers[n].wish)
    && !Enabled(s, Wake(n)) && s.open == map[]
  }

  /** A sleeper is stuck exactly when a batch with what it waits for broke off past what it
      read, and nobody has published since it marked or is about to. */
  lemma StuckExactly(run: seq<Node>, i: nat, n: nat)
    requires IsRun(run) && i < |run| && n in run[i].watchers && run[i].watchers[n].Parked?
    ensures Stuck(run[i], n) <==>
              && run[i].watchers[n].seen == run[i].tick && run[i].open == map[]
              && exists b :: Missed(run[i], run[i].watchers[n], b)
  {
    EveryRunKeepsInv(run, i);
    var s, w := run[i], run[i].watchers[n];
    assert ParkedInv(s, w);
    ChangedExactly(s.epoch, s.arrivals, w.read, w.wish);
    if Stuck(s, n) {
      QuietIsMissed(s, n);
    }
  }

  /** An empty log, a relay watcher asleep over it, one op stored, and its batch broken off
      by the op behind it. */
  function Stranded(epoch: Epoch, op: SignedOp): seq<Node> {
    var wish := Relay(epoch, 0);
    var empty := Node(epoch, [], 0, map[], {}, map[]);
    [empty,
     empty.(watchers := map[0 := Ready(wish)]),
     empty.(watchers := map[0 := Marked(wish, 0)]),
     empty.(watchers := map[0 := Parked(wish, 0, 0)]),
     empty.(arrivals := [op], open := map[0 := Batch(0, 1)], watchers := map[0 := Parked(wish, 0, 0)]),
     empty.(arrivals := [op], broken := {Batch(0, 1)}, watchers := map[0 := Parked(wish, 0, 0)])]
  }

  /** In that run the watcher is stuck: only its time limit can release it. */
  lemma BrokenBatchStrands(epoch: Epoch, op: SignedOp)
    ensures IsRun(Stranded(epoch, op)) && Stuck(Stranded(epoch, op)[5], 0)
  {
    var run := Stranded(epoch, op);
    assert run[1] == Next(run[0], Arrive(0, Relay(epoch, 0)));
    assert run[2] == Next(run[1], Mark(0));
    assert run[3] == Next(run[2], Read(0));
    assert run[4] == Next(run[3], Store(0, [op]));
    assert run[5] == Next(run[4], BreakOff(0));
    assert Follows(run[0], run[1]) && Follows(run[1], run[2]) && Follows(run[2], run[3]) && Follows(run[3], run[4]) && Follows(run[4], run[5]);
  }

  /** A read returns exactly when the stream is another one, or has moved from the watcher's
      position, or holds an op above the known one. */
  lemma ReadReturnsExactly(s: Node, n: nat)
    requires Enabled(s, Read(n))
    ensures Next(s, Read(n)).watchers[n].Returned? <==>
              match s.watchers[n].wish
              case Relay(epoch, after) => epoch != s.epoch || after != |s.arrivals|
              case Head(known) => exists op :: op in s.arrivals && Less(known, op.Key())
  {
    var w := s.watchers[n];
    if w.wish.Head? {
      if op :| op in s.arrivals && Less(w.wish.known, op.Key()) {
        var i :| 0 <= i < |s.arrivals| && s.arrivals[i] == op;
        assert !AtMost(s.arrivals[i].Key(), w.wish.known);
      }
      if i :| 0 <= i < |s.arrivals| && !AtMost(s.arrivals[i].Key(), w.wish.known) {
        assert s.arrivals[i] in s.arrivals;
      }
    }
  }

  /** Only watchers of this stream ever sleep, each at the position it asked about or over
      nothing above the key it knows. */
  lemma SleeperIsUpToDate(run: seq<Node>, i: nat, n: nat)
    requires IsRun(run) && i < |run| && n in run[i].watchers && run[i].watchers[n].Parked?
    ensures var w := run[i].watchers[n];
            && w.read <= |run[i].arrivals|
            && match w.wish
               case Relay(epoch, after) => epoch == run[i].epoch && after == w.read
               case Head(known) => forall j | 0 <= j < w.read :: AtMost(run[i].arrivals[j].Key(), known)
  {
    EveryRunKeepsInv(run, i);
    var s, w := run[i], run[i].watchers[n];
    assert ParkedInv(s, w);
    forall j | 0 <= j < w.read
      ensures s.arrivals[..w.read][j] == s.arrivals[j]
    {
    }
  }

  /** A watcher that wakes to a log with what it waits for returns on its next read. */
  lemma WokenWatcherReturns(s: Node, n: nat)
    requires Enabled(s, Wake(n)) && !Unchanged(s.epoch, s.arrivals, s.watchers[n].wish)
    ensures var marked := Next(Next(s, Wake(n)), Mark(n));
            Enabled(marked, Read(n)) && Next(marked, Read(n)).watchers[n].Returned?
  {
  }
}
