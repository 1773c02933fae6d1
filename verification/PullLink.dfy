/** One link over time. No op of the server's log is ever lost to the puller: it is
    held, or above a claim, or past the cursor, whatever pages are cut, refused
    half-way or reset, and however the server's log grows meanwhile. */
module PullLink {
  import opened OrderKeys
  import opened Logs
  import opened PullServer
  import opened PullPages
  import opened PullClient

  /** Where a cursor stands in the stream of this epoch. */
  function Position(cursor: Option<Cursor>, epoch: Epoch): nat {
    if cursor.Some? && cursor.value.epoch == epoch then cursor.value.after else 0
  }

  /** The op that arrived as number `s` is accounted for. */
  ghost predicate Accounted(c: Client, epoch: Epoch, op: SignedOp, s: nat) {
    op.id in c.held || !Covers(c.claims, op.Key()) || s > Position(c.cursor, epoch)
  }

  ghost predicate Safe(log: Log, c: Client) {
    forall i | 0 <= i < |log.arrivals| :: Accounted(c, log.epoch, log.arrivals[i], i + 1)
  }

  /** The client holds every op of a log. */
  ghost predicate HoldsAll(log: Log, c: Client) {
    forall op | op in log.ops :: op.id in c.held
  }

  // ----------------------------------------------------- the effect of one page

  /** Claims moved up, each to a key of an admitted op of its origin, and past every
      admitted op. */
  ghost predicate RaisedBy(claims: Claims, claims': Claims, ops: seq<SignedOp>) {
    && (forall d | d in claims :: d in claims' && AtMost(claims[d], claims'[d]))
    && (forall d | d in claims' :: (d in claims && claims'[d] == claims[d]) || Names(ops, d, claims'[d]))
    && (forall op | op in ops :: Covers(claims', op.Key()))
  }

  ghost predicate Names(ops: seq<SignedOp>, d: DeviceId, key: OrderKey) {
    exists op :: op in ops && op.device == d && op.Key() == key
  }

  /** A run as the grouping leaves it: one origin, ascending. */
  ghost predicate GoodRun(run: Run) {
    Ascending(run.ops) && forall op | op in run.ops :: op.device == run.origin
  }

  ghost function Flatten(runs: seq<Run>): seq<SignedOp> {
    if runs == [] then [] else runs[0].ops + Flatten(runs[1..])
  }

  lemma RaiseByRun(claims: Claims, run: Run, n: nat)
    requires GoodRun(run) && 0 < n <= |run.ops|
    ensures RaisedBy(claims, Raise(claims, run.origin, run.ops[n - 1].Key()), run.ops[..n])
  {
  }

  lemma RaisedByConcat(a: Claims, b: Claims, c: Claims, x: seq<SignedOp>, y: seq<SignedOp>)
    requires RaisedBy(a, b, x) && RaisedBy(b, c, y)
    ensures RaisedBy(a, c, x + y)
  {
    forall d | d in c && !(d in a && c[d] == a[d])
      ensures Names(x + y, d, c[d])
    {
      if Names(y, d, c[d]) {
        var op :| op in y && op.device == d && op.Key() == c[d];
        assert op in x + y;
      } else {
        assert Names(x, d, b[d]);
        var op :| op in x && op.device == d && op.Key() == b[d];
        assert op in x + y;
      }
    }
    forall op | op in x + y
      ensures Covers(c, op.Key())
    {
      if op in x {
        assert Covers(b, op.Key());
      }
    }
  }

  /** Effect of admitting the first `n` entries of the keyed channel. */
  ghost predicate KeyedEffect(c: Client, c': Client, keyed: seq<SignedOp>, n: nat) {
    && n <= |keyed|
    && c'.held == c.held + FirstIds(keyed, n)
    && c'.cursor == c.cursor
    && RaisedBy(c.claims, c'.claims, keyed[..n])
  }

  lemma AdmitRunEffect(c: Client, run: Run, w: World, tick: nat) returns (n: nat)
    requires GoodRun(run)
    ensures KeyedEffect(c, AdmitRun(c, run, w, tick).c, run.ops, n)
    ensures AdmitRun(c, run, w, tick).error.None? ==> n == |run.ops|
  {
    hide AcceptedCount;
    hide Raise;
    n := Admit(c.held, run.ops, w, tick).admitted;
    if n > 0 {
      RaiseByRun(c.claims, run, n);
    }
  }

  lemma FirstIdsConcat(a: seq<SignedOp>, b: seq<SignedOp>, n: nat)
    requires n <= |b|
    ensures FirstIds(a + b, |a| + n) == FirstIds(a, |a|) + FirstIds(b, n)
  {
    var all := a + b;
    forall id | id in FirstIds(b, n)
      ensures id in FirstIds(all, |a| + n)
    {
      var i :| 0 <= i < n && b[i].id == id;
      assert all[|a| + i].id == id;
    }
    forall id | id in FirstIds(a, |a|)
      ensures id in FirstIds(all, |a| + n)
    {
      var i :| 0 <= i < |a| && a[i].id == id;
      assert all[i].id == id;
    }
  }

  lemma KeyedEffectExtend(c: Client, c': Client, a: seq<SignedOp>, b: seq<SignedOp>, n: nat)
    requires KeyedEffect(c, c', a, n)
    ensures KeyedEffect(c, c', a + b, n)
  {
    assert (a + b)[..n] == a[..n];
    assert FirstIds(a + b, n) == FirstIds(a, n);
  }

  lemma KeyedEffectConcat(c: Client, c': Client, c'': Client, a: seq<SignedOp>, b: seq<SignedOp>, n: nat)
    requires KeyedEffect(c, c', a, |a|) && KeyedEffect(c', c'', b, n)
    ensures KeyedEffect(c, c'', a + b, |a| + n)
  {
    hide RaisedBy;
    hide FirstIds;
    FirstIdsConcat(a, b, n);
    assert a[..|a|] == a;
    assert (a + b)[..|a| + n] == a + b[..n];
    RaisedByConcat(c.claims, c'.claims, c''.claims, a, b[..n]);
  }

  lemma {:induction false} AdmitRunsEffect(c: Client, runs: seq<Run>, w: World, tick: nat) returns (n: nat)
    requires AllGood(runs)
    ensures KeyedEffect(c, AdmitRuns(c, runs, w, tick).c, Flatten(runs), n)
    ensures AdmitRuns(c, runs, w, tick).error.None? ==> n == |Flatten(runs)|
    ensures AdmitRuns(c, runs, w, tick).error.Some? ==> AdmitRuns(c, runs, w, tick).error.value == Rejected
    decreases |runs|
  {
    hide KeyedEffect;
    hide AdmitRun;
    hide GoodRun;
    if runs == [] {
      NoEffect(c);
      n := 0;
    } else {
      var r := AdmitRun(c, runs[0], w, tick);
      AdmitRunError(c, runs[0], w, tick);
      var k := AdmitRunEffect(c, runs[0], w, tick);
      if r.error.Some? {
        n := k;
        KeyedEffectExtend(c, r.c, runs[0].ops, Flatten(runs[1..]), n);
      } else {
        var m := AdmitRunsEffect(r.c, runs[1..], w, r.tick);
        n := |runs[0].ops| + m;
        KeyedEffectConcat(c, r.c, AdmitRuns(r.c, runs[1..], w, r.tick).c, runs[0].ops, Flatten(runs[1..]), m);
      }
    }
  }

  lemma AdmitRunError(c: Client, run: Run, w: World, tick: nat)
    ensures AdmitRun(c, run, w, tick).error in {None, Some(Rejected)}
  {
  }

  lemma NoEffect(c: Client)
    ensures KeyedEffect(c, c, [], 0)
  {
  }

  // ---------------------------------------------------------------- grouping

  lemma {:induction false} FlattenConcat(a: seq<Run>, b: seq<Run>)
    ensures Flatten(a + b) == Flatten(a) + Flatten(b)
  {
    if a == [] {
      assert a + b == b;
    } else {
      FlattenConcat(a[1..], b);
      assert (a + b)[0] == a[0] && (a + b)[1..] == a[1..] + b;
      var first, rest, more := a[0].ops, Flatten(a[1..]), Flatten(b);
      assert first + (rest + more) == (first + rest) + more;
    }
  }

  lemma WithEntryFlatten(runs: seq<Run>, op: SignedOp)
    ensures Flatten(WithEntry(runs, op)) == Flatten(runs) + [op]
  {
    if runs != [] && runs[|runs| - 1].origin == op.device {
      var init, last := runs[..|runs| - 1], runs[|runs| - 1];
      assert runs == init + [last];
      FlattenConcat(init, [last]);
      FlattenConcat(init, [Run(last.origin, last.ops + [op])]);
    } else {
      FlattenConcat(runs, [Run(op.device, [op])]);
    }
  }

  ghost predicate AllGood(runs: seq<Run>) {
    forall i | 0 <= i < |runs| :: GoodRun(runs[i])
  }

  ghost predicate EndsIn(runs: seq<Run>, op: SignedOp) {
    && runs != []
    && var last := runs[|runs| - 1];
       last.origin == op.device && last.ops != [] && last.ops[|last.ops| - 1] == op
  }

  lemma FirstEntryGood(op: SignedOp)
    ensures AllGood(WithEntry([], op)) && EndsIn(WithEntry([], op), op)
  {
  }

  lemma WithEntryGood(runs: seq<Run>, prev: SignedOp, op: SignedOp)
    requires AllGood(runs) && EndsIn(runs, prev)
    requires prev.device == op.device ==> Less(prev.Key(), op.Key())
    ensures AllGood(WithEntry(runs, op)) && EndsIn(WithEntry(runs, op), op)
  {
  }

  /** Grouping keeps every entry in its place; without an order error each group is
      one origin ascending. */
  lemma {:induction false} RunsAreGood(keyed: seq<SignedOp>)
    requires OrderError(keyed).None?
    ensures Flatten(Runs(keyed)) == keyed && AllGood(Runs(keyed))
    ensures keyed != [] ==> EndsIn(Runs(keyed), keyed[|keyed| - 1])
  {
    hide WithEntry;
    hide AllGood;
    hide EndsIn;
    hide Flatten;
    if keyed == [] {
      NoRuns();
    } else {
      var init, op := keyed[..|keyed| - 1], keyed[|keyed| - 1];
      RunsAreGood(init);
      WithEntryFlatten(Runs(init), op);
      assert keyed == init + [op];
      if init == [] {
        FirstEntryGood(op);
      } else {
        WithEntryGood(Runs(init), init[|init| - 1], op);
      }
    }
  }

  lemma NoRuns()
    ensures Flatten([]) == [] && AllGood([])
  {
  }

  lemma {:induction false} OneOriginOneRun(keyed: seq<SignedOp>)
    requires forall i | 0 <= i < |keyed| :: keyed[i].device == keyed[0].device
    ensures |Runs(keyed)| <= 1
  {
    if |keyed| > 1 {
      var init := keyed[..|keyed| - 1];
      OneOriginOneRun(init);
      LastRunOrigin(init);
    }
  }

  /** An honest server's keyed channel passes the puller's order checks. */
  lemma {:induction false} OrderlyHasNoError(keyed: seq<SignedOp>, n: nat)
    requires Orderly(keyed, n)
    ensures OrderError(keyed).None?
  {
    hide Orderly;
    hide Runs;
    if keyed != [] {
      OrderlyShrinks(keyed, n);
      OrderlyHasNoError(keyed[..|keyed| - 1], if n < |keyed| then n else |keyed| - 1);
      if |keyed| > 1 {
        OrderlyAtEnd(keyed, n);
      }
    }
  }

  /** The last two entries: keys ascend within an origin, and origins ascend past the
      first run. */
  lemma OrderlyAtEnd(keyed: seq<SignedOp>, n: nat)
    requires Orderly(keyed, n) && |keyed| > 1
    ensures var init, prev, op := keyed[..|keyed| - 1], keyed[|keyed| - 2], keyed[|keyed| - 1];
            if prev.device == op.device then Less(prev.Key(), op.Key()) else |Runs(init)| <= 1 || prev.device < op.device
  {
    hide Runs;
    var init, prev, op := keyed[..|keyed| - 1], keyed[|keyed| - 2], keyed[|keyed| - 1];
    if n == |keyed| {
      assert keyed[..n] == keyed;
    } else if n == |init| {
      assert init == keyed[..n];
      OneOriginOneRun(init);
    } else {
      assert keyed[n..][|keyed| - n - 2] == prev && keyed[n..][|keyed| - n - 1] == op;
    }
  }

  lemma OrderlyShrinks(keyed: seq<SignedOp>, n: nat)
    requires keyed != [] && Orderly(keyed, n)
    ensures Orderly(keyed[..|keyed| - 1], if n < |keyed| then n else |keyed| - 1)
  {
    var init := keyed[..|keyed| - 1];
    var m := if n < |keyed| then n else |keyed| - 1;
    assert init[..m] == keyed[..n][..m];
    assert init[m..] == if n < |keyed| then keyed[n..][..|keyed| - n - 1] else [];
  }

  // ------------------------------------------------------------------- safety

  /** A cursor that stands at zero in the stream accounts for everything. */
  lemma SafeAtStart(log: Log, c: Client)
    requires Position(c.cursor, log.epoch) == 0
    ensures Safe(log, c)
  {
  }

  /** Every arrival numbered from `lo + 1` to `hi` that the claims cover is held. */
  ghost predicate HoldsCovered(log: Log, claims: Claims, held: set<OpId>, lo: nat, hi: nat) {
    forall i | 0 <= i < |log.arrivals| && lo <= i < hi && Covers(claims, log.arrivals[i].Key()) :: log.arrivals[i].id in held
  }

  /** The cursor moved from where it stood to `hi`, over held or uncovered arrivals. */
  ghost predicate CursorEffect(log: Log, c: Client, c': Client, hi: nat) {
    && c.held <= c'.held && c'.claims == c.claims
    && c'.cursor == Some(Cursor(log.epoch, hi))
    && Position(c.cursor, log.epoch) <= hi <= log.Head()
    && HoldsCovered(log, c.claims, c'.held, Position(c.cursor, log.epoch), hi)
  }

  lemma CursorMoves(log: Log, c: Client, c': Client, hi: nat)
    requires Safe(log, c) && CursorEffect(log, c, c', hi)
    ensures Safe(log, c')
  {
  }

  /** Admitting a prefix of the positional channel puts every covered arrival up to
      the last admitted one into the log, and all of them when nothing is refused. */
  lemma PrefixHolds(log: Log, claims: Claims, held: set<OpId>, lo: nat, next: nat, n: nat, hi: nat)
    requires lo <= hi <= next <= log.Head()
    requires var entries := CoveredBetween(log.arrivals, claims, lo, next);
             && n <= |entries| && FirstIds(OpsOf(entries), n) <= held
             && (n == |entries| || hi == if n > 0 then entries[n - 1].0 else lo)
    ensures HoldsCovered(log, claims, held, lo, hi)
  {
    hide Covers;
    hide CoveredBetween;
    var entries := CoveredBetween(log.arrivals, claims, lo, next);
    CoveredBetweenInOrder(log.arrivals, claims, lo, next);
    forall i | 0 <= i < |log.arrivals| && lo <= i < hi && Covers(claims, log.arrivals[i].Key())
      ensures log.arrivals[i].id in held
    {
      var k := CoveredBetweenHas(log.arrivals, claims, lo, next, i + 1);
      assert k < n;
      assert OpsOf(entries)[k].id == log.arrivals[i].id;
    }
  }

  lemma BackfillEffect(log: Log, c: Client, next: nat, w: World, tick: nat)
    requires var pos := Position(c.cursor, log.epoch);
             && pos <= next <= log.Head()
    ensures var pos := Position(c.cursor, log.epoch);
            var (c2, a) := ApplyBackfill(c, Cursor(log.epoch, pos), CoveredBetween(log.arrivals, c.claims, pos, next), w, tick);
            && c2.cursor.Some? && CursorEffect(log, c, c2, c2.cursor.value.after)
            && c2.cursor.value.after <= next
            && (!a.failed ==> CursorEffect(log, c, c2.(cursor := Some(Cursor(log.epoch, next))), next))
  {
    hide Covers;
    hide CoveredBetween;
    hide AcceptedCount;
    hide HoldsCovered;
    var pos := Position(c.cursor, log.epoch);
    var entries := CoveredBetween(log.arrivals, c.claims, pos, next);
    var (c2, a) := ApplyBackfill(c, Cursor(log.epoch, pos), entries, w, tick);
    CoveredBetweenInOrder(log.arrivals, c.claims, pos, next);
    PrefixHolds(log, c.claims, c2.held, pos, next, a.admitted, c2.cursor.value.after);
    if !a.failed {
      PrefixHolds(log, c.claims, c2.held, pos, next, a.admitted, next);
    }
  }

  lemma {:induction false} InOrderAdvances(arrivals: seq<SignedOp>, claims: Claims, r: seq<(nat, SignedOp)>, lo: nat, hi: nat)
    requires InOrder(arrivals, claims, r, lo, hi)
    ensures SeqsAdvance(r, lo)
  {
    hide IsArrival;
    if r != [] {
      InOrderAdvances(arrivals, claims, r[1..], r[0].0, hi);
    }
  }

  /** Raising claims over ops that are held keeps safety. */
  lemma ClaimsRise(log: Log, c: Client, c': Client, keyed: seq<SignedOp>, n: nat)
    requires log.Valid() && Safe(log, c)
    requires KeyedClosed(log, c.claims, keyed) && KeyedEffect(c, c', keyed, n)
    ensures Safe(log, c')
  {
    forall i | 0 <= i < |log.arrivals|
      ensures Accounted(c', log.epoch, log.arrivals[i], i + 1)
    {
      var op := log.arrivals[i];
      assert op in log.ops;
      assert Accounted(c, log.epoch, op, i + 1);
      if Covers(c'.claims, op.Key()) && !Covers(c.claims, op.Key()) {
        NewlyCovered(log, c, c', keyed, n, op);
      }
    }
  }

  lemma NewlyCovered(log: Log, c: Client, c': Client, keyed: seq<SignedOp>, n: nat, op: SignedOp)
    requires KeyedClosed(log, c.claims, keyed) && KeyedEffect(c, c', keyed, n)
    requires op in log.ops && Covers(c'.claims, op.Key()) && !Covers(c.claims, op.Key())
    ensures op.id in c'.held
  {
    var d := op.device;
    assert Names(keyed[..n], d, c'.claims[d]);
    var top :| top in keyed[..n] && top.device == d && top.Key() == c'.claims[d];
    var j :| 0 <= j < n && keyed[j] == top;
    assert Precedes(c.claims, op, keyed[j]);
    assert op in keyed[..j + 1];
    var k :| 0 <= k < j + 1 && keyed[k] == op;
    assert keyed[k].id in FirstIds(keyed, n);
  }

  // ------------------------------------------------------------ one page, whole

  /** What applying an honest page does to a client that stood at `c`. */
  ghost predicate PageEffect(log: Log, c: Client, page: PullPage, r: Applied) {
    && Safe(log, r.c)
    && r.error in {None, Some(Rejected)}
    && c.held <= r.c.held
    && r.c.cursor.Some? && r.c.cursor.value.epoch == log.epoch
    && Position(c.cursor, log.epoch) <= r.c.cursor.value.after <= log.Head()
    && (exists n: nat :: n <= |page.keyed| && RaisedBy(c.claims, r.c.claims, page.keyed[..n]))
    && (r.error.None? ==>
          && r.c.cursor.value.after == page.nextRelaySeq
          && RaisedBy(c.claims, r.c.claims, page.keyed)
          && HoldsCovered(log, c.claims, r.c.held, Position(c.cursor, log.epoch), page.nextRelaySeq)
          && FirstIds(page.keyed, |page.keyed|) <= r.c.held)
  }

  lemma HoldsCoveredMore(log: Log, claims: Claims, held: set<OpId>, more: set<OpId>, lo: nat, hi: nat)
    requires HoldsCovered(log, claims, held, lo, hi) && held <= more
    ensures HoldsCovered(log, claims, more, lo, hi)
  {
  }

  /** The keyed half of a page, once the positional half went through. */
  lemma KeyedHalf(log: Log, c: Client, c3: Client, page: PullPage, w: World, tick: nat)
    requires log.Valid() && Safe(log, c3) && CursorEffect(log, c, c3, page.nextRelaySeq)
    requires KeyedClosed(log, c.claims, page.keyed) && OrderError(page.keyed).None?
    ensures PageEffect(log, c, page, AdmitRuns(c3, Runs(page.keyed), w, tick))
  {
    hide KeyedClosed;
    hide OrderError;
    hide AdmitRuns;
    hide Runs;
    hide RaisedBy;
    hide FirstIds;
    hide Safe;
    RunsAreGood(page.keyed);
    var r := AdmitRuns(c3, Runs(page.keyed), w, tick);
    var n := AdmitRunsEffect(c3, Runs(page.keyed), w, tick);
    ClaimsRise(log, c3, r.c, page.keyed, n);
    assert page.keyed[..|page.keyed|] == page.keyed;
    assert r.c.cursor == c3.cursor && c.held <= r.c.held;
    assert RaisedBy(c.claims, r.c.claims, page.keyed[..n]);
    if r.error.None? {
      HoldsCoveredMore(log, c.claims, c3.held, r.c.held, Position(c.cursor, log.epoch), page.nextRelaySeq);
    }
    hide HoldsCovered;
    hide Position;
    assert r.error in {None, Some(Rejected)};
  }

  /** Applying an honest page keeps everything accounted for, and the only thing that
      can go wrong is an op being refused. */
  lemma ApplyHonestPage(log: Log, c: Client, page: PullPage, fresh': bool, w: World, tick: nat)
    requires log.Valid() && Safe(log, c) && (c.cursor.None? || c.cursor.value.epoch == log.epoch)
    requires HonestPage(log, c.claims, Position(c.cursor, log.epoch), fresh', page)
    ensures PageEffect(log, c, page, ApplyPage(c, page, w, tick))
  {
    hide Covers;
    hide CoveredBetween;
    hide KeyedClosed;
    hide Orderly;
    hide OrderError;
    hide SeqsAdvance;
    hide AdmitRuns;
    hide Runs;
    hide ApplyBackfill;
    hide HoldsCovered;
    hide RaisedBy;
    hide Safe;
    var pos := Position(c.cursor, log.epoch);
    CoveredBetweenInOrder(log.arrivals, c.claims, pos, page.nextRelaySeq);
    InOrderAdvances(log.arrivals, c.claims, page.backfill, pos, page.nextRelaySeq);
    BackfillEffect(log, c, page.nextRelaySeq, w, tick);
    var (c2, a) := ApplyBackfill(c, Cursor(log.epoch, pos), page.backfill, w, tick);
    CursorMoves(log, c, c2, c2.cursor.value.after);
    if a.failed {
      NothingRaised(c.claims);
      assert page.keyed[..0] == [];
    } else {
      var c3 := c2.(cursor := Some(Cursor(log.epoch, page.nextRelaySeq)));
      CursorMoves(log, c, c3, page.nextRelaySeq);
      var n :| Orderly(page.keyed, n);
      OrderlyHasNoError(page.keyed, n);
      KeyedHalf(log, c, c3, page, w, a.tick);
    }
  }

  lemma NothingRaised(claims: Claims)
    ensures RaisedBy(claims, claims, [])
  {
  }

  /** After a page went through, the token it carries matches the puller's state. */
  lemma ResumeIsCoherent(log: Log, c: Client, page: PullPage, fresh': bool, r: Applied)
    requires HonestPage(log, c.claims, Position(c.cursor, log.epoch), fresh', page)
    requires PageEffect(log, c, page, r) && r.error.None?
    ensures Coherent(page.resume, r.c.claims, r.c.cursor.value.after)
  {
  }

  /** A page that answers a fresh request, is complete and goes through leaves the
      puller holding everything the server held. */
  lemma CompletePageHoldsAll(log: Log, c: Client, page: PullPage, r: Applied)
    requires log.Valid() && Safe(log, c)
    requires HonestPage(log, c.claims, Position(c.cursor, log.epoch), true, page) && page.complete
    requires PageEffect(log, c, page, r) && r.error.None?
    ensures HoldsAll(log, r.c)
  {
    hide Covers;
    hide CoveredBetween;
    hide RaisedBy;
    forall op | op in log.ops
      ensures op.id in r.c.held
    {
      assert op in log.arrivals;
      var i :| 0 <= i < |log.arrivals| && log.arrivals[i] == op;
      if Covers(c.claims, op.Key()) {
        assert Accounted(c, log.epoch, log.arrivals[i], i + 1);
      } else {
        var k :| 0 <= k < |page.keyed| && page.keyed[k] == op;
        assert page.keyed[k].id in FirstIds(page.keyed, |page.keyed|);
      }
    }
  }
}
