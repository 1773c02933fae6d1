/** Pull protocol v3, pulling side (src/net/pull_client.rs, src/net/socket.rs): how
    one page is folded into the log, the claims and the relay cursor. */
module PullClient {
  import opened OrderKeys
  import opened Logs
  import opened PullServer
  import opened PullPages

  /** The durable state of one link: op ids held, claims, relay cursor. */
  datatype Client = Client(held: set<OpId>, claims: Claims, cursor: Option<Cursor>)

  /** What the model does not decide: whether the op checked at a given moment passes
      the key, signature and clock checks, and whether a store replay succeeds. */
  datatype World = World(accepts: (nat, SignedOp) -> bool, replays: nat -> bool)

  datatype PullError =
    | EpochChanged | NonAdvancing | NonAscending | OutOfOrder
    | Rejected | RepeatedReset | BadReset | Stalled

  // ---------------------------------------------------------------- admission

  /** How many leading ops pass their checks. */
  function AcceptedCount(ops: seq<SignedOp>, w: World, tick: nat): (n: nat)
    ensures n <= |ops|
  {
    if ops == [] || !w.accepts(tick, ops[0]) then 0 else 1 + AcceptedCount(ops[1..], w, tick + 1)
  }

  function FirstIds(ops: seq<SignedOp>, n: nat): set<OpId>
    requires n <= |ops|
  {
    set i | 0 <= i < n :: ops[i].id
  }

  lemma FirstIdsNone(ops: seq<SignedOp>)
    ensures FirstIds(ops, 0) == {}
  {
  }

  lemma FirstIdsStep(ops: seq<SignedOp>, n: nat)
    requires n < |ops|
    ensures FirstIds(ops, n + 1) == FirstIds(ops, n) + {ops[n].id}
  {
  }

  datatype Admission = Admission(held: set<OpId>, admitted: nat, failed: bool, tick: nat)

  /** `admit_ops`: log the accepted prefix, replay the store if anything was new. */
  function Admit(held: set<OpId>, ops: seq<SignedOp>, w: World, tick: nat): (a: Admission)
    ensures a.admitted <= |ops| && (!a.failed ==> a.admitted == |ops|)
    ensures a.held == held + FirstIds(ops, a.admitted)
  {
    var n := AcceptedCount(ops, w, tick);
    var gained := FirstIds(ops, n);
    Admission(held + gained, n, n < |ops| || (held + gained != held && !w.replays(tick + n)), tick + n + 1)
  }

  lemma {:induction false} AcceptedExactly(ops: seq<SignedOp>, w: World, tick: nat)
    ensures var n := AcceptedCount(ops, w, tick);
            && (forall i | 0 <= i < n :: w.accepts(tick + i, ops[i]))
            && (n < |ops| ==> !w.accepts(tick + n, ops[n]))
  {
    if ops != [] && w.accepts(tick, ops[0]) {
      var rest, m := ops[1..], AcceptedCount(ops[1..], w, tick + 1);
      AcceptedExactly(rest, w, tick + 1);
      forall i | 0 <= i < m + 1
        ensures w.accepts(tick + i, ops[i])
      {
        assert i > 0 ==> rest[i - 1] == ops[i] && w.accepts(tick + 1 + (i - 1), rest[i - 1]);
      }
      assert m < |rest| ==> tick + 1 + m == tick + (m + 1);
    }
  }

  /** Every op admitted passed its checks, in turn, and the first that did not was not; it
      fails exactly when an op was refused, or a new one was admitted and the replay failed. */
  lemma AdmitExactly(held: set<OpId>, ops: seq<SignedOp>, w: World, tick: nat)
    ensures var a := Admit(held, ops, w, tick);
            && (forall i | 0 <= i < a.admitted :: w.accepts(tick + i, ops[i]))
            && (a.admitted < |ops| ==> !w.accepts(tick + a.admitted, ops[a.admitted]))
            && (a.failed <==> a.admitted < |ops| || ((exists i :: 0 <= i < a.admitted && ops[i].id !in held) && !w.replays(tick + a.admitted)))
            && a.tick == tick + a.admitted + 1
  {
    AcceptedExactly(ops, w, tick);
    hide AcceptedCount;
    var a := Admit(held, ops, w, tick);
    if a.held != held {
      var id :| id in FirstIds(ops, a.admitted) && id !in held;
      var i :| 0 <= i < a.admitted && ops[i].id == id;
    }
    if i :| 0 <= i < a.admitted && ops[i].id !in held {
      assert ops[i].id in FirstIds(ops, a.admitted);
    }
  }

  // --------------------------------------------------------------- keyed runs

  datatype Run = Run(origin: DeviceId, ops: seq<SignedOp>)

  /** Consecutive entries of one origin, grouped as they are read. */
  function Runs(keyed: seq<SignedOp>): seq<Run> {
    if keyed == [] then [] else WithEntry(Runs(keyed[..|keyed| - 1]), keyed[|keyed| - 1])
  }

  function WithEntry(runs: seq<Run>, op: SignedOp): seq<Run> {
    if runs != [] && runs[|runs| - 1].origin == op.device then
      var last := runs[|runs| - 1];
      runs[..|runs| - 1] + [Run(last.origin, last.ops + [op])]
    else runs + [Run(op.device, [op])]
  }

  /** The first ordering rule an entry breaks: keys ascend within an origin, and from
      the third run on origins do not descend. */
  function OrderError(keyed: seq<SignedOp>): Option<PullError> {
    if keyed == [] then None
    else
      var init, op := keyed[..|keyed| - 1], keyed[|keyed| - 1];
      var before := OrderError(init);
      if before.Some? || init == [] then before
      else
        var prev := init[|init| - 1];
        if prev.device == op.device then
          (if AtMost(op.Key(), prev.Key()) then Some(NonAscending) else None)
        else if |Runs(init)| > 1 && op.device < prev.device then Some(OutOfOrder)
        else None
  }

  datatype Applied = Applied(c: Client, error: Option<PullError>, tick: nat)

  /** Admit one run and raise its origin's claim to the last key admitted. */
  function AdmitRun(c: Client, run: Run, w: World, tick: nat): Applied {
    var a := Admit(c.held, run.ops, w, tick);
    var claims := if a.admitted > 0 then Raise(c.claims, run.origin, run.ops[a.admitted - 1].Key()) else c.claims;
    Applied(Client(a.held, claims, c.cursor), if a.failed then Some(Rejected) else None, a.tick)
  }

  /** Admit runs in turn until one is refused. */
  function AdmitRuns(c: Client, runs: seq<Run>, w: World, tick: nat): Applied
    decreases |runs|
  {
    if runs == [] then Applied(c, None, tick)
    else
      var r := AdmitRun(c, runs[0], w, tick);
      if r.error.Some? then r else AdmitRuns(r.c, runs[1..], w, r.tick)
  }

  // ------------------------------------------------------------------ one page

  predicate SeqsAdvance(backfill: seq<(nat, SignedOp)>, after: nat) {
    backfill == [] || (after < backfill[0].0 && SeqsAdvance(backfill[1..], backfill[0].0))
  }

  /** The cursor a page continues: ours if it names the page's epoch, or a new one. */
  function Continued(cursor: Option<Cursor>, epoch: Epoch): Option<Cursor> {
    match cursor
    case None => Some(Cursor(epoch, 0))
    case Some(cur) => if cur.epoch == epoch then cursor else None
  }

  /** Fold the positional channel: admit, then move the cursor to the last arrival
      admitted. */
  function ApplyBackfill(c: Client, cur: Cursor, backfill: seq<(nat, SignedOp)>, w: World, tick: nat): (Client, Admission) {
    var a := Admit(c.held, OpsOf(backfill), w, tick);
    var after := if a.admitted > 0 then backfill[a.admitted - 1].0 else cur.after;
    (Client(a.held, c.claims, Some(Cursor(cur.epoch, after))), a)
  }

  function MaxNat(a: nat, b: nat): nat {
    if a < b then b else a
  }

  /** `apply_pull_page`. */
  function ApplyPage(c: Client, page: PullPage, w: World, tick: nat): Applied {
    var continued := Continued(c.cursor, page.epoch);
    if continued.None? then Applied(c, Some(EpochChanged), tick)
    else
      var cur := continued.value;
      if !SeqsAdvance(page.backfill, cur.after) then
        Applied(c.(cursor := continued), Some(NonAdvancing), tick)
      else
        var (c2, a) := ApplyBackfill(c, cur, page.backfill, w, tick);
        if a.failed then Applied(c2, Some(Rejected), a.tick)
        else
          var c3 := c2.(cursor := Some(Cursor(cur.epoch, MaxNat(c2.cursor.value.after, page.nextRelaySeq))));
          var disorder := OrderError(page.keyed);
          if disorder.Some? then Applied(c3, disorder, a.tick)
          else AdmitRuns(c3, Runs(page.keyed), w, a.tick)
  }

  // ------------------------------------------------------------- what was checked

  /** The op passed its checks at some moment from `from` on and before `to`. */
  ghost predicate PassedBetween(w: World, from: nat, to: nat, op: SignedOp) {
    exists t :: from <= t < to && w.accepts(t, op)
  }

  /** Every id one side holds and the other did not is of an op among `ops` that passed. */
  ghost predicate OnlyPassed(before: set<OpId>, after: set<OpId>, ops: seq<SignedOp>, w: World, from: nat, to: nat) {
    forall id | id in after && id !in before :: exists op :: op in ops && op.id == id && PassedBetween(w, from, to, op)
  }

  lemma AdmitOnlyPassed(held: set<OpId>, ops: seq<SignedOp>, w: World, tick: nat)
    ensures var a := Admit(held, ops, w, tick); OnlyPassed(held, a.held, ops, w, tick, a.tick) && a.tick > tick
  {
    AdmitExactly(held, ops, w, tick);
    hide AcceptedCount;
    var a := Admit(held, ops, w, tick);
    forall id | id in a.held && id !in held
      ensures exists op :: op in ops && op.id == id && PassedBetween(w, tick, a.tick, op)
    {
      var i :| 0 <= i < a.admitted && ops[i].id == id;
      assert w.accepts(tick + i, ops[i]);
      assert PassedBetween(w, tick, a.tick, ops[i]);
    }
  }

  lemma OnlyPassedConcat(a: set<OpId>, b: set<OpId>, c: set<OpId>, x: seq<SignedOp>, y: seq<SignedOp>, w: World, s: nat, t: nat, u: nat)
    requires OnlyPassed(a, b, x, w, s, t) && OnlyPassed(b, c, y, w, t, u) && s <= t <= u
    ensures OnlyPassed(a, c, x + y, w, s, u)
  {
    forall id | id in c && id !in a
      ensures exists op :: op in x + y && op.id == id && PassedBetween(w, s, u, op)
    {
      if id in b {
        var op :| op in x && op.id == id && PassedBetween(w, s, t, op);
        assert op in x + y && PassedBetween(w, s, u, op);
      } else {
        var op :| op in y && op.id == id && PassedBetween(w, t, u, op);
        assert op in x + y && PassedBetween(w, s, u, op);
      }
    }
  }

  /** The same, of more ops. */
  lemma OnlyPassedAmong(a: set<OpId>, b: set<OpId>, x: seq<SignedOp>, y: seq<SignedOp>, w: World, s: nat, t: nat)
    requires OnlyPassed(a, b, x, w, s, t) && forall op | op in x :: op in y
    ensures OnlyPassed(a, b, y, w, s, t)
  {
    hide PassedBetween;
  }

  lemma {:induction false} RunsOnlyPassed(c: Client, runs: seq<Run>, ops: seq<SignedOp>, w: World, tick: nat)
    requires forall i, op | 0 <= i < |runs| && op in runs[i].ops :: op in ops
    ensures var r := AdmitRuns(c, runs, w, tick); OnlyPassed(c.held, r.c.held, ops, w, tick, r.tick) && r.tick >= tick
    decreases |runs|
  {
    hide OnlyPassed;
    if runs == [] {
      NothingPassed(c.held, ops, w, tick);
    } else {
      AdmitOnlyPassed(c.held, runs[0].ops, w, tick);
      hide Admit;
      var r := AdmitRun(c, runs[0], w, tick);
      OnlyPassedAmong(c.held, r.c.held, runs[0].ops, ops, w, tick, r.tick);
      if r.error.None? {
        assert forall i | 0 <= i < |runs| - 1 :: runs[1..][i] == runs[i + 1];
        RunsOnlyPassed(r.c, runs[1..], ops, w, r.tick);
        var r' := AdmitRuns(r.c, runs[1..], w, r.tick);
        OnlyPassedConcat(c.held, r.c.held, r'.c.held, ops, ops, w, tick, r.tick, r'.tick);
        OnlyPassedAmong(c.held, r'.c.held, ops + ops, ops, w, tick, r'.tick);
      }
    }
  }

  lemma NothingPassed(held: set<OpId>, ops: seq<SignedOp>, w: World, tick: nat)
    ensures OnlyPassed(held, held, ops, w, tick, tick)
  {
  }

  lemma {:induction false} RunsHoldEntries(keyed: seq<SignedOp>)
    ensures forall i, op | 0 <= i < |Runs(keyed)| && op in Runs(keyed)[i].ops :: op in keyed
  {
    if keyed != [] {
      var init, last := keyed[..|keyed| - 1], keyed[|keyed| - 1];
      RunsHoldEntries(init);
      assert keyed == init + [last];
    }
  }

  /** Applying a page, whole or in part, adds only ops that were on it and passed their
      checks meanwhile. */
  lemma PageOnlyPassed(c: Client, page: PullPage, w: World, tick: nat)
    ensures var r := ApplyPage(c, page, w, tick);
            OnlyPassed(c.held, r.c.held, Entries(page), w, tick, r.tick) && r.tick >= tick
  {
    hide OnlyPassed;
    hide SeqsAdvance;
    hide OrderError;
    hide Runs;
    hide AdmitRuns;
    var ops := Entries(page);
    NothingPassed(c.held, ops, w, tick);
    var continued := Continued(c.cursor, page.epoch);
    if continued.Some? && SeqsAdvance(page.backfill, continued.value.after) {
      AdmitOnlyPassed(c.held, OpsOf(page.backfill), w, tick);
      hide Admit;
      var (c2, a) := ApplyBackfill(c, continued.value, page.backfill, w, tick);
      OnlyPassedAmong(c.held, c2.held, OpsOf(page.backfill), ops, w, tick, a.tick);
      var c3 := c2.(cursor := Some(Cursor(continued.value.epoch, MaxNat(c2.cursor.value.after, page.nextRelaySeq))));
      RunsHoldEntries(page.keyed);
      RunsOnlyPassed(c3, Runs(page.keyed), ops, w, a.tick);
      var r := AdmitRuns(c3, Runs(page.keyed), w, a.tick);
      OnlyPassedConcat(c.held, c2.held, r.c.held, ops, ops, w, tick, a.tick, r.tick);
      OnlyPassedAmong(c.held, r.c.held, ops + ops, ops, w, tick, r.tick);
    }
  }

  // ---------------------------------------------------------- what is refused

  /** Sequence numbers past `after` that go up from entry to entry. */
  lemma {:induction false} SeqsAdvanceExactly(backfill: seq<(nat, SignedOp)>, after: nat)
    ensures SeqsAdvance(backfill, after) <==>
              && (backfill != [] ==> after < backfill[0].0)
              && forall i | 0 < i < |backfill| :: backfill[i - 1].0 < backfill[i].0
  {
    if backfill != [] {
      var rest := backfill[1..];
      SeqsAdvanceExactly(rest, backfill[0].0);
      if SeqsAdvance(backfill, after) {
        forall i | 0 < i < |backfill|
          ensures backfill[i - 1].0 < backfill[i].0
        {
          assert i > 1 ==> rest[i - 2].0 < rest[i - 1].0;
        }
      }
      if forall i | 0 < i < |backfill| :: backfill[i - 1].0 < backfill[i].0 {
        forall i | 0 < i < |rest|
          ensures rest[i - 1].0 < rest[i].0
        {
          assert backfill[i].0 < backfill[i + 1].0;
        }
        assert rest != [] ==> backfill[0].0 < backfill[1].0;
      }
    }
  }

  /** The origin changes at this entry. */
  predicate Changes(keyed: seq<SignedOp>, i: int) {
    0 < i < |keyed| && keyed[i - 1].device != keyed[i].device
  }

  /** The rule one entry must keep: past its neighbour within an origin, and past the
      neighbour's origin where the origin has changed before. */
  ghost predicate InPlace(keyed: seq<SignedOp>, i: nat)
    requires 0 < i < |keyed|
  {
    if Changes(keyed, i) then (exists j :: j < i && Changes(keyed, j)) ==> keyed[i - 1].device < keyed[i].device
    else Less(keyed[i - 1].Key(), keyed[i].Key())
  }

  lemma ChangesInInit(keyed: seq<SignedOp>, j: int)
    requires keyed != []
    ensures Changes(keyed[..|keyed| - 1], j) <==> Changes(keyed, j) && j < |keyed| - 1
  {
  }

  lemma {:induction false} ManyRunsExactly(keyed: seq<SignedOp>)
    ensures |Runs(keyed)| > 1 <==> exists j :: Changes(keyed, j)
  {
    if keyed != [] {
      var init, last := keyed[..|keyed| - 1], |keyed| - 1;
      ManyRunsExactly(init);
      forall j
        ensures Changes(init, j) <==> Changes(keyed, j) && j < last
      {
        ChangesInInit(keyed, j);
      }
      if init != [] {
        LastRunOrigin(init);
        assert Changes(keyed, last) <==> Runs(init)[|Runs(init)| - 1].origin != keyed[last].device;
      }
      hide Changes;
      assert |Runs(keyed)| > 1 <==> |Runs(init)| > 1 || Changes(keyed, last) by { OneMoreRun(keyed); }
      assert forall j :: Changes(keyed, j) ==> Changes(init, j) || j == last by { ChangesWithin(keyed); }
    }
  }

  lemma ChangesWithin(keyed: seq<SignedOp>)
    requires keyed != []
    ensures forall j :: Changes(keyed, j) ==> Changes(keyed[..|keyed| - 1], j) || j == |keyed| - 1
  {
  }

  lemma OneMoreRun(keyed: seq<SignedOp>)
    requires keyed != []
    ensures |Runs(keyed)| > 1 <==> |Runs(keyed[..|keyed| - 1])| > 1 || Changes(keyed, |keyed| - 1)
  {
    var init := keyed[..|keyed| - 1];
    if init != [] {
      LastRunOrigin(init);
    }
  }

  /** A keyed channel passes the order checks if and only if every entry is in its place. */
  lemma {:induction false} OrderErrorExactly(keyed: seq<SignedOp>)
    ensures OrderError(keyed).None? <==> forall i | 0 < i < |keyed| :: InPlace(keyed, i)
    decreases |keyed|
  {
    hide InPlace;
    hide OrderError;
    if |keyed| > 1 {
      OrderErrorExactly(keyed[..|keyed| - 1]);
      LastEntryDecides(keyed);
      AllInPlace(keyed);
    } else {
      ShortIsOrderly(keyed);
    }
  }

  lemma ShortIsOrderly(keyed: seq<SignedOp>)
    requires |keyed| <= 1
    ensures OrderError(keyed).None?
  {
    assert |keyed| == 1 ==> keyed[..0] == [];
  }

  lemma LastEntryDecides(keyed: seq<SignedOp>)
    requires |keyed| > 1
    ensures OrderError(keyed).None? <==> OrderError(keyed[..|keyed| - 1]).None? && InPlace(keyed, |keyed| - 1)
  {
    hide InPlace;
    hide Runs;
    LastInPlace(keyed);
  }

  lemma AllInPlace(keyed: seq<SignedOp>)
    requires |keyed| > 1
    ensures var init, last := keyed[..|keyed| - 1], |keyed| - 1;
            (forall i | 0 < i < |keyed| :: InPlace(keyed, i)) <==> (forall i | 0 < i < last :: InPlace(init, i)) && InPlace(keyed, last)
  {
    hide InPlace;
    var last := |keyed| - 1;
    forall i | 0 < i < last
      ensures InPlace(keyed, i) <==> InPlace(keyed[..last], i)
    {
      SamePlace(keyed, i);
    }
  }

  lemma LastInPlace(keyed: seq<SignedOp>)
    requires |keyed| > 1
    ensures var init, prev, op := keyed[..|keyed| - 1], keyed[|keyed| - 2], keyed[|keyed| - 1];
            InPlace(keyed, |keyed| - 1) <==>
              if prev.device == op.device then !AtMost(op.Key(), prev.Key()) else |Runs(init)| <= 1 || prev.device < op.device
  {
    hide Runs;
    var init, last := keyed[..|keyed| - 1], |keyed| - 1;
    ManyRunsExactly(init);
    forall j
      ensures Changes(init, j) <==> Changes(keyed, j) && j < last
    {
      ChangesInInit(keyed, j);
    }
  }

  lemma SamePlace(keyed: seq<SignedOp>, i: nat)
    requires 0 < i < |keyed| - 1
    ensures InPlace(keyed, i) <==> InPlace(keyed[..|keyed| - 1], i)
  {
    var init := keyed[..|keyed| - 1];
    forall j
      ensures Changes(init, j) <==> Changes(keyed, j) && j < |keyed| - 1
    {
      ChangesInInit(keyed, j);
    }
  }

  /** A page of another stream, with numbers that do not advance or entries out of place is
      refused; only ops of channel B are taken from one whose channel A is disorderly, and
      nothing from the others. */
  lemma DisorderIsRefused(c: Client, page: PullPage, w: World, tick: nat)
    ensures var r := ApplyPage(c, page, w, tick);
            && (c.cursor.Some? && c.cursor.value.epoch != page.epoch ==> r.error == Some(EpochChanged) && r.c == c)
            && (r.error.None? ==>
                  && r.c.cursor.Some? && r.c.cursor.value.epoch == page.epoch
                  && (forall i | 0 < i < |page.backfill| :: page.backfill[i - 1].0 < page.backfill[i].0)
                  && forall i | 0 < i < |page.keyed| :: InPlace(page.keyed, i))
            && (r.error == Some(NonAdvancing) ==> r.c.held == c.held && r.c.claims == c.claims)
            && (r.error in {Some(NonAscending), Some(OutOfOrder)} ==> r.c.claims == c.claims)
  {
    hide Admit;
    hide Runs;
    var continued := Continued(c.cursor, page.epoch);
    if continued.Some? {
      SeqsAdvanceExactly(page.backfill, continued.value.after);
      OrderErrorExactly(page.keyed);
      hide SeqsAdvance;
      hide InPlace;
      var (c2, a) := ApplyBackfill(c, continued.value, page.backfill, w, tick);
      var c3 := c2.(cursor := Some(Cursor(continued.value.epoch, MaxNat(c2.cursor.value.after, page.nextRelaySeq))));
      RunsKeepCursor(c3, Runs(page.keyed), w, a.tick);
      OrderErrorKinds(page.keyed);
      hide OrderError;
    }
  }

  lemma {:induction false} OrderErrorKinds(keyed: seq<SignedOp>)
    ensures OrderError(keyed) in {None, Some(NonAscending), Some(OutOfOrder)}
  {
    if keyed != [] {
      OrderErrorKinds(keyed[..|keyed| - 1]);
    }
  }

  lemma {:induction false} RunsKeepCursor(c: Client, runs: seq<Run>, w: World, tick: nat)
    ensures var r := AdmitRuns(c, runs, w, tick); r.c.cursor == c.cursor && r.error in {None, Some(Rejected)}
    decreases |runs|
  {
    hide Admit;
    if runs != [] {
      var r := AdmitRun(c, runs[0], w, tick);
      RunsKeepCursor(r.c, runs[1..], w, r.tick);
    }
  }

  // -------------------------------------------------------------------- resets

  /** `validate_pull_reset`: the replacement cursor, or nothing. */
  function ValidateReset(req: PullRequest, page: PullPage): Option<Cursor> {
    if !page.reset || page.floor > page.headSeq then None
    else if page.backfill != [] || page.keyed != [] || page.nextRelaySeq != 0 || page.resume.Some?
            || page.complete || page.snapshotRecommended || page.store.Some? then None
    else if !PullNeedsReset(req.relayEpoch, req.relayAfter, StreamState(page.epoch, page.headSeq, page.floor)) then None
    else Some(Cursor(page.epoch, page.floor))
  }

  /** A server resets exactly the cursors the puller's own check refuses; the puller
      accepts each such reset, and the cursor it installs needs no second one. */
  lemma ResetAgreement(s: StreamState, req: PullRequest)
    requires s.epoch != 0 && s.floor <= s.head
    ensures ValidateReset(req, ResetPage(s)).Some? <==> PullNeedsReset(req.relayEpoch, req.relayAfter, s)
    ensures PullNeedsReset(req.relayEpoch, req.relayAfter, s) ==>
              var cur := ValidateReset(req, ResetPage(s)).value;
              cur == Cursor(s.epoch, s.floor) && !PullNeedsReset(cur.epoch, cur.after, s)
  {
  }

  /** On a log's own pages: a reset page is sent exactly when the check asks for one. */
  lemma ResetExactlyWhenInvalid(log: Log, own: DeviceId, req: PullRequest)
    requires req.store.None?
    ensures PageFor(log, own, req).reset <==> PullNeedsReset(req.relayEpoch, req.relayAfter, StateOf(log))
  {
  }

  // ------------------------------------------------------------ the real thing

  /** `OpLogPullSocket` for one peer. Its store is left out; only the outcome of
      replaying into it matters here. */
  class Socket {
    const log: OpLog
    var coverage: Claims
    var savedCursor: Option<Cursor>

    ghost predicate Valid()
      reads this, log
    {
      log.Valid()
    }

    ghost function View(cursor: Option<Cursor>): Client
      reads this, log
    {
      Client(log.ids, coverage, cursor)
    }

    constructor (log: OpLog)
      requires log.Valid()
      ensures Valid() && this.log == log && coverage == map[] && savedCursor == None
    {
      this.log := log;
      coverage := map[];
      savedCursor := None;
    }

    method AdvanceLocalCoverage(origin: DeviceId, key: OrderKey)
      requires Valid()
      modifies this`coverage
      ensures Valid() && coverage == Raise(old(coverage), origin, key)
    {
      if origin in coverage {
        if Less(coverage[origin], key) {
          coverage := coverage[origin := key];
        }
      } else {
        coverage := coverage[origin := key];
      }
      assert coverage == Raise(old(coverage), origin, key);
    }

    /** Monotone within an epoch; a different epoch replaces. */
    method SaveRelayCursor(cursor: Cursor)
      requires Valid()
      modifies this`savedCursor
      ensures Valid()
      ensures savedCursor == Some(
        if old(savedCursor).Some? && old(savedCursor).value.epoch == cursor.epoch
        then Cursor(cursor.epoch, MaxNat(old(savedCursor).value.after, cursor.after)) else cursor)
    {
      if savedCursor.Some? && savedCursor.value.epoch == cursor.epoch {
        savedCursor := Some(Cursor(cursor.epoch, MaxNat(savedCursor.value.after, cursor.after)));
      } else {
        savedCursor := Some(cursor);
      }
    }

    method ResetRelayCursor(cursor: Cursor)
      requires Valid()
      modifies this`savedCursor
      ensures Valid() && savedCursor == Some(cursor)
    {
      savedCursor := Some(cursor);
    }

    method AdmitOps(ops: seq<SignedOp>, w: World, tick: nat) returns (admitted: nat, failed: bool, tick': nat)
      requires Valid()
      modifies log
      ensures Valid()
      ensures Admission(log.ids, admitted, failed, tick') == Admit(old(log.ids), ops, w, tick)
    {
      hide Appended;
      hide Ascending;
      hide DistinctIds;
      hide Ids;
      hide FirstIds;
      assert FirstIds(ops, 0) == {} by { FirstIdsNone(ops); }
      admitted, failed := 0, false;
      var appended := false;
      while admitted < |ops|
        invariant Valid() && admitted <= |ops|
        invariant AcceptedCount(ops, w, tick) == admitted + AcceptedCount(ops[admitted..], w, tick + admitted)
        invariant log.ids == old(log.ids) + FirstIds(ops, admitted)
        invariant appended <==> log.ids != old(log.ids)
      {
        assert ops[admitted..][1..] == ops[admitted + 1..];
        if !w.accepts(tick + admitted, ops[admitted]) {
          failed := true;
          break;
        }
        FirstIdsStep(ops, admitted);
        var isNew := log.Append(ops[admitted]);
        appended := appended || isNew;
        admitted := admitted + 1;
      }
      if appended && !w.replays(tick + admitted) {
        failed := true;
      }
      tick' := tick + admitted + 1;
    }
  }

  /** Grouping and checking the keyed entries in one pass. */
  method GroupRuns(keyed: seq<SignedOp>) returns (runs: seq<Run>, error: Option<PullError>)
    ensures error == OrderError(keyed)
    ensures error.None? ==> runs == Runs(keyed)
  {
    runs, error := [], None;
    for i := 0 to |keyed|
      invariant runs == Runs(keyed[..i])
      invariant OrderError(keyed[..i]) == None
    {
      var op := keyed[i];
      assert keyed[..i + 1][..i] == keyed[..i];
      if i > 0 {
        LastRunOrigin(keyed[..i]);
        var origin := runs[|runs| - 1].origin;
        if origin == op.device {
          if AtMost(op.Key(), keyed[i - 1].Key()) {
            OrderErrorStays(keyed, i + 1);
            return runs, Some(NonAscending);
          }
        } else if |runs| > 1 && op.device < origin {
          OrderErrorStays(keyed, i + 1);
          return runs, Some(OutOfOrder);
        }
      }
      runs := WithEntry(runs, op);
    }
    assert keyed[..|keyed|] == keyed;
  }

  lemma LastRunOrigin(keyed: seq<SignedOp>)
    requires keyed != []
    ensures Runs(keyed) != [] && Runs(keyed)[|Runs(keyed)| - 1].origin == keyed[|keyed| - 1].device
  {
  }

  lemma {:induction false} OrderErrorStays(keyed: seq<SignedOp>, n: nat)
    requires n <= |keyed| && OrderError(keyed[..n]).Some?
    ensures OrderError(keyed) == OrderError(keyed[..n])
  {
    if n == |keyed| {
      assert keyed[..n] == keyed;
    } else {
      var init := keyed[..|keyed| - 1];
      assert init[..n] == keyed[..n];
      OrderErrorStays(init, n);
    }
  }

  /** The sequence check of `apply_pull_page`. */
  method CheckSeqs(backfill: seq<(nat, SignedOp)>, after: nat) returns (ok: bool)
    ensures ok == SeqsAdvance(backfill, after)
  {
    var last := after;
    for i := 0 to |backfill|
      invariant SeqsAdvance(backfill, after) == SeqsAdvance(backfill[i..], last)
    {
      if backfill[i].0 <= last {
        return false;
      }
      assert backfill[i..][1..] == backfill[i + 1..];
      last := backfill[i].0;
    }
    ok := true;
  }

  /** Run by run admission of the keyed channel. */
  method ApplyRuns(socket: Socket, cursor: Option<Cursor>, runs: seq<Run>, w: World, tick: nat)
    returns (error: Option<PullError>, tick': nat)
    requires socket.Valid()
    modifies socket`coverage, socket.log
    ensures socket.Valid()
    ensures Applied(socket.View(cursor), error, tick') == AdmitRuns(old(socket.View(cursor)), runs, w, tick)
  {
    tick' := tick;
    var i := 0;
    while i < |runs|
      invariant 0 <= i <= |runs| && socket.Valid()
      invariant AdmitRuns(old(socket.View(cursor)), runs, w, tick) == AdmitRuns(socket.View(cursor), runs[i..], w, tick')
    {
      var run := runs[i];
      ghost var before, at := socket.View(cursor), tick';
      assert runs[i..][1..] == runs[i + 1..];
      var admitted, failed;
      admitted, failed, tick' := socket.AdmitOps(run.ops, w, tick');
      if admitted > 0 {
        socket.AdvanceLocalCoverage(run.origin, run.ops[admitted - 1].Key());
      }
      assert Applied(socket.View(cursor), if failed then Some(Rejected) else None, tick') == AdmitRun(before, run, w, at);
      if failed {
        return Some(Rejected), tick';
      }
      i := i + 1;
    }
    error := None;
  }

  /** `apply_pull_page`: the in-memory cursor and the saved one move together. */
  method ApplyPullPage(socket: Socket, cursor: Option<Cursor>, page: PullPage, w: World, tick: nat)
    returns (cursor': Option<Cursor>, error: Option<PullError>, tick': nat)
    requires socket.Valid() && socket.savedCursor == cursor
    modifies socket, socket.log
    ensures socket.Valid() && socket.savedCursor == cursor'
    ensures Applied(socket.View(cursor'), error, tick') == ApplyPage(old(socket.View(cursor)), page, w, tick)
  {
    hide AdmitRuns;
    hide Admit;
    hide OrderError;
    hide Runs;
    hide SeqsAdvance;
    cursor', tick' := cursor, tick;
    var continued := Continued(cursor, page.epoch);
    if continued.None? {
      return cursor', Some(EpochChanged), tick';
    }
    var current := continued.value;
    socket.SaveRelayCursor(current);
    cursor' := Some(current);
    var ok := CheckSeqs(page.backfill, current.after);
    if !ok {
      return cursor', Some(NonAdvancing), tick';
    }
    var admitted, failed;
    admitted, failed, tick' := socket.AdmitOps(OpsOf(page.backfill), w, tick');
    if admitted > 0 {
      SeqsAdvanceAll(page.backfill, current.after, admitted - 1);
      current := Cursor(current.epoch, page.backfill[admitted - 1].0);
      cursor' := Some(current);
      socket.SaveRelayCursor(current);
    }
    if failed {
      return cursor', Some(Rejected), tick';
    }
    var next := Cursor(current.epoch, MaxNat(current.after, page.nextRelaySeq));
    socket.SaveRelayCursor(next);
    cursor' := Some(next);
    var runs, disorder := GroupRuns(page.keyed);
    if disorder.Some? {
      return cursor', disorder, tick';
    }
    error, tick' := ApplyRuns(socket, cursor', runs, w, tick');
  }

  lemma {:induction false} SeqsAdvanceAll(backfill: seq<(nat, SignedOp)>, after: nat, i: nat)
    requires SeqsAdvance(backfill, after) && i < |backfill|
    ensures after < backfill[i].0
  {
    if i > 0 {
      SeqsAdvanceAll(backfill[1..], backfill[0].0, i - 1);
    }
  }
}
