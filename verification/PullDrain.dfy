/** A multi-page drain (src/net/pull_client.rs, `drain_pull_pages`), as one puller
    against one server whose log may grow or be replaced between any two steps. */
module PullDrain {
  import opened OrderKeys
  import opened Logs
  import opened PullServer
  import opened PullPages
  import opened PullClient
  import opened PullLink

  const PULL_NO_PROGRESS_LIMIT := 2

  /** What stall detection compares between pages. */
  datatype Progress = Progress(after: nat, resume: Option<Resume>)

  datatype Status = Running | Drained | Failed(error: PullError)

  datatype Drain = Drain(c: Client, resume: Option<Resume>, resetSeen: bool, stalled: nat, last: Option<Progress>, status: Status)

  function NewDrain(c: Client): Drain {
    Drain(c, None, false, 0, None, Running)
  }

  function AfterOf(cursor: Option<Cursor>): nat {
    if cursor.Some? then cursor.value.after else 0
  }

  function RequestOf(d: Drain): PullRequest {
    PullRequest(d.c.claims, if d.c.cursor.Some? then d.c.cursor.value.epoch else 0, AfterOf(d.c.cursor),
                d.resume, PAGE_LIMIT_MAX, false, None)
  }

  /** A reset page: at most one per drain, and only if the request called for it. */
  function TakeReset(d: Drain, page: PullPage): Drain {
    if d.resetSeen then d.(status := Failed(RepeatedReset))
    else
      match ValidateReset(RequestOf(d), page)
      case None => d.(resetSeen := true, status := Failed(BadReset))
      case Some(cursor) => d.(c := d.c.(cursor := Some(cursor)), resume := None, resetSeen := true)
  }

  /** Stall detection over the token a page left. */
  function NoteProgress(d: Drain): Drain {
    var progress := Progress(AfterOf(d.c.cursor), d.resume);
    if d.last == Some(progress) then
      if d.stalled + 1 >= PULL_NO_PROGRESS_LIMIT then d.(stalled := d.stalled + 1, status := Failed(Stalled))
      else d.(stalled := d.stalled + 1)
    else d.(stalled := 0, last := Some(progress))
  }

  /** One turn of the loop, once the answer to `RequestOf(d)` is in. */
  function Deliver(d: Drain, page: PullPage, w: World, tick: nat): Drain {
    if page.reset then TakeReset(d, page)
    else
      var r := ApplyPage(d.c, page, w, tick);
      if r.error.Some? then d.(c := r.c, status := Failed(r.error.value))
      else if page.complete then
        if d.resume.None? then d.(c := r.c, status := Drained) else d.(c := r.c, resume := None)
      else NoteProgress(d.(c := r.c, resume := page.resume))
  }

  // ------------------------------------------------------------- against any peer

  /** A page from a peer that may send anything, and what the checks say meanwhile. */
  datatype Feed = Feed(page: PullPage, w: World, tick: nat)

  /** A drain from its first request on, fed these pages. */
  ghost predicate IsDrain(run: seq<Drain>, feed: seq<Feed>) {
    && |run| == |feed| + 1 && run[0] == NewDrain(run[0].c)
    && forall i | 0 <= i < |feed| ::
         run[i].status.Running? && run[i + 1] == Deliver(run[i], feed[i].page, feed[i].w, feed[i].tick)
  }

  /** Where each incomplete page that went through left the drain. */
  ghost function Marks(run: seq<Drain>, feed: seq<Feed>): seq<Progress>
    requires |run| == |feed| + 1
  {
    if feed == [] then []
    else
      var n := |feed| - 1;
      var d, page := run[n + 1], feed[n].page;
      Marks(run[..n + 1], feed[..n])
      + (if page.reset || page.complete || !(d.status in {Running, Failed(Stalled)}) then [] else [Progress(AfterOf(d.c.cursor), d.resume)])
  }

  /** The last three are one. */
  ghost predicate Stuck(marks: seq<Progress>) {
    var n := |marks|;
    n >= 3 && marks[n - 3] == marks[n - 2] == marks[n - 1]
  }

  /** What stall detection remembers of them. */
  ghost predicate Remembers(d: Drain, marks: seq<Progress>) {
    var n := |marks|;
    && d.last == (if n == 0 then None else Some(marks[n - 1]))
    && d.stalled == (if n >= 2 && marks[n - 2] == marks[n - 1] then 1 else 0)
    && !Stuck(marks)
  }

  lemma {:induction false} RunsOnlyReject(c: Client, runs: seq<Run>, w: World, tick: nat)
    ensures AdmitRuns(c, runs, w, tick).error in {None, Some(Rejected)}
    decreases |runs|
  {
    if runs != [] {
      var r := AdmitRun(c, runs[0], w, tick);
      RunsOnlyReject(r.c, runs[1..], w, r.tick);
    }
  }

  /** Stall detection is the drain's own. */
  lemma ApplyNeverStalls(c: Client, page: PullPage, w: World, tick: nat)
    ensures ApplyPage(c, page, w, tick).error != Some(Stalled)
  {
    hide Admit;
    hide Runs;
    hide OrderError;
    hide SeqsAdvance;
    hide AdmitRuns;
    OrderErrorKinds(page.keyed);
    forall c', tick'
      ensures AdmitRuns(c', Runs(page.keyed), w, tick').error != Some(Stalled)
    {
      RunsOnlyReject(c', Runs(page.keyed), w, tick');
    }
  }

  /** One page, whatever is on it. */
  lemma DeliverRemembers(d: Drain, f: Feed, marks: seq<Progress>)
    requires d.status.Running? && Remembers(d, marks)
    ensures var d' := Deliver(d, f.page, f.w, f.tick);
            var marks' := marks
                          + (if f.page.reset || f.page.complete || !(d'.status in {Running, Failed(Stalled)}) then []
                             else [Progress(AfterOf(d'.c.cursor), d'.resume)]);
            if d'.status == Failed(Stalled) then Stuck(marks') else Remembers(d', marks')
  {
    hide ApplyPage;
    hide ValidateReset;
    ApplyNeverStalls(d.c, f.page, f.w, f.tick);
  }

  lemma {:induction false} DrainRemembers(run: seq<Drain>, feed: seq<Feed>)
    requires IsDrain(run, feed)
    ensures var d := run[|feed|]; if d.status == Failed(Stalled) then Stuck(Marks(run, feed)) else Remembers(d, Marks(run, feed))
    decreases |feed|
  {
    hide Deliver;
    hide Remembers;
    hide Stuck;
    var n := |feed| - 1;
    if n < 0 {
      NewRemembers(run[0].c);
    } else {
      ShorterDrain(run, feed);
      DrainRemembers(run[..n + 1], feed[..n]);
      assert run[n].status.Running? && run[n + 1] == Deliver(run[n], feed[n].page, feed[n].w, feed[n].tick);
      DeliverRemembers(run[n], feed[n], Marks(run[..n + 1], feed[..n]));
    }
  }

  lemma NewRemembers(c: Client)
    ensures Remembers(NewDrain(c), [])
  {
  }

  lemma ShorterDrain(run: seq<Drain>, feed: seq<Feed>)
    requires IsDrain(run, feed) && feed != []
    ensures IsDrain(run[..|feed|], feed[..|feed| - 1])
  {
    hide Deliver;
    var fewer, less := run[..|feed|], feed[..|feed| - 1];
    forall i | 0 <= i < |less|
      ensures fewer[i].status.Running? && fewer[i + 1] == Deliver(fewer[i], less[i].page, less[i].w, less[i].tick)
    {
      assert run[i].status.Running? && run[i + 1] == Deliver(run[i], feed[i].page, feed[i].w, feed[i].tick);
      assert fewer[i] == run[i] && fewer[i + 1] == run[i + 1] && less[i] == feed[i];
    }
  }

  /** Whatever a peer sends, a drain gives up for want of progress if and only if the last
      three incomplete pages left it at one position with one token. */
  lemma StallIsNoticedExactly(run: seq<Drain>, feed: seq<Feed>)
    requires IsDrain(run, feed)
    ensures run[|feed|].status == Failed(Stalled) <==> Stuck(Marks(run, feed))
  {
    DrainRemembers(run, feed);
  }

  lemma {:induction false} ResetIsRemembered(run: seq<Drain>, feed: seq<Feed>, i: nat, j: nat)
    requires IsDrain(run, feed) && i < j <= |feed| && feed[i].page.reset
    ensures run[j].resetSeen || run[j].status.Failed?
    decreases j
  {
    hide ApplyPage;
    hide ValidateReset;
    assert run[j - 1].status.Running? && run[j - 1 + 1] == Deliver(run[j - 1], feed[j - 1].page, feed[j - 1].w, feed[j - 1].tick);
    if i < j - 1 {
      ResetIsRemembered(run, feed, i, j - 1);
    }
  }

  /** Whatever a peer sends, a second reset ends the drain. */
  lemma OneResetPerDrain(run: seq<Drain>, feed: seq<Feed>, i: nat, j: nat)
    requires IsDrain(run, feed) && i < j < |feed| && feed[i].page.reset && feed[j].page.reset
    ensures run[j + 1].status == Failed(RepeatedReset)
  {
    hide ApplyPage;
    hide ValidateReset;
    ResetIsRemembered(run, feed, i, j);
    assert run[j].status.Running? && run[j + 1] == Deliver(run[j], feed[j].page, feed[j].w, feed[j].tick);
  }

  // --------------------------------------------------------- drain invariants

  /** The puller's durable state is in order with respect to one snapshot. */
  ghost predicate Sound(log: Log, c: Client) {
    && FiledClaims(c.claims)
    && (c.cursor.Some? ==> c.cursor.value.epoch != 0)
    && Position(c.cursor, log.epoch) <= log.Head()
    && Safe(log, c)
  }

  /** The remembered progress has been left behind. */
  ghost predicate Behind(last: Option<Progress>, c: Client) {
    match last
    case None => true
    case Some(Progress(_, None)) => false
    case Some(Progress(_, Some(Backfill(s)))) => s <= AfterOf(c.cursor)
    case Some(Progress(_, Some(Keyed(_, key)))) => key.Some? && Covers(c.claims, key.value)
  }

  /** Only a reset can move the cursor back behind the remembered progress, and a drain
      takes one reset. */
  ghost predicate Moving(d: Drain) {
    || (d.stalled == 0 && (d.resetSeen || Behind(d.last, d.c)))
    || (d.stalled == 1 && d.resetSeen && Behind(d.last, d.c))
  }

  /** A running drain, as it stands between pages. */
  ghost predicate Ready(d: Drain) {
    Coherent(d.resume, d.c.claims, AfterOf(d.c.cursor)) && Moving(d)
  }

  lemma FiledClaimsDecode(claims: Claims)
    requires FiledClaims(claims)
    ensures DecodeCoverage(claims) == claims
  {
  }

  /** What the server's answer to a drain's request is. */
  lemma AnswerIsHonest(snap: Log, own: DeviceId, d: Drain)
    requires snap.Valid() && Sound(snap, d.c) && Ready(d)
    ensures var page := PageFor(snap, own, RequestOf(d));
            if d.c.cursor.None? || d.c.cursor.value.epoch == snap.epoch then
              HonestPage(snap, d.c.claims, Position(d.c.cursor, snap.epoch), d.resume.None?, page)
            else page == ResetPage(StateOf(snap))
  {
    hide Safe;
    hide Moving;
    hide HonestPage;
    hide KeyedChannel;
    hide BackfillPage;
    FiledClaimsDecode(d.c.claims);
    if d.c.cursor.None? || d.c.cursor.value.epoch == snap.epoch {
      PageIsHonest(snap, own, RequestOf(d));
    }
  }

  lemma StaysFiled(log: Log, c: Client, page: PullPage, r: Applied)
    requires FiledClaims(c.claims) && PageEffect(log, c, page, r)
    ensures FiledClaims(r.c.claims)
  {
  }

  lemma BehindStays(log: Log, c: Client, page: PullPage, r: Applied, last: Option<Progress>)
    requires PageEffect(log, c, page, r) && (c.cursor.None? || c.cursor.value.epoch == log.epoch)
    ensures Behind(last, c) ==> Behind(last, r.c)
  {
  }

  /** Every token is new: a keyed one names a key the claims did not cover, a
      positional one lies past the cursor. */
  lemma PageMovesOn(log: Log, c: Client, page: PullPage, fresh': bool, last: Option<Progress>, after: nat)
    requires HonestPage(log, c.claims, Position(c.cursor, log.epoch), fresh', page) && page.resume.Some?
    requires c.cursor.None? || c.cursor.value.epoch == log.epoch
    requires Behind(last, c)
    ensures last != Some(Progress(after, page.resume))
  {
  }

  /** Stall detection never fires after an honest page. */
  lemma ProgressNoted(d: Drain, c: Client)
    requires d.resume.Some? && Coherent(d.resume, d.c.claims, AfterOf(d.c.cursor))
    requires d.status.Running? && d.stalled <= (if d.resetSeen then 1 else 0)
    requires d.stalled > 0 || !d.resetSeen ==> d.last != Some(Progress(AfterOf(d.c.cursor), d.resume))
    ensures var d' := NoteProgress(d);
            d'.status.Running? && Ready(d') && d'.c == d.c && d'.resume == d.resume && d'.resetSeen == d.resetSeen
  {
  }

  /** The outcome of one turn against snapshot `snap`. */
  ghost predicate TurnEffect(snap: Log, d: Drain, d': Drain) {
    && Sound(snap, d'.c)
    && d.c.held <= d'.c.held
    && (d'.status.Running? ==> Ready(d') && d'.c.cursor.Some? && d'.c.cursor.value.epoch == snap.epoch)
    && (d'.status.Drained? ==> HoldsAll(snap, d'.c))
    && (d'.status.Failed? ==>
          || d'.status.error.Rejected?
          || (d'.status.error.RepeatedReset? && d.resetSeen && d'.resetSeen && d.c.cursor.Some? && d.c.cursor.value.epoch != snap.epoch))
    && (d'.c == d.c || (d'.c.cursor.Some? && d'.c.cursor.value.epoch == snap.epoch))
  }

  lemma ResetTurn(snap: Log, d: Drain)
    requires snap.Valid() && Sound(snap, d.c) && Ready(d) && d.status.Running?
    requires d.c.cursor.Some? && d.c.cursor.value.epoch != snap.epoch
    ensures TurnEffect(snap, d, TakeReset(d, ResetPage(StateOf(snap))))
  {
  }

  /** What a page leaves behind, as far as the loop is concerned. */
  ghost predicate PageLeaves(snap: Log, d: Drain, page: PullPage, r: Applied) {
    && !page.reset && page.complete == page.resume.None?
    && Sound(snap, r.c) && d.c.held <= r.c.held
    && r.c.cursor.Some? && r.c.cursor.value.epoch == snap.epoch
    && r.error in {None, Some(Rejected)}
    && (r.error.None? ==>
          && Coherent(page.resume, r.c.claims, AfterOf(r.c.cursor))
          && (page.complete && d.resume.None? ==> HoldsAll(snap, r.c))
          && (Behind(d.last, d.c) ==> Behind(d.last, r.c))
          && (page.resume.Some? && Behind(d.last, d.c) ==> d.last != Some(Progress(AfterOf(r.c.cursor), page.resume))))
  }

  lemma PageGoesIn(snap: Log, d: Drain, page: PullPage, w: World, tick: nat)
    requires snap.Valid() && Sound(snap, d.c) && (d.c.cursor.None? || d.c.cursor.value.epoch == snap.epoch)
    requires HonestPage(snap, d.c.claims, Position(d.c.cursor, snap.epoch), d.resume.None?, page)
    ensures PageLeaves(snap, d, page, ApplyPage(d.c, page, w, tick))
  {
    hide ApplyPage;
    hide Safe;
    hide RaisedBy;
    hide HoldsAll;
    hide Coherent;
    hide Behind;
    hide FiledClaims;
    hide HoldsCovered;
    hide FirstIds;
    hide HonestPage;
    var r := ApplyPage(d.c, page, w, tick);
    ApplyHonestPage(snap, d.c, page, d.resume.None?, w, tick);
    HonestPageShape(snap, d.c.claims, Position(d.c.cursor, snap.epoch), d.resume.None?, page);
    StaysFiled(snap, d.c, page, r);
    if r.error.None? {
      ResumeIsCoherent(snap, d.c, page, d.resume.None?, r);
      BehindStays(snap, d.c, page, r, d.last);
      if page.complete && d.resume.None? {
        CompletePageHoldsAll(snap, d.c, page, r);
      }
      if page.resume.Some? && Behind(d.last, d.c) {
        PageMovesOn(snap, d.c, page, d.resume.None?, d.last, AfterOf(r.c.cursor));
      }
    }
  }

  lemma HonestPageShape(log: Log, claims: Claims, after: nat, fresh': bool, page: PullPage)
    requires HonestPage(log, claims, after, fresh', page)
    ensures !page.reset && page.complete == page.resume.None?
  {
  }

  lemma DataTurn(snap: Log, d: Drain, page: PullPage, w: World, tick: nat)
    requires snap.Valid() && Sound(snap, d.c) && Ready(d) && d.status.Running?
    requires d.c.cursor.None? || d.c.cursor.value.epoch == snap.epoch
    requires HonestPage(snap, d.c.claims, Position(d.c.cursor, snap.epoch), d.resume.None?, page)
    ensures TurnEffect(snap, d, Deliver(d, page, w, tick))
  {
    hide HonestPage;
    hide Sound;
    hide HoldsAll;
    hide Coherent;
    hide Behind;
    hide NoteProgress;
    hide ApplyPage;
    PageGoesIn(snap, d, page, w, tick);
    var r := ApplyPage(d.c, page, w, tick);
    if r.error.None? && !page.complete {
      ProgressNoted(d.(c := r.c, resume := page.resume), r.c);
    }
    if r.error.None? && page.complete {
      FreshIsCoherent(r.c);
    }
  }

  lemma FreshIsCoherent(c: Client)
    ensures Coherent(None, c.claims, AfterOf(c.cursor))
  {
  }

  /** One turn against any snapshot of an honest server. */
  lemma Turn(snap: Log, own: DeviceId, d: Drain, w: World, tick: nat)
    requires snap.Valid() && Sound(snap, d.c) && Ready(d) && d.status.Running?
    ensures TurnEffect(snap, d, Deliver(d, PageFor(snap, own, RequestOf(d)), w, tick))
  {
    hide Sound;
    hide Ready;
    hide TurnEffect;
    hide PageFor;
    hide HonestPage;
    hide TakeReset;
    hide ApplyPage;
    AnswerIsHonest(snap, own, d);
    if d.c.cursor.None? || d.c.cursor.value.epoch == snap.epoch {
      DataTurn(snap, d, PageFor(snap, own, RequestOf(d)), w, tick);
    } else {
      ResetTurn(snap, d);
    }
  }

  // ------------------------------------------------------------ one link's runs

  /** Between the two ends: nothing, a request, or the answer built from a snapshot. */
  datatype Flight = Idle | Asked | Answered(snap: Log)

  /** `used` are the epochs the server's streams have had; `source` is the snapshot the
      last page of a finished drain was built from. */
  datatype Link = Link(log: Log, used: set<Epoch>, d: Drain, flight: Flight, source: Option<Log>)

  datatype Step =
    | Append(op: SignedOp)                  // the server learns an op
    | Restart(stream: Log)                   // the server comes back with a new stream
    | Ask                                   // the puller sends its request
    | Answer                                // the server builds the page
    | Arrive(w: World, tick: nat)           // the page reaches the puller
    | Again                                 // a new drain, whatever became of the last
    | Gain(ids: set<OpId>)                  // ops from elsewhere: previews, local writes

  ghost predicate Enabled(l: Link, s: Step) {
    match s
    case Restart(stream) => stream.Valid() && stream.epoch !in l.used
    case Ask => l.d.status.Running? && l.flight.Idle?
    case Answer => l.flight.Asked?
    case Arrive(_, _) => l.flight.Answered?
    case _ => true
  }

  ghost function Next(l: Link, own: DeviceId, s: Step): Link
    requires Enabled(l, s)
  {
    match s
    case Append(op) => l.(log := Appended(l.log, op))
    case Restart(stream) => l.(log := stream, used := l.used + {stream.epoch})
    case Ask => l.(flight := Asked)
    case Answer => l.(flight := Answered(l.log))
    case Arrive(w, tick) =>
      var d' := Deliver(l.d, PageFor(l.flight.snap, own, RequestOf(l.d)), w, tick);
      l.(d := d', flight := Idle, source := if d'.status.Drained? then Some(l.flight.snap) else None)
    case Again => l.(d := NewDrain(l.d.c), flight := Idle, source := None)
    case Gain(ids) => l.(d := l.d.(c := l.d.c.(held := l.d.c.held + ids)))
  }

  /** A puller without a cursor, whatever it holds and claims. */
  ghost predicate Start(l: Link) {
    && l.log.Valid() && l.used == {l.log.epoch}
    && l.d == NewDrain(l.d.c) && l.d.c.cursor == None && FiledClaims(l.d.c.claims)
    && l.flight == Idle && l.source == None
  }

  /** What every reachable state satisfies. */
  ghost predicate Inv(l: Link) {
    && l.log.Valid() && l.log.epoch in l.used
    && Sound(l.log, l.d.c)
    && (l.d.c.cursor.Some? ==> l.d.c.cursor.value.epoch in l.used)
    && (l.d.status.Running? ==> Ready(l.d))
    && (l.flight.Answered? ==>
          && l.flight.snap.Valid() && l.flight.snap.epoch in l.used
          && Sound(l.flight.snap, l.d.c)
          && (l.flight.snap.epoch == l.log.epoch ==> Extends(l.log, l.flight.snap)))
    && (!l.flight.Idle? ==> l.d.status.Running?)
    && (l.d.status.Drained? ==> l.source.Some? && HoldsAll(l.source.value, l.d.c))
    && (l.d.status.Failed? ==> l.d.status.error.Rejected? || (l.d.status.error.RepeatedReset? && l.d.resetSeen))
  }

  ghost predicate IsRun(run: seq<Link>, own: DeviceId) {
    && run != [] && Start(run[0])
    && forall i | 0 <= i < |run| - 1 :: Follows(run[i], run[i + 1], own)
  }

  ghost predicate Follows(l: Link, l': Link, own: DeviceId) {
    exists s :: Enabled(l, s) && l' == Next(l, own, s)
  }

  lemma SoundInExtension(snap: Log, log: Log, c: Client)
    requires Extends(log, snap) && Sound(snap, c)
    ensures Sound(log, c)
  {
  }

  /** A stream the cursor does not belong to starts from nothing. */
  lemma SoundElsewhere(log: Log, c: Client)
    requires FiledClaims(c.claims) && (c.cursor.Some? ==> c.cursor.value.epoch !in {0, log.epoch})
    ensures Sound(log, c)
  {
  }

  lemma AppendKeepsInv(l: Link, own: DeviceId, op: SignedOp)
    requires Inv(l)
    ensures Inv(Next(l, own, Append(op)))
  {
    hide Sound;
    hide Ready;
    hide HoldsAll;
    hide Appended;
    AppendedKeepsValid(l.log, op);
    SoundInExtension(l.log, Appended(l.log, op), l.d.c);
  }

  lemma RestartKeepsInv(l: Link, own: DeviceId, stream: Log)
    requires Inv(l) && Enabled(l, Restart(stream))
    ensures Inv(Next(l, own, Restart(stream)))
  {
  }

  lemma ArriveKeepsInv(l: Link, own: DeviceId, w: World, tick: nat)
    requires Inv(l) && Enabled(l, Arrive(w, tick))
    ensures Inv(Next(l, own, Arrive(w, tick)))
  {
    hide Ready;
    hide HoldsAll;
    hide Safe;
    hide Deliver;
    hide PageFor;
    hide FiledClaims;
    var snap := l.flight.snap;
    Turn(snap, own, l.d, w, tick);
    var d' := Deliver(l.d, PageFor(snap, own, RequestOf(l.d)), w, tick);
    if snap.epoch == l.log.epoch {
      SoundInExtension(snap, l.log, d'.c);
    } else if d'.c != l.d.c {
      SoundElsewhere(l.log, d'.c);
    }
  }

  lemma GainKeepsInv(l: Link, own: DeviceId, ids: set<OpId>)
    requires Inv(l)
    ensures Inv(Next(l, own, Gain(ids)))
  {
  }

  lemma StepKeepsInv(l: Link, own: DeviceId, s: Step)
    requires Inv(l) && Enabled(l, s)
    ensures Inv(Next(l, own, s))
  {
    match s
    case Append(op) => AppendKeepsInv(l, own, op);
    case Restart(stream) => RestartKeepsInv(l, own, stream);
    case Arrive(w, tick) => ArriveKeepsInv(l, own, w, tick);
    case Gain(ids) => GainKeepsInv(l, own, ids);
    case _ =>
      hide Sound;
      hide HoldsAll;
  }

  lemma StartHasInv(l: Link)
    requires Start(l)
    ensures Inv(l)
  {
  }

  /** At every point of every run, nothing the server holds is lost to the puller, a
      drain that reported success left it holding all the server had when it built
      the last page, and the drain never blames an honest server for disorder, a
      changed epoch, a bad reset or a stall. */
  lemma {:induction false} EveryRunIsSafe(run: seq<Link>, own: DeviceId, i: nat)
    requires IsRun(run, own) && i < |run|
    ensures Inv(run[i])
    ensures Safe(run[i].log, run[i].d.c)
    ensures run[i].d.status.Drained? ==> run[i].source.Some? && HoldsAll(run[i].source.value, run[i].d.c)
    ensures run[i].d.status.Failed? ==> run[i].d.status.error in {Rejected, RepeatedReset}
  {
    hide Ready;
    hide Safe;
    hide HoldsAll;
    hide Start;
    if i == 0 {
      StartHasInv(run[0]);
    } else {
      EveryRunIsSafe(run, own, i - 1);
      assert Follows(run[i - 1], run[i - 1 + 1], own);
      var s :| Enabled(run[i - 1], s) && run[i] == Next(run[i - 1], own, s);
      StepKeepsInv(run[i - 1], own, s);
    }
  }

  // ------------------------------------------------------------ where ops come from

  /** The step brings this id: gained elsewhere, or on the page that arrives, having passed
      its checks. */
  ghost predicate Brings(l: Link, own: DeviceId, s: Step, id: OpId)
    requires Enabled(l, s)
  {
    match s
    case Gain(ids) => id in ids
    case Arrive(w, tick) =>
      exists op, t :: op in Entries(PageFor(l.flight.snap, own, RequestOf(l.d))) && op.id == id && t >= tick && w.accepts(t, op)
    case _ => false
  }

  ghost predicate CameIn(l: Link, l': Link, own: DeviceId, id: OpId) {
    exists s :: Enabled(l, s) && l' == Next(l, own, s) && Brings(l, own, s, id)
  }

  lemma DeliverOnlyPassed(d: Drain, page: PullPage, w: World, tick: nat, id: OpId)
    requires id in Deliver(d, page, w, tick).c.held && id !in d.c.held
    ensures exists op, t :: op in Entries(page) && op.id == id && t >= tick && w.accepts(t, op)
  {
    PageOnlyPassed(d.c, page, w, tick);
    var r := ApplyPage(d.c, page, w, tick);
    hide ApplyPage;
    assert id in r.c.held;
    var op :| op in Entries(page) && op.id == id && PassedBetween(w, tick, r.tick, op);
    var t :| tick <= t < r.tick && w.accepts(t, op);
  }

  lemma StepBrings(l: Link, own: DeviceId, s: Step, id: OpId)
    requires Enabled(l, s) && id in Next(l, own, s).d.c.held && id !in l.d.c.held
    ensures Brings(l, own, s, id)
  {
    hide Deliver;
    hide PageFor;
    if s.Arrive? {
      DeliverOnlyPassed(l.d, PageFor(l.flight.snap, own, RequestOf(l.d)), s.w, s.tick, id);
    }
  }

  /** In every run, whatever the puller holds it held at the start, or gained elsewhere, or
      took from a page after it had passed its checks. */
  lemma {:induction false} EveryOpIsAccountedFor(run: seq<Link>, own: DeviceId, i: nat, id: OpId)
    requires IsRun(run, own) && i < |run| && id in run[i].d.c.held
    ensures id in run[0].d.c.held || exists j :: 0 <= j < i && CameIn(run[j], run[j + 1], own, id)
  {
    hide Start;
    hide Brings;
    hide Next;
    if i > 0 {
      if id in run[i - 1].d.c.held {
        EveryOpIsAccountedFor(run, own, i - 1, id);
      } else {
        assert Follows(run[i - 1], run[i - 1 + 1], own);
        var s :| Enabled(run[i - 1], s) && run[i] == Next(run[i - 1], own, s);
        StepBrings(run[i - 1], own, s, id);
        assert CameIn(run[i - 1], run[i - 1 + 1], own, id);
      }
    }
  }

  // ---------------------------------------------------------------- termination

  /** The arrivals the claims do not cover yet. */
  ghost function Uncovered(log: Log, claims: Claims): set<nat> {
    set i: nat | i < |log.arrivals| && !Covers(claims, log.arrivals[i].Key())
  }

  /** What a page against an unchanging log uses up. */
  ghost function Outstanding(log: Log, c: Client): int {
    |Uncovered(log, c.claims)| + log.Head() - Position(c.cursor, log.epoch)
  }

  lemma ProperSubsetIsSmaller(a: set<nat>, b: set<nat>)
    requires a <= b
    ensures |a| <= |b| && (a != b ==> |a| < |b|)
  {
    assert b == a + (b - a);
  }

  lemma RaisingUncoversLess(log: Log, c: Client, c': Client, ops: seq<SignedOp>)
    requires RaisedBy(c.claims, c'.claims, ops)
    ensures Uncovered(log, c'.claims) <= Uncovered(log, c.claims)
    ensures |Uncovered(log, c'.claims)| <= |Uncovered(log, c.claims)|
    ensures forall op | op in ops && op in log.arrivals && !Covers(c.claims, op.Key()) ::
              |Uncovered(log, c'.claims)| < |Uncovered(log, c.claims)|
  {
    ProperSubsetIsSmaller(Uncovered(log, c'.claims), Uncovered(log, c.claims));
    forall op | op in ops && op in log.arrivals && !Covers(c.claims, op.Key())
      ensures |Uncovered(log, c'.claims)| < |Uncovered(log, c.claims)|
    {
      var i: nat :| i < |log.arrivals| && log.arrivals[i] == op;
      assert i in Uncovered(log, c.claims) && i !in Uncovered(log, c'.claims);
    }
  }

  lemma PageUsesUp(log: Log, c: Client, page: PullPage, fresh': bool, r: Applied)
    requires log.Valid() && (c.cursor.None? || c.cursor.value.epoch == log.epoch)
    requires HonestPage(log, c.claims, Position(c.cursor, log.epoch), fresh', page)
    requires PageEffect(log, c, page, r) && r.error.None?
    ensures 0 <= Outstanding(log, r.c) <= Outstanding(log, c)
    ensures page.resume.Some? ==> Outstanding(log, r.c) < Outstanding(log, c)
  {
    hide Safe;
    hide HoldsCovered;
    hide Covers;
    hide CoveredBetween;
    hide Orderly;
    hide RaisedBy;
    RaisingUncoversLess(log, c, r.c, page.keyed);
    hide Uncovered;
    if page.resume.Some? && page.resume.value.Keyed? {
      var last := page.keyed[|page.keyed| - 1];
      assert last in page.keyed;
      assert last in log.arrivals;
    }
  }

  /** Each turn against an unchanging server either ends the drain, takes its one
      reset, uses up outstanding arrivals, or turns a resumed drain fresh. */
  ghost predicate Closer(log: Log, d: Drain, d': Drain) {
    || (!d.resetSeen && d'.resetSeen)
    || (d.resetSeen == d'.resetSeen && 0 <= Outstanding(log, d'.c) < Outstanding(log, d.c))
    || (d.resetSeen == d'.resetSeen && 0 <= Outstanding(log, d'.c) <= Outstanding(log, d.c) && d.resume.Some? && d'.resume.None?)
  }

  lemma TurnIsCloser(snap: Log, own: DeviceId, d: Drain, w: World, tick: nat)
    requires snap.Valid() && Sound(snap, d.c) && Ready(d) && d.status.Running?
    requires Deliver(d, PageFor(snap, own, RequestOf(d)), w, tick).status.Running?
    ensures Closer(snap, d, Deliver(d, PageFor(snap, own, RequestOf(d)), w, tick))
  {
    hide Safe;
    hide HoldsCovered;
    hide Covers;
    hide CoveredBetween;
    hide PageFor;
    hide PageEffect;
    hide Outstanding;
    hide Ready;
    var page := PageFor(snap, own, RequestOf(d));
    AnswerIsHonest(snap, own, d);
    if d.c.cursor.None? || d.c.cursor.value.epoch == snap.epoch {
      var r := ApplyPage(d.c, page, w, tick);
      ApplyHonestPage(snap, d.c, page, d.resume.None?, w, tick);
      hide ApplyPage;
      PageUsesUp(snap, d.c, page, d.resume.None?, r);
    }
  }

  // ------------------------------------------------------------------ the loop

  /** `persist_pull_reset`: check the reset, then replace the saved cursor. */
  method PersistReset(socket: Socket, req: PullRequest, page: PullPage) returns (cursor: Option<Cursor>)
    requires socket.Valid()
    modifies socket`savedCursor
    ensures socket.Valid() && cursor == ValidateReset(req, page)
    ensures socket.savedCursor == if cursor.Some? then cursor else old(socket.savedCursor)
  {
    cursor := ValidateReset(req, page);
    if cursor.Some? {
      socket.ResetRelayCursor(cursor.value);
    }
  }

  /** The body of the loop, once the page is in. */
  method TakePage(socket: Socket, cursor: Option<Cursor>, resume: Option<Resume>, resetSeen: bool, stalled: nat,
                  lastProgress: Option<Progress>, page: PullPage, w: World, tick: nat)
    returns (cursor': Option<Cursor>, resume': Option<Resume>, resetSeen': bool, stalled': nat,
             lastProgress': Option<Progress>, status: Status, tick': nat)
    requires socket.Valid() && socket.savedCursor == cursor
    modifies socket, socket.log
    ensures socket.Valid() && socket.savedCursor == cursor'
    ensures Drain(socket.View(cursor'), resume', resetSeen', stalled', lastProgress', status)
         == Deliver(Drain(old(socket.View(cursor)), resume, resetSeen, stalled, lastProgress, Running), page, w, tick)
  {
    hide ApplyPage;
    hide ValidateReset;
    cursor', resume', resetSeen', stalled', lastProgress', status, tick' :=
      cursor, resume, resetSeen, stalled, lastProgress, Running, tick;
    if page.reset {
      if resetSeen {
        status := Failed(RepeatedReset);
        return;
      }
      resetSeen' := true;
      var request := PullRequest(socket.coverage, if cursor.Some? then cursor.value.epoch else 0, AfterOf(cursor),
                                 resume, PAGE_LIMIT_MAX, false, None);
      var reset := PersistReset(socket, request, page);
      if reset.None? {
        status := Failed(BadReset);
        return;
      }
      cursor', resume' := reset, None;
      return;
    }
    var error;
    cursor', error, tick' := ApplyPullPage(socket, cursor, page, w, tick);
    if error.Some? {
      status := Failed(error.value);
    } else if page.complete {
      if resume.None? {
        status := Drained;
      } else {
        resume' := None;
      }
    } else {
      resume' := page.resume;
      var progress := Progress(AfterOf(cursor'), resume');
      if lastProgress == Some(progress) {
        stalled' := stalled + 1;
        if stalled' >= PULL_NO_PROGRESS_LIMIT {
          status := Failed(Stalled);
          return;
        }
      } else {
        stalled' := 0;
      }
      lastProgress' := Some(progress);
    }
  }

  /** What a drain keeps between pages against one unchanging log. */
  ghost predicate OnCourse(log: Log, d: Drain) {
    && log.Valid() && Sound(log, d.c) && Ready(d) && d.status.Running?
    && (d.resetSeen ==> d.c.cursor.Some? && d.c.cursor.value.epoch == log.epoch)
  }

  lemma StaysOnCourse(log: Log, own: DeviceId, d: Drain, w: World, tick: nat)
    requires OnCourse(log, d)
    ensures var d' := Deliver(d, PageFor(log, own, RequestOf(d)), w, tick);
            && Sound(log, d'.c) && d.c.held <= d'.c.held
            && (d'.status.Running? ==> OnCourse(log, d') && Closer(log, d, d'))
            && (d'.status.Drained? ==> HoldsAll(log, d'.c))
            && (d'.status.Failed? ==> d'.status == Failed(Rejected))
  {
    hide Sound;
    hide Ready;
    hide Closer;
    hide Deliver;
    hide PageFor;
    hide HoldsAll;
    Turn(log, own, d, w, tick);
    if Deliver(d, PageFor(log, own, RequestOf(d)), w, tick).status.Running? {
      TurnIsCloser(log, own, d, w, tick);
    }
  }

  lemma NewDrainIsOnCourse(log: Log, c: Client)
    requires log.Valid() && Sound(log, c)
    ensures OnCourse(log, NewDrain(c))
  {
  }

  /** `drain_pull_pages` against a server that stands still. It always comes to an end,
      and unless an op is refused the puller then holds everything the server holds. */
  method DrainPullPages(server: OpLog, own: DeviceId, socket: Socket, relayCursor: Option<Cursor>, w: World)
    returns (cursor: Option<Cursor>, outcome: Status)
    requires server.Valid() && socket.Valid() && server != socket.log
    requires socket.savedCursor == relayCursor && Sound(server.View(), socket.View(relayCursor))
    modifies socket, socket.log
    ensures socket.Valid() && socket.savedCursor == cursor && Sound(server.View(), socket.View(cursor))
    ensures old(socket.log.ids) <= socket.log.ids
    ensures outcome == Drained || outcome == Failed(Rejected)
    ensures outcome == Drained ==> HoldsAll(server.View(), socket.View(cursor))
  {
    hide HoldsAll;
    hide Sound;
    hide OnCourse;
    hide PageFor;
    hide Deliver;
    hide Outstanding;
    hide Ascending;
    hide DistinctIds;
    hide Ids;
    cursor := relayCursor;
    var resume: Option<Resume>, resetSeen, stalled: nat, lastProgress: Option<Progress> := None, false, 0, None;
    var tick: nat := 0;
    ghost var snap := server.View();
    NewDrainIsOnCourse(snap, socket.View(cursor));
    outcome := Running;
    while outcome == Running
      invariant socket.Valid() && socket.savedCursor == cursor && server.View() == snap && server.Valid()
      invariant Sound(snap, socket.View(cursor)) && old(socket.log.ids) <= socket.log.ids
      invariant outcome == Running ==> OnCourse(snap, Drain(socket.View(cursor), resume, resetSeen, stalled, lastProgress, Running))
      invariant outcome == Drained ==> HoldsAll(snap, socket.View(cursor))
      invariant outcome.Failed? ==> outcome == Failed(Rejected)
      decreases outcome == Running, !resetSeen, Outstanding(snap, socket.View(cursor)), resume.Some?
    {
      ghost var d := Drain(socket.View(cursor), resume, resetSeen, stalled, lastProgress, Running);
      var request := PullRequest(socket.coverage, if cursor.Some? then cursor.value.epoch else 0, AfterOf(cursor),
                                 resume, PAGE_LIMIT_MAX, false, None);
      var page := BuildPullPage(server, own, request);
      StaysOnCourse(snap, own, d, w, tick);
      cursor, resume, resetSeen, stalled, lastProgress, outcome, tick :=
        TakePage(socket, cursor, resume, resetSeen, stalled, lastProgress, page, w, tick);
    }
  }
}
