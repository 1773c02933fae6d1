/** The rate limiter (src/oauth/mod.rs): `per` events from one source in a window that
    opens at its first event. */
module Limits {
  import opened OrderKeys

  /** When the current window opened and how many events it has let through. */
  datatype Window = Window(started: nat, count: nat)

  datatype Verdict = Verdict(window: Window, ok: bool)

  /** `saturating_sub`. */
  function Elapsed(now: nat, then': nat): nat {
    if now < then' then 0 else now - then'
  }

  /** One event of one source; `None` is a source without a window. */
  function Counted(per: nat, span: nat, w: Option<Window>, now: nat): Verdict {
    var open := if w.None? || Elapsed(now, w.value.started) >= span then Window(now, 0) else w.value;
    if open.count >= per then Verdict(open, false) else Verdict(open.(count := open.count + 1), true)
  }

  class Limiter {
    const per: nat
    const span: nat
    var windows: map<string, Window>

    constructor (per: nat, span: nat)
      ensures this.per == per && this.span == span && windows == map[]
    {
      this.per, this.span, windows := per, span, map[];
    }

    /** `allow`: a source's verdict depends on its own window alone, for the sweep of a full
        table takes only windows that have run out. */
    method Allow(source: string, now: nat) returns (ok: bool)
      modifies this
      ensures source in windows
      ensures Verdict(windows[source], ok) == Counted(per, span, if source in old(windows) then Some(old(windows)[source]) else None, now)
      ensures forall s | s in old(windows) && s != source :: s in windows ==> windows[s] == old(windows)[s]
      ensures forall s | s in old(windows) && s != source && s !in windows :: span == 0 || now >= old(windows)[s].started + span
    {
      if |windows| >= 4096 {
        windows := windows - (set s | s in windows && Elapsed(now, windows[s].started) >= span);
      }
      if source !in windows {
        windows := windows[source := Window(now, 0)];
      }
      if Elapsed(now, windows[source].started) >= span {
        windows := windows[source := Window(now, 0)];
      }
      if windows[source].count >= per {
        return false;
      }
      windows := windows[source := windows[source].(count := windows[source].count + 1)];
      ok := true;
    }
  }

  // ------------------------------------------------------ one source over time

  predicate Ordered(times: seq<nat>) {
    forall i, j | 0 <= i < j < |times| :: times[i] <= times[j]
  }

  /** The window after a source's events, from none. */
  function WindowAfter(per: nat, span: nat, times: seq<nat>): Option<Window> {
    if times == [] then None
    else Some(Counted(per, span, WindowAfter(per, span, times[..|times| - 1]), times[|times| - 1]).window)
  }

  /** How many of the events at or after `from` were let through. */
  function Passed(per: nat, span: nat, times: seq<nat>, from: nat): nat {
    if times == [] then 0
    else
      var init, now := times[..|times| - 1], times[|times| - 1];
      Passed(per, span, init, from)
      + (if now >= from && Counted(per, span, WindowAfter(per, span, init), now).ok then 1 else 0)
  }

  /** Any stretch of `span` seconds sees at most two windows, and of the first it misses
      the opening event. */
  lemma {:induction false} PassedIsBounded(per: nat, span: nat, times: seq<nat>, from: nat)
    requires Ordered(times) && per > 0 && forall i | 0 <= i < |times| :: times[i] < from + span
    ensures Passed(per, span, times, from) <= 2 * per - 1
    ensures match WindowAfter(per, span, times)
            case None => Passed(per, span, times, from) == 0
            case Some(w) =>
              && 0 < w.count <= per && w.started <= times[|times| - 1]
              && (w.started < from ==> Passed(per, span, times, from) <= w.count - 1)
              && (w.started >= from ==> Passed(per, span, times, from) <= per - 1 + w.count)
              && (times[|times| - 1] < from ==> Passed(per, span, times, from) == 0)
  {
    if times != [] {
      PassedIsBounded(per, span, times[..|times| - 1], from);
    }
  }

  /** With one-second spans a stretch is one instant, which one window covers. */
  lemma {:induction false} InstantIsBounded(per: nat, times: seq<nat>, from: nat)
    requires Ordered(times) && forall i | 0 <= i < |times| :: times[i] <= from
    ensures Passed(per, 1, times, from) <= per
    ensures match WindowAfter(per, 1, times)
            case None => Passed(per, 1, times, from) == 0
            case Some(w) =>
              && w.count <= per && w.started <= times[|times| - 1]
              && Passed(per, 1, times, from) <= (if w.started == from then w.count else 0)
  {
    if times != [] {
      InstantIsBounded(per, times[..|times| - 1], from);
    }
  }

  /** "At most `per` events in any `span` seconds", as the constructor documents it. */
  ghost predicate KeepsPromise(per: nat, span: nat) {
    forall times, from: nat | Ordered(times) && (forall i | 0 <= i < |times| :: times[i] < from + span) ::
      Passed(per, span, times, from) <= per
  }

  /** The promise is kept exactly for limits of at most one event or one second. */
  lemma PromiseKeptExactly(per: nat, span: nat)
    ensures KeepsPromise(per, span) <==> per <= 1 || span <= 1
  {
    if per <= 1 || span <= 1 {
      forall times, from: nat | Ordered(times) && (forall i | 0 <= i < |times| :: times[i] < from + span)
        ensures Passed(per, span, times, from) <= per
      {
        if per == 0 {
          NothingPasses(span, times, from);
        } else if per == 1 {
          PassedIsBounded(per, span, times, from);
        } else if span == 0 {
          TooEarly(per, span, times, from);
        } else {
          InstantIsBounded(per, times, from);
        }
      }
    } else {
      var times := Straddle(per, span);
      StraddlePasses(per, span);
      StraddleShape(per, span);
    }
  }

  lemma {:induction false} NothingPasses(span: nat, times: seq<nat>, from: nat)
    ensures Passed(0, span, times, from) == 0
  {
    if times != [] {
      NothingPasses(span, times[..|times| - 1], from);
    }
  }

  lemma {:induction false} TooEarly(per: nat, span: nat, times: seq<nat>, from: nat)
    requires forall i | 0 <= i < |times| :: times[i] < from
    ensures Passed(per, span, times, from) == 0
  {
    if times != [] {
      TooEarly(per, span, times[..|times| - 1], from);
    }
  }

  // ------------------------------------------------------- across two windows

  /** One event opens a window, `per - 1` come at its end, `per` more as the next opens. */
  function Straddle(per: nat, span: nat): seq<nat>
    requires per > 0 && span > 0
  {
    Late(per - 1, span) + seq(per, _ => span)
  }

  function Late(k: nat, span: nat): seq<nat>
    requires span > 0
  {
    [0] + seq(k, _ => span - 1)
  }

  lemma StraddleShape(per: nat, span: nat)
    requires per > 0 && span > 1
    ensures Ordered(Straddle(per, span)) && forall i | 0 <= i < |Straddle(per, span)| :: Straddle(per, span)[i] < span - 1 + span
  {
  }

  lemma {:induction false} LatePasses(per: nat, span: nat, k: nat)
    requires k < per && span > 1
    ensures WindowAfter(per, span, Late(k, span)) == Some(Window(0, k + 1))
    ensures Passed(per, span, Late(k, span), span - 1) == k
  {
    var times := Late(k, span);
    if k == 0 {
      assert times[..0] == [];
    } else {
      assert times[..|times| - 1] == Late(k - 1, span);
      LatePasses(per, span, k - 1);
    }
  }

  lemma OneMore(per: nat, span: nat, times: seq<nat>, now: nat, from: nat)
    ensures var v := Counted(per, span, WindowAfter(per, span, times), now);
            && WindowAfter(per, span, times + [now]) == Some(v.window)
            && Passed(per, span, times + [now], from) == Passed(per, span, times, from) + (if now >= from && v.ok then 1 else 0)
  {
  }

  lemma {:induction false} NextPasses(per: nat, span: nat, k: nat)
    requires k <= per && per > 0 && span > 1
    ensures var times := Late(per - 1, span) + seq(k, _ => span);
            && (k > 0 ==> WindowAfter(per, span, times) == Some(Window(span, k)))
            && Passed(per, span, times, span - 1) == per - 1 + k
  {
    hide WindowAfter;
    hide Passed;
    LatePasses(per, span, per - 1);
    hide Late;
    var times := Late(per - 1, span) + seq(k, _ => span);
    if k == 0 {
      assert times == Late(per - 1, span);
    } else {
      var init := Late(per - 1, span) + seq(k - 1, _ => span);
      assert times == init + [span];
      NextPasses(per, span, k - 1);
      assert k == 1 ==> init == Late(per - 1, span);
      OneMore(per, span, init, span, span - 1);
    }
  }

  lemma StraddlePasses(per: nat, span: nat)
    requires per > 0 && span > 1
    ensures Passed(per, span, Straddle(per, span), span - 1) == 2 * per - 1
  {
    NextPasses(per, span, per);
  }
}
