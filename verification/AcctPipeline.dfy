/** usr/src/cmd/acct/wtmpfix.c and usr/src/cmd/acct/acctcon.c one behind the other, as
    usr/src/cmd/acct/runacct.sh runs them.  The first moves the times before a change of the
    clock and keeps the records of the change; the second finds them and moves the sessions
    that are open once more. */
module AcctPipeline {
  import opened AcctRecords
  import opened AcctCon
  import opened AcctLog
  import opened AcctCharged
  import opened Utmp
  import opened WtmpChanges
  import opened Wrappers

  /** A record of the one program as a record of the other. */
  function AsWtmp(r: WtmpChanges.Rec): Wtmp { Wtmp(r.kind, r.line, r.name, r.time) }

  function AsLog(xs: seq<WtmpChanges.Rec>): (rs: seq<Wtmp>)
    ensures |rs| == |xs| && forall i :: 0 <= i < |xs| ==> rs[i] == AsWtmp(xs[i])
  {
    seq(|xs|, i requires 0 <= i < |xs| => AsWtmp(xs[i]))
  }

  // ----- what the first program does to a stretch of the log -----

  predicate NoBoot(xs: seq<WtmpChanges.Rec>, a: int, b: int) {
    forall i :: a < i <= b && 0 <= i < |xs| ==> !xs[i].kind.BootTime?
  }

  /** Changes behind `b` move two records alike if no boot lies between them. */
  lemma EffectAlike(xs: seq<WtmpChanges.Rec>, a: nat, b: nat, c: nat)
    requires a <= b < c && NoBoot(xs, a, b)
    ensures Effect(xs, a, c) == Effect(xs, b, c)
  {
    if BootBetween(xs, a, c) {
      var i :| a < i < c && 0 <= i < |xs| && xs[i].kind.BootTime?;
      assert b < i;
    }
  }

  /** So the later one lacks exactly the changes between them. */
  lemma {:induction false} EffectsApart(xs: seq<WtmpChanges.Rec>, a: nat, b: nat, n: nat)
    requires a <= b < n && b < |xs| && NoBoot(xs, a, b) && !xs[b].kind.OldTime?
    ensures Effects(xs, a, n) == Effects(xs, a, b) + Effects(xs, b, n)
    decreases n
  {
    if n == b + 1 {
      EffectsNone(xs, b, n);
    } else {
      EffectsApart(xs, a, b, n - 1);
      EffectAlike(xs, a, b, n - 1);
    }
  }

  lemma {:induction false} EffectsNone(xs: seq<WtmpChanges.Rec>, q: nat, n: nat)
    requires n <= q + 1
    ensures Effects(xs, q, n) == 0
  {
    if n > 0 { EffectsNone(xs, q, n - 1); }
  }

  /** Records of boots and changes carry a line, and no old time is the epoch: else they mean
      nothing to the second program. */
  predicate Dated(rs: seq<Wtmp>) {
    forall i :: 0 <= i < |rs| ==>
      && (rs[i].kind.OldTime? || rs[i].kind.NewTime? || rs[i].kind.BootTime? ==> rs[i].line != [])
      && (rs[i].kind.OldTime? ==> rs[i].time != 0)
  }

  /** What the record at `n` adds to the lines, if a change is an old and a new time side by
      side. */
  function Change(rs: seq<Wtmp>, n: nat): int
    requires n < |rs|
  {
    if n > 0 && rs[n].kind.NewTime? && rs[n - 1].kind.OldTime? then rs[n].time - rs[n - 1].time else 0
  }

  lemma {:induction false} PendingPaired(xs: seq<WtmpChanges.Rec>, rs: seq<Wtmp>, n: nat)
    requires Paired(xs) && |rs| == |xs| && n <= |rs| && Dated(rs)
    requires forall i :: 0 <= i < |xs| ==> rs[i].kind == xs[i].kind
    ensures Pending(rs[..n]) == if n > 0 && rs[n - 1].kind.OldTime? then rs[n - 1].time else 0
  {
    if n > 0 {
      PendingPaired(xs, rs, n - 1);
      assert rs[..n][..n - 1] == rs[..n - 1] && rs[..n][n - 1] == rs[n - 1];
      assert n > 1 ==> PairAt(xs, n - 2);
    }
  }

  lemma {:induction false} StepIsChange(xs: seq<WtmpChanges.Rec>, rs: seq<Wtmp>, n: nat)
    requires Paired(xs) && |rs| == |xs| && n < |rs| && Dated(rs)
    requires forall i :: 0 <= i < |xs| ==> rs[i].kind == xs[i].kind
    ensures ClockStep(rs[..n], rs[n]) == Change(rs, n)
  {
    PendingPaired(xs, rs, n);
  }

  /** `qs` is the log `rs` of `xs` as the first program leaves it. */
  ghost predicate Repairs(xs: seq<WtmpChanges.Rec>, rs: seq<Wtmp>, qs: seq<Wtmp>) {
    && |rs| == |xs| == |qs|
    && forall i :: 0 <= i < |xs| ==>
         && rs[i].kind == qs[i].kind == xs[i].kind && qs[i].line == rs[i].line == xs[i].line
         && rs[i].time == xs[i].time && qs[i].time == xs[i].time + Effects(xs, i, |xs|)
  }

  lemma {:induction false} CleanedKeeps(xs: seq<WtmpChanges.Rec>, i: nat)
    requires i < |xs|
    ensures Cleaned(xs)[i].kind == xs[i].kind && Cleaned(xs)[i].line == xs[i].line && Cleaned(xs)[i].time == xs[i].time
    decreases |xs|
  {
    var n := |xs| - 1;
    if i < n { CleanedKeeps(xs[..n], i); }
  }

  lemma {:induction false} RepairedRepairs(xs: seq<WtmpChanges.Rec>, out: seq<WtmpChanges.Rec>)
    requires Repaired(xs, out)
    ensures Repairs(xs, AsLog(xs), AsLog(out))
  {
    forall i | 0 <= i < |xs|
      ensures out[i].kind == xs[i].kind && out[i].line == xs[i].line && out[i].time == xs[i].time + Effects(xs, i, |xs|)
    {
      CleanedKeeps(xs, i);
    }
  }

  /** A change is as large in the repaired log. */
  lemma {:induction false} SameChange(xs: seq<WtmpChanges.Rec>, rs: seq<Wtmp>, qs: seq<Wtmp>, n: nat)
    requires Repairs(xs, rs, qs) && n < |xs|
    ensures Change(qs, n) == Change(rs, n)
  {
    if n > 0 && rs[n].kind.NewTime? && rs[n - 1].kind.OldTime? {
      EffectsNone(xs, n - 1, n);
      EffectsApart(xs, n - 1, n, |xs|);
    }
  }

  /** By how much the clock is set from record `a` up to record `n`. */
  function DriftUpTo(rs: seq<Wtmp>, a: nat, n: nat): int
    requires n <= |rs|
    decreases n
  {
    if n <= a then 0 else DriftUpTo(rs, a, n - 1) + ClockStep(rs[..n - 1], rs[n - 1])
  }

  lemma {:induction false} DriftMore(rs: seq<Wtmp>, a: nat, n: nat, m: nat)
    requires a <= n < |rs| && m == n + 1
    ensures Drift(rs[..a], rs[a..m]) == Drift(rs[..a], rs[a..n]) + ClockStep(rs[..n], rs[n])
  {
    var mid := rs[a..m];
    assert mid[..n - a] == rs[a..n] && rs[..a] + rs[a..n] == rs[..n];
  }

  lemma {:induction false} DriftIs(rs: seq<Wtmp>, a: nat, n: nat)
    requires a <= n <= |rs|
    ensures Drift(rs[..a], rs[a..n]) == DriftUpTo(rs, a, n)
    decreases n
  {
    if a == n {
      assert rs[a..n] == [];
    } else {
      DriftIs(rs, a, n - 1);
      DriftMore(rs, a, n - 1, n);
    }
  }

  /** Each record sets the lines by as much in the one log as in the other. */
  ghost predicate SameSteps(rs: seq<Wtmp>, qs: seq<Wtmp>) {
    |rs| == |qs| && forall i :: 0 <= i < |rs| ==> ClockStep(qs[..i], qs[i]) == ClockStep(rs[..i], rs[i])
  }

  lemma {:induction false} RepairedSteps(xs: seq<WtmpChanges.Rec>, rs: seq<Wtmp>, qs: seq<Wtmp>)
    requires Repairs(xs, rs, qs) && Paired(xs) && Dated(rs) && Dated(qs)
    ensures SameSteps(rs, qs)
  {
    forall i | 0 <= i < |rs| ensures ClockStep(qs[..i], qs[i]) == ClockStep(rs[..i], rs[i]) {
      StepIsChange(xs, rs, i);
      StepIsChange(xs, qs, i);
      SameChange(xs, rs, qs, i);
    }
  }

  /** So the second program sets the lines by as much. */
  lemma {:induction false} SameDrift(rs: seq<Wtmp>, qs: seq<Wtmp>, a: nat, n: nat)
    requires SameSteps(rs, qs) && a <= n <= |rs|
    ensures DriftUpTo(qs, a, n) == DriftUpTo(rs, a, n)
    decreases n
  {
    if a < n { SameDrift(rs, qs, a, n - 1); }
  }

  // ----- sessions -----

  /** A login on the line at `a`, and at `b` the next record that touches the line. */
  predicate Spans(rs: seq<Wtmp>, a: nat, b: nat, line: Name) {
    && a < b < |rs| && LogsIn(rs[..a], rs[a]) && rs[a].line == line
    && rs[b].line == line && (rs[b].kind.UserProcess? || rs[b].kind.DeadProcess?)
    && forall i :: a < i < b ==> !On(rs[i], line)
  }

  /** The time from the one to the other, by the clock as it is set at the end. */
  function Elapsed(rs: seq<Wtmp>, a: nat, b: nat): int
    requires a < b < |rs|
  {
    rs[b].time - (rs[a].time + Drift(rs[..a + 1], rs[a + 1..b]))
  }

  lemma {:induction false} NothingBetween(mid: seq<Wtmp>, pre: seq<Wtmp>, line: Name)
    requires forall i :: 0 <= i < |mid| ==> !On(mid[i], line)
    ensures LastOn(mid, line) == -1 && Open(pre, mid, line)
  {
  }

  lemma Cuts(rs: seq<Wtmp>, a: nat, b: nat)
    requires a < b < |rs|
    ensures rs[..a] + [rs[a]] == rs[..a + 1] && rs[..a + 1] + rs[a + 1..b] == rs[..b]
    ensures rs[..b] + [rs[b]] == rs[..b + 1]
  {
  }

  /** Where the line stands before `b`, and who is on it. */
  lemma {:induction false} SpanStands(rs: seq<Wtmp>, a: nat, b: nat, line: Name)
    requires Spans(rs, a, b, line)
    ensures Since(rs[..b], line) == Some(rs[b].time - Elapsed(rs, a, b)) && Occupant(rs[..b], line) == rs[a].name
  {
    var pre, mid := rs[..a + 1], rs[a + 1..b];
    Cuts(rs, a, b);
    LoggedIn(rs[..a], rs[a]);
    forall i | 0 <= i < |mid| ensures !On(mid[i], line) { assert mid[i] == rs[a + 1 + i]; }
    NothingBetween(mid, pre, line);
    StandsSince(pre, mid, line, rs[a].time, rs[a].name);
  }

  /** After the record at `b` one session more is charged to `name`, with the length `dur`; or
      none, if `dur` is negative. */
  ghost predicate Charges(site: Site, rs: seq<Wtmp>, b: nat, name: Name, dur: int)
    requires b < |rs|
  {
    var log, log' := Run(site, INITIAL, rs[..b]).books.log, Run(site, INITIAL, rs[..b + 1]).books.log;
    if dur >= 0 then |log'| == |log| + 1 && log'[|log|].name == name && log'[|log|].dur == dur else log' == log
  }

  /** By itself the second program charges the time elapsed. */
  lemma {:induction false} AloneCharges(site: Site, rs: seq<Wtmp>, a: nat, b: nat, line: Name)
    requires Spans(rs, a, b, line)
    ensures Charges(site, rs, b, rs[a].name, Elapsed(rs, a, b))
  {
    SpanStands(rs, a, b, line);
    Cuts(rs, a, b);
    ChargedSince(site, rs[..b], rs[b]);
  }

  lemma {:induction false} SpanBootless(xs: seq<WtmpChanges.Rec>, rs: seq<Wtmp>, qs: seq<Wtmp>, a: nat, b: nat,
                                        line: Name)
    requires Repairs(xs, rs, qs) && Dated(qs) && Spans(qs, a, b, line)
    ensures NoBoot(xs, a, b) && !xs[b].kind.OldTime?
  {
    forall i | a < i <= b ensures !xs[i].kind.BootTime? { assert i < b ==> !On(qs[i], line); }
  }

  lemma {:induction false} SpanElapsed(xs: seq<WtmpChanges.Rec>, rs: seq<Wtmp>, qs: seq<Wtmp>, a: nat, b: nat,
                                       line: Name)
    requires Paired(xs) && Repairs(xs, rs, qs) && Dated(rs) && Dated(qs) && Spans(qs, a, b, line)
    ensures Elapsed(qs, a, b) == Elapsed(rs, a, b) - Effects(xs, a, b)
  {
    RepairedSteps(xs, rs, qs);
    SameDrift(rs, qs, a + 1, b);
    DriftIs(rs, a + 1, b);
    DriftIs(qs, a + 1, b);
    SpanBootless(xs, rs, qs, a, b, line);
    EffectsApart(xs, a, b, |xs|);
  }

  /** Behind the first program it charges less, by exactly the changes in multi-user mode during
      the session: it is right if and only if these add up to nothing. */
  lemma {:induction false} TogetherCharge(site: Site, xs: seq<WtmpChanges.Rec>, out: seq<WtmpChanges.Rec>,
                                          rs: seq<Wtmp>, qs: seq<Wtmp>, a: nat, b: nat, line: Name)
    requires Paired(xs) && Repaired(xs, out) && rs == AsLog(xs) && qs == AsLog(out)
    requires Dated(rs) && Dated(qs) && Spans(qs, a, b, line) && Elapsed(rs, a, b) >= 0
    ensures Charges(site, qs, b, qs[a].name, Elapsed(rs, a, b) - Effects(xs, a, b))
    ensures Charges(site, qs, b, qs[a].name, Elapsed(rs, a, b)) <==> Effects(xs, a, b) == 0
  {
    RepairedRepairs(xs, out);
    SpanElapsed(xs, rs, qs, a, b, line);
    AloneCharges(site, qs, a, b, line);
  }

  // ----- one change during a session -----

  /** "run-level 2": in multi-user mode, a login, a change of the clock by `d`, a logoff. */
  predicate Across(xs: seq<WtmpChanges.Rec>, line: Name, name: Name, t0: int, t1: int, d: int, t2: int) {
    && |xs| == 5 && xs[0].kind.RunLevel? && [114, 117, 110, 45, 108, 101, 118, 101, 108, 32, 50] <= xs[0].line
    && xs[1] == WtmpChanges.Rec(UserProcess, line, name, t0)
    && xs[2].kind.OldTime? && xs[2].time == t1 && xs[3].kind.NewTime? && xs[3].time == t1 + d
    && xs[4] == WtmpChanges.Rec(DeadProcess, line, [], t2)
  }

  lemma {:induction false} AcrossMode(two: seq<WtmpChanges.Rec>)
    requires |two| == 2 && two[1].kind.UserProcess?
    requires two[0].kind.RunLevel? && [114, 117, 110, 45, 108, 101, 118, 101, 108, 32, 50] <= two[0].line
    ensures InMulti(two)
  {
    assert ToMulti(two[0]) && !ToSingle(two[1]);
  }

  lemma {:induction false} AcrossEffects(xs: seq<WtmpChanges.Rec>, line: Name, name: Name, t0: int, t1: int, d: int,
                                         t2: int)
    requires Across(xs, line, name, t0, t1, d, t2)
    ensures Paired(xs) && Effects(xs, 1, 4) == d
  {
    AcrossMode(xs[..2]);
    EffectsNone(xs, 1, 2);
    assert !BootBetween(xs, 1, 2) && Effect(xs, 1, 2) == d && Effect(xs, 1, 3) == 0;
    assert Effects(xs, 1, 3) == Effects(xs, 1, 2) + Effect(xs, 1, 2);
    assert Effects(xs, 1, 4) == Effects(xs, 1, 3) + Effect(xs, 1, 3);
  }

  lemma {:induction false} AcrossSpans(xs: seq<WtmpChanges.Rec>, rs: seq<Wtmp>, line: Name, name: Name,
                                       t0: int, t1: int, d: int, t2: int)
    requires Across(xs, line, name, t0, t1, d, t2) && rs == AsLog(xs) && Dated(rs)
    ensures Elapsed(rs, 1, 4) == t2 - t0 - d
  {
    PendingPairedAcross(xs, rs, line, name, t0, t1, d, t2);
    var mid := rs[2..4];
    assert mid[..1] == [rs[2]] && mid[..1][..0] == [] && rs[..2] + [rs[2]] == rs[..3] && rs[..2] + [] == rs[..2];
    assert Drift(rs[..2], mid[..1]) == Drift(rs[..2], []) + ClockStep(rs[..2], rs[2]) == 0;
    assert Drift(rs[..2], mid) == ClockStep(rs[..3], rs[3]) == d;
  }

  lemma {:induction false} PendingPairedAcross(xs: seq<WtmpChanges.Rec>, rs: seq<Wtmp>, line: Name, name: Name,
                                               t0: int, t1: int, d: int, t2: int)
    requires Across(xs, line, name, t0, t1, d, t2) && rs == AsLog(xs) && Dated(rs)
    ensures Pending(rs[..3]) == t1 != 0 && rs[3].line != []
  {
    AcrossEffects(xs, line, name, t0, t1, d, t2);
    PendingPaired(xs, rs, 3);
  }

  lemma {:induction false} CleanedNames(xs: seq<WtmpChanges.Rec>, i: nat)
    requires i < |xs|
    ensures Cleaned(xs)[i].name == [] <==> xs[i].name == []
    decreases |xs|
  {
    var n := |xs| - 1;
    if i < n { CleanedNames(xs[..n], i); }
  }

  /** The first program moves the login and not the change. */
  lemma {:induction false} AcrossMoves(xs: seq<WtmpChanges.Rec>, line: Name, name: Name, t0: int, t1: int, d: int,
                                       t2: int)
    requires Across(xs, line, name, t0, t1, d, t2)
    ensures Effects(xs, 1, 5) == d && Effects(xs, 2, 5) == 0
  {
    AcrossEffects(xs, line, name, t0, t1, d, t2);
    assert Effects(xs, 1, 5) == Effects(xs, 1, 4) + Effect(xs, 1, 4);
    EffectsNone(xs, 2, 3);
    assert Effects(xs, 2, 4) == Effects(xs, 2, 3) + Effect(xs, 2, 3);
    assert Effects(xs, 2, 5) == Effects(xs, 2, 4) + Effect(xs, 2, 4);
  }

  /** What the first program makes of this log. */
  lemma {:induction false} AcrossRepaired(xs: seq<WtmpChanges.Rec>, out: seq<WtmpChanges.Rec>, qs: seq<Wtmp>,
                                          line: Name, name: Name, t0: int, t1: int, d: int, t2: int)
    requires Across(xs, line, name, t0, t1, d, t2) && Dated(AsLog(xs)) && Repaired(xs, out) && qs == AsLog(out)
    requires line != [] && name != [] && t0 + d >= 0
    ensures Dated(qs) && Spans(qs, 1, 4, line)
  {
    RepairedRepairs(xs, out);
    AcrossMoves(xs, line, name, t0, t1, d, t2);
    CleanedNames(xs, 1);
    forall i | 0 <= i < 5 ensures qs[i].kind == xs[i].kind && qs[i].line == xs[i].line { }
    SinceMore([], qs[0], line);
    assert qs[..1] == [] + [qs[0]];
  }

  /** The session lasts from `t0 + d` to `t2` by the new clock, and is charged from `t0 + 2 * d`. */
  lemma {:induction false} MovedTwice(site: Site, xs: seq<WtmpChanges.Rec>, out: seq<WtmpChanges.Rec>,
                                      rs: seq<Wtmp>, qs: seq<Wtmp>, line: Name, name: Name,
                                      t0: int, t1: int, d: int, t2: int)
    requires Across(xs, line, name, t0, t1, d, t2) && line != [] && name != [] && 0 <= t0 + d <= t2
    requires Repaired(xs, out) && rs == AsLog(xs) && qs == AsLog(out) && Dated(rs)
    ensures Elapsed(rs, 1, 4) == t2 - (t0 + d) && Charges(site, qs, 4, qs[1].name, t2 - (t0 + 2 * d))
  {
    AcrossEffects(xs, line, name, t0, t1, d, t2);
    AcrossSpans(xs, rs, line, name, t0, t1, d, t2);
    AcrossRepaired(xs, out, qs, line, name, t0, t1, d, t2);
    TogetherCharge(site, xs, out, rs, qs, 1, 4, line);
  }
}
