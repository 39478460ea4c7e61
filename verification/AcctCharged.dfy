/** When usr/src/cmd/acct/acctcon.c charges a session from its login to its end: every record of
    the line in between, even one that is refused as too old, moves the start. */
module AcctCharged {
  import opened AcctRecords
  import opened AcctCon
  import opened AcctSessions
  import opened AcctLog
  import opened AcctBoot
  import opened Utmp
  import opened Wrappers

  // ----- the stretch between login and end -----

  /** A record that moves the time of the line: of a process on it, or of a boot. */
  predicate On(r: Wtmp, line: Name) { r.line != [] && (r.kind.BootTime? || (OfProcess(r.kind) && r.line == line)) }

  /** A record that ends a session on the line, unless it is older than the line. */
  predicate Ending(r: Wtmp, line: Name) {
    r.line != [] && (r.kind.BootTime? || (r.line == line && (r.kind.UserProcess? || r.kind.DeadProcess?)))
  }

  /** Nothing in `mid`, which follows the log `pre`, ends a session on the line. */
  predicate Open(pre: seq<Wtmp>, mid: seq<Wtmp>, line: Name) {
    forall i :: 0 <= i < |mid| && Ending(mid[i], line) ==> mid[i].time < Standing(pre + mid[..i], line)
  }

  lemma {:induction false} OpenMore(pre: seq<Wtmp>, mid: seq<Wtmp>, r: Wtmp, line: Name)
    ensures Open(pre, mid + [r], line) <==>
            Open(pre, mid, line) && (Ending(r, line) ==> r.time < Standing(pre + mid, line))
  {
    var all := mid + [r];
    assert all[..|mid|] == mid;
    forall i | 0 <= i < |mid| ensures all[i] == mid[i] && all[..i] == mid[..i] { }
    if Open(pre, all, line) && Ending(r, line) { assert all[|mid|] == r; }
  }

  /** What a record behind the log `pre` adds to the times of all lines. */
  function ClockStep(pre: seq<Wtmp>, r: Wtmp): int {
    if r.line != [] && r.kind.NewTime? && Pending(pre) != 0 then r.time - Pending(pre) else 0
  }

  /** By how much the clock is set in `mid`, which follows the log `pre`. */
  function Drift(pre: seq<Wtmp>, mid: seq<Wtmp>): int {
    if mid == [] then 0
    else var n := |mid| - 1; Drift(pre, mid[..n]) + ClockStep(pre + mid[..n], mid[n])
  }

  /** The last record of the line, or -1. */
  function LastOn(mid: seq<Wtmp>, line: Name): (j: int)
    ensures -1 <= j < |mid| && (j >= 0 ==> On(mid[j], line))
    ensures forall i :: j < i < |mid| ==> !On(mid[i], line)
  {
    if mid == [] then -1
    else if On(mid[|mid| - 1], line) then |mid| - 1
    else LastOn(mid[..|mid| - 1], line)
  }

  /** Where the line stands after `mid`, if it stood at `t` before. */
  function StandsAt(pre: seq<Wtmp>, mid: seq<Wtmp>, line: Name, t: int): int {
    var j := LastOn(mid, line);
    if j == -1 then t + Drift(pre, mid) else mid[j].time + (Drift(pre, mid) - Drift(pre, mid[..j]))
  }

  lemma {:induction false} StandsMore(pre: seq<Wtmp>, mid: seq<Wtmp>, r: Wtmp, line: Name, t: int)
    ensures StandsAt(pre, mid + [r], line, t) ==
            if On(r, line) then r.time else StandsAt(pre, mid, line, t) + ClockStep(pre + mid, r)
  {
    var all := mid + [r];
    assert all[..|mid|] == mid;
    var j := LastOn(mid, line);
    if !On(r, line) && j >= 0 { assert all[..j] == mid[..j]; }
  }

  /** One more record that does not end the session. */
  lemma {:induction false} StandsStep(rs: seq<Wtmp>, r: Wtmp, line: Name, now: int, who: Name)
    requires line != [] && Since(rs, line) == Some(now) && Occupant(rs, line) == who
    requires Ending(r, line) ==> r.time < now
    ensures Since(rs + [r], line) == Some(if On(r, line) then r.time else now + ClockStep(rs, r))
    ensures Occupant(rs + [r], line) == who
  {
    SinceMore(rs, r, line);
  }

  /** The line stands at the login, set with the clock, or at the last record of it. */
  lemma {:induction false} StandsSince(pre: seq<Wtmp>, mid: seq<Wtmp>, line: Name, t: int, who: Name)
    requires line != [] && Open(pre, mid, line) && Since(pre, line) == Some(t) && Occupant(pre, line) == who
    ensures Since(pre + mid, line) == Some(StandsAt(pre, mid, line, t)) && Occupant(pre + mid, line) == who
    decreases |mid|
  {
    if mid == [] {
      assert pre + mid == pre;
    } else {
      var init, r := mid[..|mid| - 1], mid[|mid| - 1];
      assert mid == init + [r] && pre + mid == (pre + init) + [r];
      OpenMore(pre, init, r, line);
      StandsSince(pre, init, line, t, who);
      StandsMore(pre, init, r, line, t);
      StandsStep(pre + init, r, line, StandsAt(pre, init, line, t), who);
    }
  }

  // ----- when all of a session is charged -----

  /** A login that is taken. */
  predicate LogsIn(pre: seq<Wtmp>, login: Wtmp) {
    login.line != [] && login.kind.UserProcess? && login.name != [] && Standing(pre, login.line) <= login.time
  }

  /** A record that ends the session on the line, not being older than the line. */
  predicate EndsOn(all: seq<Wtmp>, end: Wtmp, line: Name) { Ending(end, line) && Standing(all, line) <= end.time }

  /** `log'` goes on from `log` with the session `x`, and with no other of its line. */
  predicate ChargedOnce(log: seq<Session>, log': seq<Session>, x: Session) {
    && log <= log'
    && exists k :: |log| <= k < |log'| && log'[k] == x
                   && forall j :: |log| <= j < |log'| && j != k ==> log'[j].line != x.line
  }

  lemma {:induction false} OnceMore(log: seq<Session>, ended: seq<Session>, x: Session)
    requires x in ended && forall j, k :: 0 <= j < k < |ended| ==> ended[j].line < ended[k].line
    ensures ChargedOnce(log, log + ended, x)
  {
    var i :| 0 <= i < |ended| && ended[i] == x;
    var log', k := log + ended, |log| + i;
    assert log'[k] == x;
    forall j | |log| <= j < |log'| && j != k ensures log'[j].line != x.line {
      var m := j - |log|;
      assert log'[j] == ended[m] && (m < i || i < m);
    }
  }

  /** Whatever ends a session, a login, a logoff or a boot: the session is charged, once. */
  lemma {:induction false} EndCharges(site: Site, all: seq<Wtmp>, end: Wtmp, line: Name)
    requires EndsOn(all, end, line) && Occupant(all, line) != []
    ensures ChargedOnce(Run(site, INITIAL, all).books.log, Run(site, INITIAL, all + [end]).books.log,
        SessionOn(site, all, line, end.time))
  {
    var log, x := Run(site, INITIAL, all).books.log, SessionOn(site, all, line, end.time);
    if end.kind.BootTime? {
      var ended := BootCharges(site, all, end);
      assert Occupied(all, line, end.time);
      OnceMore(log, ended, x);
    } else {
      ChargedSince(site, all, end);
      OnceMore(log, [x], x);
    }
  }

  /** The last record of the line in between, if any, has the time of the login, as the clock
      shows it there. */
  predicate Kept(pre: seq<Wtmp>, mid: seq<Wtmp>, line: Name, t: int) {
    var j := LastOn(mid, line);
    j >= 0 ==> mid[j].time == t + Drift(pre, mid[..j])
  }

  lemma {:induction false} LoggedIn(pre: seq<Wtmp>, login: Wtmp)
    requires LogsIn(pre, login)
    ensures Since(pre + [login], login.line) == Some(login.time)
    ensures Occupant(pre + [login], login.line) == login.name
  {
    SinceMore(pre, login, login.line);
  }

  /** The session from a login to the record that ends it is charged to the user, up to the time
      of that record; and from the login exactly if the last record in between kept its time. */
  lemma {:induction false} ChargedWholeIff(site: Site, pre: seq<Wtmp>, login: Wtmp, mid: seq<Wtmp>, end: Wtmp,
                                           all: seq<Wtmp>)
    requires LogsIn(pre, login) && Open(pre + [login], mid, login.line) && all == (pre + [login]) + mid
    requires EndsOn(all, end, login.line)
    ensures var x := SessionOn(site, all, login.line, end.time);
            && ChargedOnce(Run(site, INITIAL, all).books.log, Run(site, INITIAL, all + [end]).books.log, x)
            && x.name == login.name && x.uid == site.uidOf(login.name) && x.start + x.dur == end.time
            && x.start == StandsAt(pre + [login], mid, login.line, login.time)
            && (x.dur == end.time - (login.time + Drift(pre + [login], mid)) <==>
                Kept(pre + [login], mid, login.line, login.time))
  {
    LoggedIn(pre, login);
    StandsSince(pre + [login], mid, login.line, login.time, login.name);
    EndCharges(site, all, end, login.line);
  }

  /** Whoever is on a line logged in there, and nothing has ended that session since. */
  lemma {:induction false} OccupantLoggedIn(all: seq<Wtmp>, line: Name)
    returns (pre: seq<Wtmp>, login: Wtmp, mid: seq<Wtmp>)
    requires line != [] && Occupant(all, line) != []
    ensures all == (pre + [login]) + mid && LogsIn(pre, login) && login.line == line
    ensures login.name == Occupant(all, line) && Open(pre + [login], mid, line)
    decreases |all|
  {
    var init, r := all[..|all| - 1], all[|all| - 1];
    assert all == init + [r];
    SinceMore(init, r, line);
    if r.line == line && r.kind.UserProcess? && Standing(init, line) <= r.time {
      pre, login, mid := init, r, [];
      assert (pre + [login]) + mid == all;
    } else {
      pre, login, mid := OccupantLoggedIn(init, line);
      assert ((pre + [login]) + mid) + [r] == (pre + [login]) + (mid + [r]);
      OccupiedSince(pre, login, mid);
      OpenMore(pre + [login], mid, r, line);
      mid := mid + [r];
    }
  }

  /** A line with a user on it has been heard of. */
  lemma {:induction false} OccupiedSince(pre: seq<Wtmp>, login: Wtmp, mid: seq<Wtmp>)
    requires LogsIn(pre, login) && Open(pre + [login], mid, login.line)
    ensures Since((pre + [login]) + mid, login.line).Some?
  {
    LoggedIn(pre, login);
    StandsSince(pre + [login], mid, login.line, login.time, login.name);
  }

  // ----- on a log that runs forward -----

  lemma {:induction false} NoDrift(pre: seq<Wtmp>, mid: seq<Wtmp>)
    requires forall i :: 0 <= i < |mid| ==> !mid[i].kind.NewTime?
    ensures Drift(pre, mid) == 0
    decreases |mid|
  {
    if mid != [] { NoDrift(pre, mid[..|mid| - 1]); }
  }

  /** Every record of the line in between has the time `t`. */
  predicate AllAt(mid: seq<Wtmp>, line: Name, t: int) {
    forall i :: 0 <= i < |mid| && On(mid[i], line) ==> mid[i].time == t
  }

  /** `mid` runs forward from `t`, and the clock is not set in it. */
  predicate Onward(mid: seq<Wtmp>, t: int) {
    && (forall i :: 0 <= i < |mid| ==> t <= mid[i].time && !mid[i].kind.NewTime?)
    && (forall i, j :: 0 <= i < j < |mid| ==> mid[i].time <= mid[j].time)
  }

  lemma {:induction false} ForwardIsOnward(rs: seq<Wtmp>, t: int)
    requires Forward(rs, t)
    ensures Onward(rs, t)
  {
    forall i | 0 <= i < |rs| ensures t <= rs[i].time && !rs[i].kind.NewTime? { ForwardTimes(rs, t, i); }
    forall i, j | 0 <= i < j < |rs| ensures rs[i].time <= rs[j].time { ForwardTimes(rs, t, j); }
  }

  lemma {:induction false} KeptIsAllAt(pre: seq<Wtmp>, mid: seq<Wtmp>, line: Name, t: int)
    requires Onward(mid, t)
    ensures Kept(pre, mid, line, t) <==> AllAt(mid, line, t)
    ensures Drift(pre, mid) == 0 && StandsAt(pre, mid, line, t) >= t
    ensures mid != [] ==> StandsAt(pre, mid, line, t) <= mid[|mid| - 1].time
    ensures mid == [] ==> StandsAt(pre, mid, line, t) == t
  {
    NoDrift(pre, mid);
    var j := LastOn(mid, line);
    if j >= 0 {
      NoDrift(pre, mid[..j]);
      forall i | 0 <= i < |mid| && On(mid[i], line) ensures t <= mid[i].time <= mid[j].time {
        assert i < j ==> mid[i].time <= mid[j].time;
      }
    }
  }

  /** From the login on the log runs forward and the clock is not set: the whole session is
      charged exactly if every record of the line in between has the time of the login; and
      else less is. */
  lemma {:induction false} ForwardChargedWholeIff(site: Site, pre: seq<Wtmp>, login: Wtmp, mid: seq<Wtmp>, end: Wtmp,
                                                  all: seq<Wtmp>)
    requires LogsIn(pre, login) && Open(pre + [login], mid, login.line) && all == (pre + [login]) + mid
    requires Forward(mid + [end], login.time)
    requires Ending(end, login.line)
    ensures var x := SessionOn(site, all, login.line, end.time);
            && ChargedOnce(Run(site, INITIAL, all).books.log, Run(site, INITIAL, all + [end]).books.log, x)
            && x.name == login.name && x.start + x.dur == end.time && 0 <= x.dur <= end.time - login.time
            && (x.dur == end.time - login.time <==> AllAt(mid, login.line, login.time))
  {
    ForwardParts(mid, end, login.time);
    KeptIsAllAt(pre + [login], mid, login.line, login.time);
    LoggedIn(pre, login);
    StandsSince(pre + [login], mid, login.line, login.time, login.name);
    ChargedWholeIff(site, pre, login, mid, end, all);
  }

  lemma {:induction false} ForwardParts(mid: seq<Wtmp>, end: Wtmp, t: int)
    requires Forward(mid + [end], t)
    ensures Onward(mid, t) && t <= end.time && (mid != [] ==> mid[|mid| - 1].time <= end.time)
  {
    var rs := mid + [end];
    ForwardIsOnward(rs, t);
    assert rs[|mid|] == end;
    forall i | 0 <= i < |mid| ensures mid[i] == rs[i] { }
  }

  // ----- too little and too much -----

  /** A session with one other record of its line at `t1` is charged from there: short if that is
      later than the login, and too long if it is earlier, though then it is refused. */
  lemma {:induction false} OneRecordBetween(site: Site, line: Name, name: Name, kind: Kind, t0: int, t1: int, t2: int,
                                            all: seq<Wtmp>)
    requires line != [] && name != [] && (kind.LoginProcess? || kind.InitProcess?) && 0 <= t0 && t1 <= t2
    requires all == ([] + [Wtmp(UserProcess, line, name, t0)]) + [Wtmp(kind, line, [], t1)]
    ensures var log := Run(site, INITIAL, all + [Wtmp(DeadProcess, line, [], t2)]).books.log;
            log != [] && log[|log| - 1].name == name && log[|log| - 1].dur == t2 - t1
  {
    var login, mid := Wtmp(UserProcess, line, name, t0), [Wtmp(kind, line, [], t1)];
    var end := Wtmp(DeadProcess, line, [], t2);
    assert mid[..0] == [] && LastOn(mid, line) == 0;
    assert Open([] + [login], mid, line);
    assert StandsAt([] + [login], mid, line, t0) == t1;
    LoggedIn([], login);
    StandsSince([] + [login], mid, line, t0, name);
    ChargedSince(site, all, end);
  }

  /** A login at 10, a getty at 5 and a logoff at 20: 15 are charged. */
  lemma Overcharged(site: Site, all: seq<Wtmp>)
    requires all == ([] + [Wtmp(UserProcess, [1], [2], 10)]) + [Wtmp(LoginProcess, [1], [], 5)]
    ensures var log := Run(site, INITIAL, all + [Wtmp(DeadProcess, [1], [], 20)]).books.log;
            log != [] && log[|log| - 1].name == [2] && log[|log| - 1].dur == 15
  {
    OneRecordBetween(site, [1], [2], LoginProcess, 10, 5, 20, all);
  }
}
