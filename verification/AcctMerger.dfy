/** The state and operations of usr/src/cmd/acct/acctmerg.c. */
module AcctMerger {
  import opened AcctRecords
  import opened AcctMerge

  /** What is still to come of a file whose current record is `t` and whose unread part is
      `xs`.  A record without a name stands for none, and nothing is read past it. */
  function Pending(t: Rec, xs: seq<Rec>): seq<Rec> { if t.name == [] then [] else [t] + Trim(xs) }

  ghost predicate Shows(tb: seq<Rec>, fl: seq<seq<Rec>>, rest: seq<seq<Rec>>) {
    |tb| == |fl| == |rest| && forall i :: 0 <= i < |rest| ==> rest[i] == Pending(tb[i], fl[i])
  }

  lemma PendingNext(t: Rec, xs: seq<Rec>)
    requires Pending(t, xs) != []
    ensures Pending(t, xs)[0] == t && Pending(t, xs)[1..] == Trim(xs)
  {
  }

  // ----- summing -----

  predicate NoneLike(u: bool, k: Rec, pre: seq<seq<Rec>>) {
    forall j :: 0 <= j < |pre| && pre[j] != [] ==> !Same(u, pre[j][0], k)
  }

  /** Files with no record like `k` in front are passed over. */
  lemma {:induction false} SkipTaken(u: bool, k: Rec, acc: Sums, pre: seq<seq<Rec>>, post: seq<seq<Rec>>)
    requires NoneLike(u, k, pre)
    ensures TakenAll(u, k, acc, pre + post) == TakenAll(u, k, acc, post)
  {
    if pre == [] {
      assert pre + post == post;
    } else {
      assert (pre + post)[1..] == pre[1..] + post;
      SkipTaken(u, k, acc, pre[1..], post);
    }
  }

  lemma SkipLeft(u: bool, k: Rec, pre: seq<seq<Rec>>, post: seq<seq<Rec>>)
    requires NoneLike(u, k, pre)
    ensures LeftAll(u, k, pre + post) == pre + LeftAll(u, k, post)
  {
    var a, b := LeftAll(u, k, pre + post), pre + LeftAll(u, k, post);
    forall i | 0 <= i < |a| ensures a[i] == b[i] {
      assert (pre + post)[i] == if i < |pre| then pre[i] else post[i - |pre|];
    }
  }

  /** One more record of the first of the files `todo` is taken. */
  lemma TakeOne(u: bool, k: Rec, acc: Sums, todo: seq<seq<Rec>>)
    requires todo != [] && todo[0] != [] && Same(u, todo[0][0], k)
    ensures var todo' := [todo[0][1..]] + todo[1..];
            && TakenAll(u, k, acc, todo) == TakenAll(u, k, Plus(acc, todo[0][0].amt), todo')
            && LeftAll(u, k, todo) == LeftAll(u, k, todo') && Size(todo') < Size(todo)
  {
    var todo' := [todo[0][1..]] + todo[1..];
    assert todo'[1..] == todo[1..];
  }

  lemma PassOne(u: bool, k: Rec, acc: Sums, todo: seq<seq<Rec>>)
    requires todo != [] && (todo[0] == [] || !Same(u, todo[0][0], k))
    ensures TakenAll(u, k, acc, todo) == TakenAll(u, k, acc, todo[1..])
            && LeftAll(u, k, todo) == [todo[0]] + LeftAll(u, k, todo[1..])
    ensures Size(todo[1..]) <= Size(todo)
  {
  }

  lemma Regroup(done: seq<seq<Rec>>, x: seq<Rec>, rest: seq<seq<Rec>>)
    ensures done + ([x] + rest) == (done + [x]) + rest
  {
  }

  /** The loop of `sumcurr`: the files in `done` are finished with, `todo` is to be looked at;
      `tc` and `tt` are the sums so far. */
  ghost predicate Summing(u: bool, k: Rec, done: seq<seq<Rec>>, todo: seq<seq<Rec>>, tc: Sums, tt: Sums,
          rest: seq<seq<Rec>>, tt0: Sums) {
    && TakenAll(u, k, tc, todo) == TakenAll(u, k, ZERO, rest)
    && TakenAll(u, k, tt, todo) == TakenAll(u, k, tt0, rest)
    && done + LeftAll(u, k, todo) == LeftAll(u, k, rest)
  }

  lemma SummingStart(u: bool, rest: seq<seq<Rec>>, i: nat, tt0: Sums) returns (pre: seq<seq<Rec>>, post: seq<seq<Rec>>)
    requires IsLeast(u, rest, i)
    ensures |pre| == i && rest[i := rest[i][1..]] == pre + post
    ensures Summing(u, rest[i][0], pre, post, rest[i][0].amt, Plus(tt0, rest[i][0].amt), rest, tt0)
  {
    pre, post := rest[..i], [rest[i][1..]] + rest[i + 1..];
    var k, todo := rest[i][0], rest[i..];
    assert rest == pre + todo;
    forall j | 0 <= j < i && pre[j] != [] ensures !Same(u, pre[j][0], k) { LessTotal(u, k, pre[j][0]); }
    SkipTaken(u, k, ZERO, pre, todo);
    SkipTaken(u, k, tt0, pre, todo);
    SkipLeft(u, k, pre, todo);
    TakeOne(u, k, ZERO, todo);
    TakeOne(u, k, tt0, todo);
    PlusZero(k.amt);
    assert todo[1..] == rest[i + 1..];
  }

  lemma SummingTake(u: bool, k: Rec, done: seq<seq<Rec>>, todo: seq<seq<Rec>>, tc: Sums, tt: Sums,
          rest: seq<seq<Rec>>, tt0: Sums)
    requires Summing(u, k, done, todo, tc, tt, rest, tt0) && todo != [] && todo[0] != [] && Same(u, todo[0][0], k)
    ensures var a := todo[0][0].amt;
            Summing(u, k, done, [todo[0][1..]] + todo[1..], Plus(tc, a), Plus(tt, a), rest, tt0)
    ensures Size([todo[0][1..]] + todo[1..]) < Size(todo)
  {
    TakeOne(u, k, tc, todo);
    TakeOne(u, k, tt, todo);
  }

  lemma SummingPass(u: bool, k: Rec, done: seq<seq<Rec>>, todo: seq<seq<Rec>>, tc: Sums, tt: Sums,
          rest: seq<seq<Rec>>, tt0: Sums)
    requires Summing(u, k, done, todo, tc, tt, rest, tt0) && todo != [] && (todo[0] == [] || !Same(u, todo[0][0], k))
    ensures Summing(u, k, done + [todo[0]], todo[1..], tc, tt, rest, tt0)
  {
    PassOne(u, k, tc, todo);
    PassOne(u, k, tt, todo);
    Regroup(done, todo[0], LeftAll(u, k, todo[1..]));
  }

  lemma SummingEnd(u: bool, k: Rec, done: seq<seq<Rec>>, tc: Sums, tt: Sums, rest: seq<seq<Rec>>, tt0: Sums)
    requires Summing(u, k, done, [], tc, tt, rest, tt0)
    ensures tc == TakenAll(u, k, ZERO, rest) && tt == TakenAll(u, k, tt0, rest) && done == LeftAll(u, k, rest)
  {
    assert done + LeftAll(u, k, []) == done;
  }

  lemma Front(done: seq<seq<Rec>>, todo: seq<seq<Rec>>)
    requires todo != []
    ensures (done + todo)[|done|] == todo[0] && (done + [todo[0]]) + todo[1..] == done + todo
    ensures todo[0] != [] ==> (done + todo)[|done| := todo[0][1..]] == done + ([todo[0][1..]] + todo[1..])
  {
  }

  predicate SomeEmpty(files: seq<seq<Rec>>) { exists i :: 0 <= i < |files| && files[i] == [] }

  /** `least` is the file with the least record among the first `i`, or -1. */
  predicate BestOf(u: bool, rest: seq<seq<Rec>>, tb: seq<Rec>, i: nat, least: int) {
    && i <= |rest| == |tb| && least == LeastBefore(u, rest, i)
    && (least >= 0 ==> tb[least] == rest[least][0])
  }

  predicate Beats(u: bool, tb: seq<Rec>, i: nat, least: int)
    requires i < |tb| && -1 <= least < |tb|
  {
    tb[i].name != [] && (least == -1 || Less(u, tb[i], tb[least]))
  }

  lemma {:induction false} BestNext(u: bool, rest: seq<seq<Rec>>, tb: seq<Rec>, fl: seq<seq<Rec>>, i: nat, least: int)
    requires Shows(tb, fl, rest) && i < |rest| && BestOf(u, rest, tb, i, least)
    ensures BestOf(u, rest, tb, i + 1, if Beats(u, tb, i, least) then i else least)
  {
    assert rest[i] == Pending(tb[i], fl[i]);
  }

  class Merger {
    const uidsum: bool
    const totalonly: bool
    const tb: array<Rec>
    const fl: array<seq<Rec>>
    var tt: Rec
    var out: seq<Rec>
    var exitcode: int

    ghost predicate Ready()
      reads this
    {
      tb.Length == fl.Length
    }

    ghost predicate At(rest: seq<seq<Rec>>)
      reads this, tb, fl
    {
      Ready() && Shows(tb[..], fl[..], rest)
    }

    constructor (uidsum: bool, totalonly: bool, files: seq<seq<Rec>>)
      ensures Ready() && this.uidsum == uidsum && this.totalonly == totalonly && fresh(tb) && fresh(fl)
      ensures fl[..] == files && out == [] && tt.amt == ZERO && exitcode == 0
    {
      this.uidsum, this.totalonly := uidsum, totalonly;
      tb := new Rec[|files|](_ => Rec(0, [], ZERO));
      fl := new seq<Rec>[|files|](i requires 0 <= i < |files| => files[i]);
      tt, out, exitcode := Rec(0, [84, 79, 84, 65, 76], ZERO), [], 0;
      new;
      assert fl[..] == files;
    }

    /** `getnext` */
    method GetNext(i: nat) returns (more: bool)
      requires Ready() && i < tb.Length
      modifies tb, fl
      ensures more == (old(fl[i]) != []) && Pending(tb[i], fl[i]) == Trim(old(fl[i]))
      ensures forall j :: 0 <= j < tb.Length && j != i ==> tb[j] == old(tb[j]) && fl[j] == old(fl[j])
    {
      tb[i] := tb[i].(name := []);
      if fl[i] == [] { return false; }
      tb[i] := fl[i][0];
      fl[i] := fl[i][1..];
      more := true;
    }

    /** `getnext` after a record of file `i` was used. */
    method Advance(i: nat, ghost rest: seq<seq<Rec>>)
      requires At(rest) && i < |rest| && rest[i] != []
      modifies tb, fl
      ensures At(rest[i := rest[i][1..]])
    {
      PendingNext(tb[i], fl[i]);
      var more := GetNext(i);
    }

    /** `getleast` */
    method GetLeast(ghost rest: seq<seq<Rec>>) returns (least: int)
      requires At(rest)
      ensures least == Least(uidsum, rest)
      ensures if AllRead(rest) then least == -1 else Lowest(uidsum, rest, least)
    {
      LeastIsLowest(uidsum, rest);
      least := ScanLeast(rest);
    }

    /** Its loop. */
    method ScanLeast(ghost rest: seq<seq<Rec>>) returns (least: int)
      requires At(rest)
      ensures least == Least(uidsum, rest)
    {
      ghost var shown := tb[..];
      least := -1;
      var i := 0;
      while i < tb.Length
        invariant 0 <= i <= tb.Length && -1 <= least < i && BestOf(uidsum, rest, shown, i, least)
      {
        BestNext(uidsum, rest, shown, fl[..], i, least);
        var beats := Test(i, least);
        if beats { least := i; }
        i := i + 1;
      }
    }

    /** The test of that loop. */
    method Test(i: nat, least: int) returns (beats: bool)
      requires i < tb.Length && -1 <= least < tb.Length
      ensures beats == Beats(uidsum, tb[..], i, least)
    {
      beats := tb[i].name != [] &&
               (least == -1 || tb[i].uid < tb[least].uid ||
                (tb[i].uid == tb[least].uid && !uidsum && NameLess(tb[i].name, tb[least].name)));
    }

    /** The test of the loop of `sumcurr`. */
    method IsLike(tp: nat, tc: Rec, ghost done: seq<seq<Rec>>, ghost todo: seq<seq<Rec>>) returns (like: bool)
      requires At(done + todo) && tp == |done| < tb.Length
      ensures todo != [] && like == (todo[0] != [] && Same(uidsum, todo[0][0], tc))
      ensures like ==> tb[tp] == todo[0][0]
    {
      assert (done + todo)[tp] == todo[0] == Pending(tb[tp], fl[tp]);
      like := tb[tp].name != [] && tb[tp].uid == tc.uid && (uidsum || tb[tp].name == tc.name);
    }

    /** The loop of `sumcurr`. */
    method SumRest(tp0: nat, k: Rec, acc: Rec, ghost done0: seq<seq<Rec>>, ghost todo0: seq<seq<Rec>>,
            ghost rest: seq<seq<Rec>>, ghost tt0: Sums)
      returns (tc: Rec, ghost left: seq<seq<Rec>>)
      requires At(done0 + todo0) && tp0 == |done0| && acc == k.(amt := acc.amt)
      requires Summing(uidsum, k, done0, todo0, acc.amt, tt.amt, rest, tt0)
      modifies tb, fl, this`tt
      ensures At(left) && tc == k.(amt := tc.amt) && tt == old(tt).(amt := tt.amt)
      ensures Summing(uidsum, k, left, [], tc.amt, tt.amt, rest, tt0)
    {
      tc := acc;
      var tp := tp0;
      ghost var done, todo := done0, todo0;
      while tp < tb.Length
        invariant tp <= tb.Length && |done| == tp && At(done + todo)
        invariant tc == k.(amt := tc.amt) && tt == old(tt).(amt := tt.amt)
        invariant Summing(uidsum, k, done, todo, tc.amt, tt.amt, rest, tt0)
        decreases |todo|, Size(todo)
      {
        var like := IsLike(tp, tc, done, todo);
        Front(done, todo);
        if like {
          SummingTake(uidsum, k, done, todo, tc.amt, tt.amt, rest, tt0);
          tc := tc.(amt := Plus(tc.amt, tb[tp].amt));
          tt := tt.(amt := Plus(tt.amt, tb[tp].amt));
          Advance(tp, done + todo);
          todo := [todo[0][1..]] + todo[1..];
        } else {
          SummingPass(uidsum, k, done, todo, tc.amt, tt.amt, rest, tt0);
          done, todo := done + [todo[0]], todo[1..];
          tp := tp + 1;
        }
      }
      assert todo == [] && done + todo == done;
      left := done;
    }

    /** `output`, except where only the totals are wanted. */
    method Output(tc: Rec)
      modifies this`out
      ensures out == old(out) + if totalonly then [] else [tc]
    {
      if !totalonly { out := out + [tc]; } else { assert out + [] == out; }
    }

    /** `sumcurr` */
    method SumCurr(i: nat, ghost rest: seq<seq<Rec>>) returns (ghost left: seq<seq<Rec>>)
      requires At(rest) && IsLeast(uidsum, rest, i)
      modifies tb, fl, this`tt, this`out
      ensures left == LeftAll(uidsum, rest[i][0], rest) && At(left)
      ensures tt == old(tt).(amt := TakenAll(uidsum, rest[i][0], old(tt.amt), rest))
      ensures out == old(out) + if totalonly then [] else [rest[i][0].(amt := TakenAll(uidsum, rest[i][0], ZERO, rest))]
    {
      ghost var tt0 := tt.amt;
      var k := tb[i];
      assert k == rest[i][0];
      tt := tt.(amt := Plus(tt.amt, tb[i].amt));
      ghost var done, todo := SummingStart(uidsum, rest, i, tt0);
      Advance(i, rest);
      var tc;
      tc, left := SumRest(i, k, k, done, todo, rest, tt0);
      SummingEnd(uidsum, k, left, tc.amt, tt.amt, rest, tt0);
      Output(tc);
    }

    /** The first reads of `main`. */
    method Start(ghost files: seq<seq<Rec>>)
      requires Ready() && fl[..] == files
      modifies this`exitcode, tb, fl
      ensures At(TrimAll(files)) && exitcode == if SomeEmpty(files) then 2 else old(exitcode)
    {
      var i := 0;
      while i < tb.Length
        invariant 0 <= i <= tb.Length
        invariant forall j :: 0 <= j < i ==> Pending(tb[j], fl[j]) == Trim(files[j])
        invariant forall j :: i <= j < fl.Length ==> fl[j] == files[j]
        invariant exitcode == if exists j :: 0 <= j < i && files[j] == [] then 2 else old(exitcode)
      {
        var more := GetNext(i);
        if !more { exitcode := 2; }
        i := i + 1;
      }
    }

    /** The main loop: everything is written out, and `tt` has the totals. */
    method Merge(ghost files: seq<seq<Rec>>)
      requires Ready() && fl[..] == files && out == [] && tt.amt == ZERO
      modifies this, tb, fl
      ensures tt == old(tt).(amt := Totalled(uidsum, ZERO, TrimAll(files)))
      ensures out == if totalonly then [tt] else Merged(uidsum, TrimAll(files))
      ensures exitcode == if SomeEmpty(files) then 2 else old(exitcode)
      ensures Accounted(uidsum, totalonly, files, out)
      ensures !totalonly && (forall i :: 0 <= i < |files| ==> Ascending(uidsum, files[i])) ==>
                StrictlyAscending(uidsum, out)
    {
      if forall i :: 0 <= i < |files| ==> Ascending(uidsum, files[i]) { MergeAscends(uidsum, files); }
      WriteAll(files);
      if totalonly { out := out + [tt]; }
      AllAccounted(uidsum, totalonly, files, tt, out);
    }

    /** The loop itself. */
    method WriteAll(ghost files: seq<seq<Rec>>)
      requires Ready() && fl[..] == files && out == [] && tt.amt == ZERO
      modifies this, tb, fl
      ensures tt == old(tt).(amt := Totalled(uidsum, ZERO, TrimAll(files)))
      ensures out == if totalonly then [] else Merged(uidsum, TrimAll(files))
      ensures exitcode == if SomeEmpty(files) then 2 else old(exitcode)
    {
      Start(files);
      ghost var rest := TrimAll(files);
      ghost var all := rest;
      WritingStart(uidsum, totalonly, rest);
      var least := GetLeast(rest);
      while least != -1
        invariant At(rest) && least == Least(uidsum, rest) && tt == old(tt).(amt := tt.amt)
        invariant exitcode == if SomeEmpty(files) then 2 else old(exitcode)
        invariant Writing(uidsum, totalonly, out, tt.amt, rest, all)
        decreases Size(rest)
      {
        LeastMeans(uidsum, rest);
        WritingNext(uidsum, totalonly, out, tt.amt, rest, all, least);
        rest := SumCurr(least, rest);
        least := GetLeast(rest);
      }
      WritingEnd(uidsum, totalonly, out, tt.amt, rest, all);
    }
  }

  /** What the files hold is in what is written, or behind a record without a name: in all, and
      for every user unless only the totals are written. */
  ghost predicate Accounted(u: bool, totalonly: bool, files: seq<seq<Rec>>, out: seq<Rec>) {
    forall f, w: Which :: w.All? || !totalonly ==>
      SumAll(f, u, w, files) == Sum(f, u, w, out) + SumAll(f, u, w, UnreadAll(files))
  }

  lemma {:induction false} AllAccounted(u: bool, totalonly: bool, files: seq<seq<Rec>>, tt: Rec, out: seq<Rec>)
    requires tt.amt == Totalled(u, ZERO, TrimAll(files))
    requires out == if totalonly then [tt] else Merged(u, TrimAll(files))
    ensures Accounted(u, totalonly, files, out)
  {
    forall f, w: Which | w.All? || !totalonly
      ensures SumAll(f, u, w, files) == Sum(f, u, w, out) + SumAll(f, u, w, UnreadAll(files))
    {
      WrittenConserved(f, u, w, files, totalonly, tt, out);
    }
  }

  lemma WrittenConserved(f: Field, u: bool, w: Which, files: seq<seq<Rec>>, totalonly: bool, tt: Rec, out: seq<Rec>)
    requires tt.amt == Totalled(u, ZERO, TrimAll(files)) && (w.All? || !totalonly)
    requires out == if totalonly then [tt] else Merged(u, TrimAll(files))
    ensures SumAll(f, u, w, files) == Sum(f, u, w, out) + SumAll(f, u, w, UnreadAll(files))
  {
    FilesConserved(f, u, w, files);
    if totalonly {
      assert [tt] + [] == [tt];
      SumCons(f, u, w, tt, []);
    }
  }

  /** A file that starts with a record without a name: all of it is lost, and the exit status
      does not tell. */
  lemma UnnamedLosesFile(u: bool, a: Rec, xs: seq<Rec>, files: seq<seq<Rec>>)
    requires a.name == [] && files == [[a] + xs]
    ensures Merged(u, TrimAll(files)) == [] && UnreadAll(files) == files && !SomeEmpty(files)
  {
    assert files[0][0] == a && Trim(files[0]) == [];
    LeastMeans(u, TrimAll(files));
  }

  /** The loop of `main`: `out` is written, `acc` summed, and `rest` still to come of `all`. */
  ghost predicate Writing(u: bool, totalonly: bool, out: seq<Rec>, acc: Sums, rest: seq<seq<Rec>>, all: seq<seq<Rec>>) {
    && Totalled(u, acc, rest) == Totalled(u, ZERO, all)
    && if totalonly then out == [] else out + Merged(u, rest) == Merged(u, all)
  }

  lemma WritingStart(u: bool, totalonly: bool, all: seq<seq<Rec>>)
    ensures Writing(u, totalonly, [], ZERO, all, all)
  {
    assert [] + Merged(u, all) == Merged(u, all);
  }

  lemma WritingNext(u: bool, totalonly: bool, out: seq<Rec>, acc: Sums, rest: seq<seq<Rec>>, all: seq<seq<Rec>>, i: nat)
    requires Writing(u, totalonly, out, acc, rest, all) && i == Least(u, rest)
    ensures var k := rest[i][0];
            && Writing(u, totalonly, out + if totalonly then [] else [k.(amt := TakenAll(u, k, ZERO, rest))],
                       TakenAll(u, k, acc, rest), LeftAll(u, k, rest), all)
            && Size(LeftAll(u, k, rest)) < Size(rest)
  {
    WriteOne(u, out, rest, i);
    TotalOne(u, acc, rest, i);
    assert out + [] == out;
  }

  lemma TotalOne(u: bool, acc: Sums, rest: seq<seq<Rec>>, i: nat)
    requires i == Least(u, rest)
    ensures var k := rest[i][0]; Totalled(u, acc, rest) == Totalled(u, TakenAll(u, k, acc, rest), LeftAll(u, k, rest))
  {
    LeftShrinks(u, rest[i][0], rest, i);
  }

  lemma WritingEnd(u: bool, totalonly: bool, out: seq<Rec>, acc: Sums, rest: seq<seq<Rec>>, all: seq<seq<Rec>>)
    requires Writing(u, totalonly, out, acc, rest, all) && Least(u, rest) == -1
    ensures acc == Totalled(u, ZERO, all) && out == if totalonly then [] else Merged(u, all)
  {
    assert out + [] == out;
  }

  lemma WriteOne(u: bool, out: seq<Rec>, rest: seq<seq<Rec>>, i: nat)
    requires i == Least(u, rest)
    ensures var k := rest[i][0];
            && out + Merged(u, rest) == (out + [k.(amt := TakenAll(u, k, ZERO, rest))]) + Merged(u, LeftAll(u, k, rest))
            && Size(LeftAll(u, k, rest)) < Size(rest)
  {
    LeftShrinks(u, rest[i][0], rest, i);
  }
}
