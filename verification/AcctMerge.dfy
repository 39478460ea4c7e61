/** usr/src/cmd/acct/acctmerg.c: merging files of accounting records, summing those of one
    user. */
module AcctMerge {
  import opened AcctRecords

  /** The records of a file that are ever read: an empty name ends it. */
  function Trim(xs: seq<Rec>): (r: seq<Rec>)
    ensures r <= xs
    ensures r == xs <==> forall i :: 0 <= i < |xs| ==> xs[i].name != []
  {
    if xs == [] || xs[0].name == [] then [] else [xs[0]] + Trim(xs[1..])
  }

  function TrimAll(files: seq<seq<Rec>>): (r: seq<seq<Rec>>)
    ensures |r| == |files| && forall i :: 0 <= i < |r| ==> r[i] == Trim(files[i])
  {
    if files == [] then [] else [Trim(files[0])] + TrimAll(files[1..])
  }

  // ----- sums -----

  /** Which records count: all, or those summed with a given one. */
  datatype Which = All | Like(k: Rec)

  predicate Counts(u: bool, w: Which, r: Rec) { w.All? || Same(u, r, w.k) }

  function Sum(f: Field, u: bool, w: Which, xs: seq<Rec>): real {
    if xs == [] then 0.0
    else (if Counts(u, w, xs[0]) then Of(f, xs[0].amt) else 0.0) + Sum(f, u, w, xs[1..])
  }

  function SumAll(f: Field, u: bool, w: Which, rest: seq<seq<Rec>>): real {
    if rest == [] then 0.0 else Sum(f, u, w, rest[0]) + SumAll(f, u, w, rest[1..])
  }

  function Size(rest: seq<seq<Rec>>): nat { if rest == [] then 0 else |rest[0]| + Size(rest[1..]) }

  // ----- the merge as a function -----

  /** `acc` with the first records of a file added that are like `k`, and what follows them. */
  function Taken(u: bool, k: Rec, acc: Sums, xs: seq<Rec>): Sums
    decreases |xs|
  {
    if xs != [] && Same(u, xs[0], k) then Taken(u, k, Plus(acc, xs[0].amt), xs[1..]) else acc
  }

  function Left(u: bool, k: Rec, xs: seq<Rec>): (r: seq<Rec>)
    ensures |r| <= |xs| && (xs != [] && Same(u, xs[0], k) ==> |r| < |xs|)
  {
    if xs != [] && Same(u, xs[0], k) then Left(u, k, xs[1..]) else xs
  }

  function TakenAll(u: bool, k: Rec, acc: Sums, rest: seq<seq<Rec>>): Sums
    decreases |rest|
  {
    if rest == [] then acc else TakenAll(u, k, Taken(u, k, acc, rest[0]), rest[1..])
  }

  function LeftAll(u: bool, k: Rec, rest: seq<seq<Rec>>): (r: seq<seq<Rec>>)
    ensures |r| == |rest| && Size(r) <= Size(rest)
    ensures forall i :: 0 <= i < |r| ==> r[i] == Left(u, k, rest[i])
  {
    if rest == [] then [] else [Left(u, k, rest[0])] + LeftAll(u, k, rest[1..])
  }

  /** `getleast`: file `i` has the least record in front, and is the first such. */
  predicate IsLeast(u: bool, rest: seq<seq<Rec>>, i: int) {
    && 0 <= i < |rest| && rest[i] != []
    && (forall j :: 0 <= j < |rest| && rest[j] != [] ==> !Less(u, rest[j][0], rest[i][0]))
    && (forall j :: 0 <= j < i && rest[j] != [] ==> Less(u, rest[i][0], rest[j][0]))
  }

  predicate AllRead(rest: seq<seq<Rec>>) { forall i :: 0 <= i < |rest| ==> rest[i] == [] }

  /** The same over the first `n` files. */
  function LeastBefore(u: bool, rest: seq<seq<Rec>>, n: nat): (i: int)
    requires n <= |rest|
    ensures -1 <= i < n && (i >= 0 ==> rest[i] != [])
  {
    if n == 0 then -1
    else
      var i := LeastBefore(u, rest, n - 1);
      if rest[n - 1] != [] && (i == -1 || Less(u, rest[n - 1][0], rest[i][0])) then n - 1 else i
  }

  function Least(u: bool, rest: seq<seq<Rec>>): (i: int)
    ensures -1 <= i < |rest| && (i >= 0 ==> rest[i] != [])
  {
    LeastBefore(u, rest, |rest|)
  }

  lemma {:induction false} LeastBeforeMeans(u: bool, rest: seq<seq<Rec>>, n: nat)
    requires n <= |rest|
    ensures var i := LeastBefore(u, rest, n);
            if i == -1 then forall j :: 0 <= j < n ==> rest[j] == []
            else (forall j :: 0 <= j < n && rest[j] != [] ==> !Less(u, rest[j][0], rest[i][0]))
                 && (forall j :: 0 <= j < i && rest[j] != [] ==> Less(u, rest[i][0], rest[j][0]))
  {
    if n > 0 {
      LeastBeforeMeans(u, rest, n - 1);
      var i, i' := LeastBefore(u, rest, n), LeastBefore(u, rest, n - 1);
      if i >= 0 {
        LessTotal(u, rest[i][0], rest[i][0]);
        if i == n - 1 && i' >= 0 {
          LessTotal(u, rest[i][0], rest[i'][0]);
          forall j | 0 <= j < n - 1 && rest[j] != []
            ensures Less(u, rest[i][0], rest[j][0]) && !Less(u, rest[j][0], rest[i][0])
          {
            LessTransitive(u, rest[i][0], rest[i'][0], rest[j][0]);
            LessTotal(u, rest[i][0], rest[j][0]);
          }
        }
      }
    }
  }

  /** `getleast` finds nothing exactly when all is read, and else the first least record. */
  lemma LeastMeans(u: bool, rest: seq<seq<Rec>>)
    ensures Least(u, rest) == -1 <==> AllRead(rest)
    ensures Least(u, rest) != -1 ==> IsLeast(u, rest, Least(u, rest))
  {
    LeastBeforeMeans(u, rest, |rest|);
  }

  lemma {:induction false} LeftShrinks(u: bool, k: Rec, rest: seq<seq<Rec>>, i: nat)
    requires i < |rest| && rest[i] != [] && Same(u, rest[i][0], k)
    ensures Size(LeftAll(u, k, rest)) < Size(rest)
  {
    if i > 0 { LeftShrinks(u, k, rest[1..], i - 1); }
  }

  /** The records written. */
  function Merged(u: bool, rest: seq<seq<Rec>>): seq<Rec>
    decreases Size(rest)
  {
    var i := Least(u, rest);
    if i == -1 then []
    else
      var k := rest[i][0];
      LeftShrinks(u, k, rest, i);
      [k.(amt := TakenAll(u, k, ZERO, rest))] + Merged(u, LeftAll(u, k, rest))
  }

  // ----- conservation -----

  lemma {:induction false} TakenAndLeft(f: Field, u: bool, w: Which, k: Rec, acc: Sums, xs: seq<Rec>)
    ensures Sum(f, u, w, xs) ==
            (if Counts(u, w, k) then Of(f, Taken(u, k, acc, xs)) - Of(f, acc) else 0.0) + Sum(f, u, w, Left(u, k, xs))
    decreases |xs|
  {
    if xs != [] && Same(u, xs[0], k) {
      PlusAdds(f, acc, xs[0].amt);
      TakenAndLeft(f, u, w, k, Plus(acc, xs[0].amt), xs[1..]);
    }
  }

  lemma {:induction false} TakenAndLeftAll(f: Field, u: bool, w: Which, k: Rec, acc: Sums, rest: seq<seq<Rec>>)
    ensures SumAll(f, u, w, rest) ==
            (if Counts(u, w, k) then Of(f, TakenAll(u, k, acc, rest)) - Of(f, acc) else 0.0) +
            SumAll(f, u, w, LeftAll(u, k, rest))
    decreases |rest|
  {
    if rest != [] {
      TakenAndLeft(f, u, w, k, acc, rest[0]);
      TakenAndLeftAll(f, u, w, k, Taken(u, k, acc, rest[0]), rest[1..]);
      assert LeftAll(u, k, rest)[1..] == LeftAll(u, k, rest[1..]);
    }
  }

  lemma {:induction false} SumNone(f: Field, u: bool, w: Which, rest: seq<seq<Rec>>)
    requires AllRead(rest)
    ensures SumAll(f, u, w, rest) == 0.0
  {
    if rest != [] { SumNone(f, u, w, rest[1..]); }
  }

  lemma WriteConserves(f: Field, u: bool, w: Which, k: Rec, rest: seq<seq<Rec>>, out: seq<Rec>)
    requires Sum(f, u, w, out) == SumAll(f, u, w, LeftAll(u, k, rest))
    ensures Sum(f, u, w, [k.(amt := TakenAll(u, k, ZERO, rest))] + out) == SumAll(f, u, w, rest)
  {
    TakenAndLeftAll(f, u, w, k, ZERO, rest);
    OfZero(f);
    SumCons(f, u, w, k.(amt := TakenAll(u, k, ZERO, rest)), out);
  }

  /** For any input, in order or not: nothing is lost or counted twice, neither in all nor for
      any one user. */
  lemma {:induction false} MergeConserves(f: Field, u: bool, w: Which, rest: seq<seq<Rec>>)
    ensures Sum(f, u, w, Merged(u, rest)) == SumAll(f, u, w, rest)
    decreases Size(rest)
  {
    LeastMeans(u, rest);
    var i := Least(u, rest);
    if i == -1 {
      SumNone(f, u, w, rest);
    } else {
      var k := rest[i][0];
      LeftShrinks(u, k, rest, i);
      MergeConserves(f, u, w, LeftAll(u, k, rest));
      WriteConserves(f, u, w, k, rest, Merged(u, LeftAll(u, k, rest)));
    }
  }

  /** The record `tt` of totals, if it was `acc` before. */
  function Totalled(u: bool, acc: Sums, rest: seq<seq<Rec>>): Sums
    decreases Size(rest)
  {
    var i := Least(u, rest);
    if i == -1 then acc
    else
      var k := rest[i][0];
      LeftShrinks(u, k, rest, i);
      Totalled(u, TakenAll(u, k, acc, rest), LeftAll(u, k, rest))
  }

  lemma {:induction false} TotalConserves(f: Field, u: bool, acc: Sums, rest: seq<seq<Rec>>)
    ensures Of(f, Totalled(u, acc, rest)) == Of(f, acc) + SumAll(f, u, All, rest)
    decreases Size(rest)
  {
    LeastMeans(u, rest);
    var i := Least(u, rest);
    if i == -1 {
      SumNone(f, u, All, rest);
    } else {
      var k := rest[i][0];
      LeftShrinks(u, k, rest, i);
      TakenAndLeftAll(f, u, All, k, acc, rest);
      TotalConserves(f, u, TakenAll(u, k, acc, rest), LeftAll(u, k, rest));
    }
  }

  lemma SumCons(f: Field, u: bool, w: Which, r: Rec, xs: seq<Rec>)
    ensures Sum(f, u, w, [r] + xs) == (if Counts(u, w, r) then Of(f, r.amt) else 0.0) + Sum(f, u, w, xs)
  {
    assert ([r] + xs)[1..] == xs;
  }

  // ----- whole files -----

  /** What is never summed of a file: a record without a name, and all that is behind it. */
  function Unread(xs: seq<Rec>): (r: seq<Rec>)
    ensures Trim(xs) + r == xs
  {
    xs[|Trim(xs)|..]
  }

  function UnreadAll(files: seq<seq<Rec>>): (r: seq<seq<Rec>>)
    ensures |r| == |files| && forall i :: 0 <= i < |r| ==> r[i] == Unread(files[i])
  {
    seq(|files|, i requires 0 <= i < |files| => Unread(files[i]))
  }

  lemma {:induction false} SumAppend(f: Field, u: bool, w: Which, xs: seq<Rec>, ys: seq<Rec>)
    ensures Sum(f, u, w, xs + ys) == Sum(f, u, w, xs) + Sum(f, u, w, ys)
  {
    if xs == [] {
      assert xs + ys == ys;
    } else {
      assert (xs + ys)[1..] == xs[1..] + ys;
      SumAppend(f, u, w, xs[1..], ys);
    }
  }

  lemma {:induction false} FilesSplit(f: Field, u: bool, w: Which, files: seq<seq<Rec>>)
    ensures SumAll(f, u, w, files) == SumAll(f, u, w, TrimAll(files)) + SumAll(f, u, w, UnreadAll(files))
  {
    if files != [] {
      SumAppend(f, u, w, Trim(files[0]), Unread(files[0]));
      FilesSplit(f, u, w, files[1..]);
      assert TrimAll(files)[1..] == TrimAll(files[1..]) && UnreadAll(files)[1..] == UnreadAll(files[1..]);
    }
  }

  /** What the files hold is written, or behind a record without a name. */
  lemma FilesConserved(f: Field, u: bool, w: Which, files: seq<seq<Rec>>)
    ensures SumAll(f, u, w, files) == Sum(f, u, w, Merged(u, TrimAll(files))) + SumAll(f, u, w, UnreadAll(files))
    ensures w.All? ==> SumAll(f, u, w, files) ==
                       Of(f, Totalled(u, ZERO, TrimAll(files))) + SumAll(f, u, w, UnreadAll(files))
  {
    FilesSplit(f, u, w, files);
    MergeConserves(f, u, w, TrimAll(files));
    TotalConserves(f, u, ZERO, TrimAll(files));
    OfZero(f);
  }

  predicate Named(xs: seq<Rec>) { forall i :: 0 <= i < |xs| ==> xs[i].name != [] }

  /** Nothing is left out exactly when every record of every file has a name. */
  lemma AllReadIffNamed(files: seq<seq<Rec>>)
    ensures AllRead(UnreadAll(files)) <==> forall i :: 0 <= i < |files| ==> Named(files[i])
  {
    forall i | 0 <= i < |files| ensures UnreadAll(files)[i] == [] <==> Named(files[i]) {
      assert Trim(files[i]) + Unread(files[i]) == files[i];
    }
  }

  /** Then what is written adds up to what the files hold. */
  lemma NamedConserved(f: Field, u: bool, w: Which, files: seq<seq<Rec>>)
    requires forall i :: 0 <= i < |files| ==> Named(files[i])
    ensures SumAll(f, u, w, files) == Sum(f, u, w, Merged(u, TrimAll(files)))
  {
    FilesConserved(f, u, w, files);
    AllReadIffNamed(files);
    SumNone(f, u, w, UnreadAll(files));
  }

  // ----- order -----

  predicate After(u: bool, k: Rec, xs: seq<Rec>) { forall i :: 0 <= i < |xs| ==> Less(u, k, xs[i]) }

  predicate NotBefore(u: bool, k: Rec, xs: seq<Rec>) { forall i :: 0 <= i < |xs| ==> !Less(u, xs[i], k) }

  /** A file is in order: no record comes before an earlier one. */
  predicate InOrder(u: bool, xs: seq<Rec>) { forall i :: 0 <= i < |xs| ==> NotBefore(u, xs[i], xs[i + 1..]) }

  predicate AllInOrder(u: bool, rest: seq<seq<Rec>>) { forall i :: 0 <= i < |rest| ==> InOrder(u, rest[i]) }

  predicate StrictlyInOrder(u: bool, xs: seq<Rec>) { forall i :: 0 <= i < |xs| ==> After(u, xs[i], xs[i + 1..]) }

  predicate AllAfter(u: bool, k: Rec, rest: seq<seq<Rec>>) { forall i :: 0 <= i < |rest| ==> After(u, k, rest[i]) }

  lemma {:induction false} LeftAfter(u: bool, k: Rec, xs: seq<Rec>)
    requires InOrder(u, xs) && (xs != [] ==> !Less(u, xs[0], k))
    ensures InOrder(u, Left(u, k, xs)) && After(u, k, Left(u, k, xs))
  {
    if xs != [] {
      assert NotBefore(u, xs[0], xs[1..]);
      if Same(u, xs[0], k) {
        InOrderTail(u, xs);
        if |xs| > 1 { LessTotal(u, xs[0], k); LessTransitive(u, k, xs[0], xs[1]); }
        LeftAfter(u, k, xs[1..]);
      } else {
        LessTotal(u, xs[0], k);
        forall i | 0 <= i < |xs| ensures Less(u, k, xs[i]) {
          if i > 0 { assert xs[1..][i - 1] == xs[i]; LessTransitive(u, k, xs[0], xs[i]); }
        }
      }
    }
  }

  lemma InOrderTail(u: bool, xs: seq<Rec>)
    requires xs != [] && InOrder(u, xs)
    ensures InOrder(u, xs[1..])
  {
    forall i | 0 <= i < |xs[1..]| ensures NotBefore(u, xs[1..][i], xs[1..][i + 1..]) {
      assert NotBefore(u, xs[i + 1], xs[i + 1 + 1..]) && xs[1..][i + 1..] == xs[i + 1 + 1..];
    }
  }

  lemma AfterCons(u: bool, k: Rec, r: Rec, xs: seq<Rec>)
    requires Less(u, k, r) && After(u, k, xs)
    ensures After(u, k, [r] + xs)
  {
  }

  /** What is written comes from what is left. */
  lemma {:induction false} MergedAfter(u: bool, k: Rec, rest: seq<seq<Rec>>)
    requires AllInOrder(u, rest) && AllAfter(u, k, rest)
    ensures After(u, k, Merged(u, rest))
    decreases Size(rest)
  {
    var i := Least(u, rest);
    if i != -1 {
      LeastMeans(u, rest);
      var r := rest[i][0];
      assert After(u, k, rest[i]);
      LeftShrinks(u, r, rest, i);
      LeftAllAfter(u, r, rest, i);
      LeftAllKeepsAfter(u, k, r, rest);
      MergedAfter(u, k, LeftAll(u, r, rest));
      AfterCons(u, k, r.(amt := TakenAll(u, r, ZERO, rest)), Merged(u, LeftAll(u, r, rest)));
    }
  }

  lemma {:induction false} LeftKeepsAfter(u: bool, k: Rec, r: Rec, xs: seq<Rec>)
    requires After(u, k, xs)
    ensures After(u, k, Left(u, r, xs))
  {
    if xs != [] && Same(u, xs[0], r) { LeftKeepsAfter(u, k, r, xs[1..]); }
  }

  lemma LeftAllKeepsAfter(u: bool, k: Rec, r: Rec, rest: seq<seq<Rec>>)
    requires AllAfter(u, k, rest)
    ensures AllAfter(u, k, LeftAll(u, r, rest))
  {
    forall j | 0 <= j < |rest| ensures After(u, k, Left(u, r, rest[j])) { LeftKeepsAfter(u, k, r, rest[j]); }
  }

  lemma LeftAllAfter(u: bool, k: Rec, rest: seq<seq<Rec>>, i: int)
    requires AllInOrder(u, rest) && IsLeast(u, rest, i) && k == rest[i][0]
    ensures AllInOrder(u, LeftAll(u, k, rest)) && AllAfter(u, k, LeftAll(u, k, rest))
  {
    forall j | 0 <= j < |rest| ensures InOrder(u, Left(u, k, rest[j])) && After(u, k, Left(u, k, rest[j])) {
      assert InOrder(u, rest[j]);
      LeftAfter(u, k, rest[j]);
    }
  }

  /** Files in order give a file in strict order: one record for each user. */
  lemma {:induction false} MergeInOrder(u: bool, rest: seq<seq<Rec>>)
    requires AllInOrder(u, rest)
    ensures StrictlyInOrder(u, Merged(u, rest))
    decreases Size(rest)
  {
    var i := Least(u, rest);
    if i != -1 {
      LeastMeans(u, rest);
      var k := rest[i][0];
      LeftShrinks(u, k, rest, i);
      LeftAllAfter(u, k, rest, i);
      MergeInOrder(u, LeftAll(u, k, rest));
      MergedAfter(u, k, LeftAll(u, k, rest));
      StrictCons(u, k.(amt := TakenAll(u, k, ZERO, rest)), Merged(u, LeftAll(u, k, rest)));
    }
  }

  lemma StrictCons(u: bool, r: Rec, xs: seq<Rec>)
    requires After(u, r, xs) && StrictlyInOrder(u, xs)
    ensures StrictlyInOrder(u, [r] + xs)
  {
    var ys := [r] + xs;
    forall i | 0 <= i < |ys| ensures After(u, ys[i], ys[i + 1..]) {
      if i == 0 {
        assert ys[1..] == xs;
      } else {
        assert After(u, xs[i - 1], xs[i - 1 + 1..]) && ys[i + 1..] == xs[i - 1 + 1..];
      }
    }
  }

  /** No record has a lower number than an earlier one, and of one number the names ascend. */
  predicate Ascending(u: bool, xs: seq<Rec>) { forall i, j :: 0 <= i < j < |xs| ==> NotAfter(u, xs[i], xs[j]) }

  /** Each record has a higher number than the earlier ones, or the same and a later name. */
  predicate StrictlyAscending(u: bool, xs: seq<Rec>) { forall i, j :: 0 <= i < j < |xs| ==> Precedes(u, xs[i], xs[j]) }

  lemma {:induction false} AscendingInOrder(u: bool, xs: seq<Rec>)
    requires Ascending(u, xs)
    ensures InOrder(u, xs)
  {
    forall i | 0 <= i < |xs| ensures NotBefore(u, xs[i], xs[i + 1..]) {
      var rest := xs[i + 1..];
      forall j | 0 <= j < |rest| ensures !Less(u, rest[j], xs[i]) {
        assert NotAfter(u, xs[i], xs[i + 1 + j]);
        LessMeans(u, xs[i], rest[j]);
      }
    }
  }

  lemma {:induction false} StrictAscends(u: bool, xs: seq<Rec>)
    requires StrictlyInOrder(u, xs)
    ensures StrictlyAscending(u, xs)
  {
    forall i, j | 0 <= i < j < |xs| ensures Precedes(u, xs[i], xs[j]) {
      assert After(u, xs[i], xs[i + 1..]) && xs[i + 1..][j - (i + 1)] == xs[j];
      LessMeans(u, xs[i], xs[j]);
    }
  }

  /** Files with ascending numbers, and ascending names for one number, give a file with
      strictly ascending ones; with `uidsum` no number is there twice. */
  lemma {:induction false} MergeAscends(u: bool, files: seq<seq<Rec>>)
    requires forall i :: 0 <= i < |files| ==> Ascending(u, files[i])
    ensures StrictlyAscending(u, Merged(u, TrimAll(files)))
  {
    var rest := TrimAll(files);
    forall i | 0 <= i < |rest| ensures InOrder(u, rest[i]) {
      assert Ascending(u, files[i]) && rest[i] <= files[i];
      AscendingInOrder(u, rest[i]);
    }
    MergeInOrder(u, rest);
    StrictAscends(u, Merged(u, rest));
  }

  /** The record in front of file `i` precedes those in front of the files before it, and comes
      after none of the others. */
  predicate Lowest(u: bool, rest: seq<seq<Rec>>, i: int) {
    && 0 <= i < |rest| && rest[i] != []
    && (forall j :: 0 <= j < |rest| && rest[j] != [] ==> NotAfter(u, rest[i][0], rest[j][0]))
    && (forall j :: 0 <= j < i && rest[j] != [] ==> Precedes(u, rest[i][0], rest[j][0]))
  }

  lemma {:induction false} LeastIsLowest(u: bool, rest: seq<seq<Rec>>)
    ensures if AllRead(rest) then Least(u, rest) == -1 else Lowest(u, rest, Least(u, rest))
  {
    LeastMeans(u, rest);
    var i := Least(u, rest);
    if i != -1 {
      forall j | 0 <= j < |rest| && rest[j] != []
        ensures NotAfter(u, rest[i][0], rest[j][0]) && (j < i ==> Precedes(u, rest[i][0], rest[j][0]))
      {
        LessMeans(u, rest[i][0], rest[j][0]);
      }
    }
  }

  // ----- one record for each user -----

  lemma {:induction false} SumOfAfter(f: Field, u: bool, k: Rec, xs: seq<Rec>)
    requires After(u, k, xs)
    ensures Sum(f, u, Like(k), xs) == 0.0
  {
    if xs != [] {
      LessTotal(u, k, xs[0]);
      SumOfAfter(f, u, k, xs[1..]);
    }
  }

  /** In a strictly ordered list a record is the sum of those like it. */
  lemma {:induction false} StrictSum(f: Field, u: bool, xs: seq<Rec>, i: nat)
    requires StrictlyInOrder(u, xs) && i < |xs|
    ensures Sum(f, u, Like(xs[i]), xs) == Of(f, xs[i].amt)
  {
    assert After(u, xs[0], xs[0 + 1..]) && xs[0 + 1..] == xs[1..];
    if i == 0 {
      SumOfAfter(f, u, xs[0], xs[1..]);
    } else {
      assert xs[1..][i - 1] == xs[i];
      LessTotal(u, xs[0], xs[i]);
      StrictTail(u, xs);
      StrictSum(f, u, xs[1..], i - 1);
    }
  }

  lemma StrictTail(u: bool, xs: seq<Rec>)
    requires xs != [] && StrictlyInOrder(u, xs)
    ensures StrictlyInOrder(u, xs[1..])
  {
    forall i | 0 <= i < |xs[1..]| ensures After(u, xs[1..][i], xs[1..][i + 1..]) {
      assert After(u, xs[i + 1], xs[i + 1 + 1..]) && xs[1..][i + 1..] == xs[i + 1 + 1..];
    }
  }

  /** From files in order, each record written has the sums of all the records read that are
      like it, and no two records written are alike. */
  lemma MergeSumsUsers(f: Field, u: bool, rest: seq<seq<Rec>>, i: nat)
    requires AllInOrder(u, rest) && i < |Merged(u, rest)|
    ensures Of(f, Merged(u, rest)[i].amt) == SumAll(f, u, Like(Merged(u, rest)[i]), rest)
    ensures forall j :: i < j < |Merged(u, rest)| ==> Less(u, Merged(u, rest)[i], Merged(u, rest)[j])
  {
    var out := Merged(u, rest);
    MergeInOrder(u, rest);
    StrictSum(f, u, out, i);
    MergeConserves(f, u, Like(out[i]), rest);
    assert After(u, out[i], out[i + 1..]);
    forall j | i < j < |out| ensures Less(u, out[i], out[j]) { assert out[i + 1..][j - (i + 1)] == out[j]; }
  }

  /** A record like `k` is in the list, or in one of the files. */
  predicate Has(u: bool, k: Rec, xs: seq<Rec>) { exists i :: 0 <= i < |xs| && Same(u, xs[i], k) }

  predicate SomeHas(u: bool, k: Rec, rest: seq<seq<Rec>>) { exists i :: 0 <= i < |rest| && Has(u, k, rest[i]) }

  lemma {:induction false} LeftHas(u: bool, k: Rec, r: Rec, xs: seq<Rec>)
    ensures !Same(u, r, k) ==> (Has(u, k, Left(u, r, xs)) <==> Has(u, k, xs))
    ensures Has(u, k, Left(u, r, xs)) ==> Has(u, k, xs)
  {
    if xs != [] && Same(u, xs[0], r) {
      LeftHas(u, k, r, xs[1..]);
      if Has(u, k, xs[1..]) {
        var i :| 0 <= i < |xs[1..]| && Same(u, xs[1..][i], k);
        assert Same(u, xs[i + 1], k);
      }
      if i :| 0 <= i < |xs| && Same(u, xs[i], k) {
        if i > 0 { assert Same(u, xs[1..][i - 1], k); }
      }
    }
  }

  /** The users written are the users read, for any input. */
  lemma {:induction false} MergeUsers(u: bool, k: Rec, rest: seq<seq<Rec>>)
    ensures Has(u, k, Merged(u, rest)) <==> SomeHas(u, k, rest)
    decreases Size(rest)
  {
    LeastMeans(u, rest);
    var i := Least(u, rest);
    if i != -1 {
      var r := rest[i][0];
      LeftShrinks(u, r, rest, i);
      var left, out := LeftAll(u, r, rest), Merged(u, LeftAll(u, r, rest));
      MergeUsers(u, k, left);
      var all := Merged(u, rest);
      assert all == [r.(amt := TakenAll(u, r, ZERO, rest))] + out;
      forall j | 0 <= j < |rest| ensures !Same(u, r, k) ==> (Has(u, k, left[j]) <==> Has(u, k, rest[j]))
                                 ensures Has(u, k, left[j]) ==> Has(u, k, rest[j])
      {
        LeftHas(u, k, r, rest[j]);
      }
      HasCons(u, k, all[0], out);
      if Same(u, r, k) { assert Has(u, k, rest[i]); }
    }
  }

  lemma HasCons(u: bool, k: Rec, r: Rec, xs: seq<Rec>)
    ensures Has(u, k, [r] + xs) <==> Same(u, r, k) || Has(u, k, xs)
  {
    var ys := [r] + xs;
    if i :| 0 <= i < |ys| && Same(u, ys[i], k) {
      if i > 0 { assert Same(u, xs[i - 1], k); }
    }
    if i :| 0 <= i < |xs| && Same(u, xs[i], k) { assert Same(u, ys[i + 1], k); }
    if Same(u, r, k) { assert Same(u, ys[0], k); }
  }
}
