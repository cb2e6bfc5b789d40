/**
 * The download pipeline (src/lib/download.ts): a gallery listed by the file server is
 * shaped into a gallery record, its directories are created, its pages are fetched in
 * batches of three with a retry budget, and the record is upserted on success or the
 * chapter directories removed on failure.
 */
module Download {
  import opened Wrappers
  import Slugify
  import Storage
  import FileSystem
  import G = Gallery

  // ----- downloadPages ----------------------------------------------------------------

  /** The number of pages fetched together. */
  const BatchSize: nat := 3

  /** The attempts a batch gets before the download gives up. */
  const Retries: nat := 3

  /** `Math.ceil(n / 3)`: how many batches `n` transfers make. */
  function Batches(n: nat): (b: nat)
    ensures BatchSize * b >= n && (b > 0 ==> BatchSize * (b - 1) < n)
  {
    (n + BatchSize - 1) / BatchSize
  }

  /** `downloads.slice(3 * cur, 3 * (cur + 1))`; `slice` clamps its end to the length. */
  function Batch<T>(downloads: seq<T>, cur: nat): seq<T>
    requires cur < Batches(|downloads|)
  {
    var hi := if BatchSize * (cur + 1) <= |downloads| then BatchSize * (cur + 1) else |downloads|;
    downloads[BatchSize * cur..hi]
  }

  /** The batches from `cur` on, concatenated. */
  function BatchesFrom<T>(downloads: seq<T>, cur: nat): seq<T>
    requires cur <= Batches(|downloads|)
    decreases Batches(|downloads|) - cur
  {
    if cur == Batches(|downloads|) then [] else Batch(downloads, cur) + BatchesFrom(downloads, cur + 1)
  }

  /**
   * The batches are consecutive slices that together are the whole list, each non-empty and
   * of at most three transfers.
   */
  lemma {:induction false} BatchesCover<T>(downloads: seq<T>, cur: nat)
    requires cur <= Batches(|downloads|)
    ensures cur < Batches(|downloads|) ==>
      && BatchesFrom(downloads, cur) == downloads[BatchSize * cur..]
      && 0 < |Batch(downloads, cur)| <= BatchSize
    decreases Batches(|downloads|) - cur
  {
    if cur < Batches(|downloads|) {
      BatchesCover(downloads, cur + 1);
      var hi := if BatchSize * (cur + 1) <= |downloads| then BatchSize * (cur + 1) else |downloads|;
      if hi == |downloads| {
        assert BatchesFrom(downloads, cur + 1) == [];
      } else {
        assert BatchesFrom(downloads, cur + 1) == downloads[hi..];
      }
      assert downloads[BatchSize * cur..] == downloads[BatchSize * cur..hi] + downloads[hi..];
    }
  }

  /** Concatenated, the batches are the whole list. */
  lemma BatchesCoverAll<T>(downloads: seq<T>)
    ensures BatchesFrom(downloads, 0) == downloads
  {
    if Batches(|downloads|) > 0 {
      BatchesCover(downloads, 0);
    }
  }

  /** What `Promise.all` over one batch gives: the statuses of its transfers, or an error. */
  datatype Attempt = Statuses(codes: seq<int>) | Threw

  /** A batch is complete when no transfer answered with a status other than 200. */
  predicate Complete(a: Attempt)
  {
    a.Statuses? && forall i :: 0 <= i < |a.codes| ==> a.codes[i] == 200
  }

  /** One progress callback. */
  datatype Progress = Progress(cur: int, total: int)

  /**
   * How `downloadPages` ends: its result, the progress callbacks made, the batch each
   * attempt fetched, and the number of batches completed.
   */
  datatype Pages = Pages(ok: bool, progress: seq<Progress>, tried: seq<nat>, done: nat)

  /**
   * `downloadPages` from batch `cur` with `retriesLeft` attempts left, where `outcome(k)` is
   * what the `k`-th attempt of the whole call gives.
   */
  function PagesFrom(n: nat, outcome: nat -> Attempt, hasCallback: bool, cur: nat, retriesLeft: nat, k: nat): Pages
    requires cur <= Batches(n)
    decreases Batches(n) - cur, retriesLeft
  {
    if cur == Batches(n) then Pages(true, [], [], cur)
    else if retriesLeft == 0 then Pages(false, [], [], cur)
    else if Complete(outcome(k)) then
      var rest := PagesFrom(n, outcome, hasCallback, cur + 1, Retries, k + 1);
      var call := if hasCallback then [Progress((cur + 1) * BatchSize, n)] else [];
      Pages(rest.ok, call + rest.progress, [cur] + rest.tried, rest.done)
    else
      var rest := PagesFrom(n, outcome, hasCallback, cur, retriesLeft - 1, k + 1);
      Pages(rest.ok, rest.progress, [cur] + rest.tried, rest.done)
  }

  /** The whole call: from the first batch with a full budget. */
  function DownloadPagesSpec(n: nat, outcome: nat -> Attempt, hasCallback: bool): Pages
  {
    PagesFrom(n, outcome, hasCallback, 0, Retries, 0)
  }

  /** The slices sent by attempts on the batches `tried`, in order: attempt `i` sends batch `tried[i]`. */
  function SentOf<T>(downloads: seq<T>, tried: seq<nat>): (r: seq<seq<T>>)
    ensures |r| == |tried|
    ensures forall i :: 0 <= i < |tried| && tried[i] < Batches(|downloads|) ==> r[i] == Batch(downloads, tried[i])
  {
    if tried == [] then []
    else
      var last := tried[|tried| - 1];
      SentOf(downloads, tried[..|tried| - 1]) + [if last < Batches(|downloads|) then Batch(downloads, last) else []]
  }

  /** Sending one more batch extends the slices sent by that batch. */
  lemma SentOfSnoc<T>(downloads: seq<T>, tried: seq<nat>, sent: seq<seq<T>>, cur: nat)
    requires cur < Batches(|downloads|) && sent == SentOf(downloads, tried)
    ensures sent + [Batch(downloads, cur)] == SentOf(downloads, tried + [cur])
  {
    assert (tried + [cur])[..|tried|] == tried;
  }

  /** The loop's account of the run so far: what is done plus what remains is the whole run. */
  ghost predicate RunSoFar(whole: Pages, n: nat, outcome: nat -> Attempt, hasCallback: bool, cur: nat, retriesLeft: nat, k: nat,
                           progress: seq<Progress>, tried: seq<nat>)
  {
    cur <= Batches(n) &&
    var rest := PagesFrom(n, outcome, hasCallback, cur, retriesLeft, k);
    whole.ok == rest.ok && whole.progress == progress + rest.progress && whole.tried == tried + rest.tried
  }

  /** One attempt of the loop keeps that account, whether it completes its batch or not. */
  lemma RunSoFarStep(whole: Pages, n: nat, outcome: nat -> Attempt, hasCallback: bool, cur: nat, retriesLeft: nat, k: nat,
                     progress: seq<Progress>, tried: seq<nat>)
    requires cur < Batches(n) && retriesLeft > 0
    requires RunSoFar(whole, n, outcome, hasCallback, cur, retriesLeft, k, progress, tried)
    ensures !Complete(outcome(k)) ==>
      RunSoFar(whole, n, outcome, hasCallback, cur, retriesLeft - 1, k + 1, progress, tried + [cur])
    ensures Complete(outcome(k)) && hasCallback ==>
      RunSoFar(whole, n, outcome, hasCallback, cur + 1, Retries, k + 1, progress + [Progress((cur + 1) * BatchSize, n)], tried + [cur])
    ensures Complete(outcome(k)) && !hasCallback ==>
      RunSoFar(whole, n, outcome, hasCallback, cur + 1, Retries, k + 1, progress, tried + [cur])
  {
    var next := PagesFrom(n, outcome, hasCallback, NextBatch(cur, outcome(k)), NextBudget(retriesLeft, outcome(k)), k + 1);
    var call := if Complete(outcome(k)) && hasCallback then [Progress((cur + 1) * BatchSize, n)] else [];
    assert PagesFrom(n, outcome, hasCallback, cur, retriesLeft, k).progress == call + next.progress;
    assert progress + (call + next.progress) == (progress + call) + next.progress;
    assert tried + ([cur] + next.tried) == (tried + [cur]) + next.tried;
    assert progress + [] == progress;
  }

  /** The invariant of the batch loop: the run so far, and the slices sent by its attempts. */
  ghost predicate LoopInv<T>(whole: Pages, downloads: seq<T>, outcome: nat -> Attempt, hasCallback: bool, cur: nat, retriesLeft: nat, k: nat,
                           progress: seq<Progress>, tried: seq<nat>, sent: seq<seq<T>>)
  {
    retriesLeft <= Retries && RunSoFar(whole, |downloads|, outcome, hasCallback, cur, retriesLeft, k, progress, tried) && sent == SentOf(downloads, tried)
  }

  /** One attempt keeps the loop invariant, in each of the loop's three branches. */
  lemma LoopInvStep<T>(whole: Pages, downloads: seq<T>, outcome: nat -> Attempt, hasCallback: bool, cur: nat, retriesLeft: nat, k: nat,
                       progress: seq<Progress>, tried: seq<nat>, sent: seq<seq<T>>)
    requires cur < Batches(|downloads|) && retriesLeft > 0
    requires LoopInv(whole, downloads, outcome, hasCallback, cur, retriesLeft, k, progress, tried, sent)
    ensures !Complete(outcome(k)) ==>
      LoopInv(whole, downloads, outcome, hasCallback, cur, retriesLeft - 1, k + 1, progress, tried + [cur], sent + [Batch(downloads, cur)])
    ensures Complete(outcome(k)) && hasCallback ==>
      LoopInv(whole, downloads, outcome, hasCallback, cur + 1, Retries, k + 1, progress + [Progress((cur + 1) * BatchSize, |downloads|)], tried + [cur], sent + [Batch(downloads, cur)])
    ensures Complete(outcome(k)) && !hasCallback ==>
      LoopInv(whole, downloads, outcome, hasCallback, cur + 1, Retries, k + 1, progress, tried + [cur], sent + [Batch(downloads, cur)])
  {
    RunSoFarStep(whole, |downloads|, outcome, hasCallback, cur, retriesLeft, k, progress, tried);
    SentOfSnoc(downloads, tried, sent, cur);
  }

  /** When the loop stops, the run so far is the whole run, and its result is what the loop returns. */
  lemma LoopInvExit<T>(whole: Pages, downloads: seq<T>, outcome: nat -> Attempt, hasCallback: bool, cur: nat, retriesLeft: nat, k: nat,
                       progress: seq<Progress>, tried: seq<nat>, sent: seq<seq<T>>, ok: bool)
    requires whole == DownloadPagesSpec(|downloads|, outcome, hasCallback)
    requires LoopInv(whole, downloads, outcome, hasCallback, cur, retriesLeft, k, progress, tried, sent)
    requires cur == Batches(|downloads|) || retriesLeft == 0
    requires ok == (cur == Batches(|downloads|))
    ensures var r := DownloadPagesSpec(|downloads|, outcome, hasCallback);
      ok == r.ok && progress == r.progress && tried == r.tried
    ensures sent == SentOf(downloads, tried)
    ensures ok <==> EveryBatchCompleted(tried, outcome, |downloads|)
  {
    assert progress + [] == progress && tried + [] == tried;
    DownloadPagesDecided(|downloads|, outcome, hasCallback, ok, tried);
  }

  /**
   * `downloadPages`: the batch loop. Besides its result and the callbacks it makes, it
   * returns the batch index of every attempt and the transfers that attempt started.
   */
  method DownloadPages<T>(downloads: seq<T>, outcome: nat -> Attempt, hasCallback: bool)
    returns (ok: bool, progress: seq<Progress>, tried: seq<nat>, sent: seq<seq<T>>)
    ensures var r := DownloadPagesSpec(|downloads|, outcome, hasCallback);
      ok == r.ok && progress == r.progress && tried == r.tried
    ensures sent == SentOf(downloads, tried)
    ensures ok <==> EveryBatchCompleted(tried, outcome, |downloads|)
  {
    var batches := Batches(|downloads|);
    var retriesLeft: nat := Retries;
    var cur: nat := 0;
    var k: nat := 0;
    progress, tried, sent := [], [], [];
    ghost var whole := DownloadPagesSpec(|downloads|, outcome, hasCallback);
    while cur < batches
      invariant cur <= batches
      invariant LoopInv(whole, downloads, outcome, hasCallback, cur, retriesLeft, k, progress, tried, sent)
      decreases batches - cur, retriesLeft
    {
      if retriesLeft == 0 {
        LoopInvExit(whole, downloads, outcome, hasCallback, cur, retriesLeft, k, progress, tried, sent, false);
        return false, progress, tried, sent;
      }
      var attempt := outcome(k);
      LoopInvStep(whole, downloads, outcome, hasCallback, cur, retriesLeft, k, progress, tried, sent);
      sent := sent + [Batch(downloads, cur)];
      tried := tried + [cur];
      k := k + 1;
      if !Complete(attempt) {
        retriesLeft := retriesLeft - 1;
        continue;
      }
      cur := cur + 1;
      retriesLeft := Retries;
      if hasCallback {
        progress := progress + [Progress(cur * BatchSize, |downloads|)];
      }
    }
    ok := true;
    LoopInvExit(whole, downloads, outcome, hasCallback, cur, retriesLeft, k, progress, tried, sent, ok);
  }

  /** `Progress(3 (a + 1), n), ..., Progress(3 b, n)`: the callbacks for batches `a` to `b - 1`. */
  function ProgressCalls(a: nat, b: nat, n: nat): (r: seq<Progress>)
    requires a <= b
    ensures |r| == b - a
    ensures forall i :: 0 <= i < |r| ==> r[i] == Progress((a + i + 1) * BatchSize, n)
  {
    seq(b - a, i requires 0 <= i < b - a => Progress((a + i + 1) * BatchSize, n))
  }

  /** The run ends between `cur` and the last batch, and succeeds exactly when it reaches the end. */
  predicate EndsInRange(r: Pages, n: nat, cur: nat)
  {
    cur <= r.done <= Batches(n) && (r.ok <==> r.done == Batches(n))
  }

  /** One callback per batch completed from `cur` on, counting transfers in threes. */
  predicate ReportsProgress(r: Pages, n: nat, hasCallback: bool, cur: nat)
  {
    cur <= r.done && r.progress == if hasCallback then ProgressCalls(cur, r.done, n) else []
  }

  /** The batches attempted are in order, from `cur`, never past where the run ends. */
  predicate TriesInOrder(r: Pages, n: nat, cur: nat)
  {
    && (forall i :: 0 <= i < |r.tried| ==> cur <= r.tried[i] <= r.done && r.tried[i] < Batches(n))
    && (forall i, j :: 0 <= i < j < |r.tried| ==> r.tried[i] <= r.tried[j])
  }

  /** Every batch completed from `cur` on was attempted. */
  predicate TriesEveryDone(r: Pages, cur: nat)
  {
    forall b :: cur <= b < r.done ==> b in r.tried
  }

  /**
   * Batch `cur` is attempted at most `retriesLeft` times and every later one at most three
   * times; a failed run ends on a batch whose budget it used up.
   */
  ghost predicate KeepsBudget(r: Pages, cur: nat, retriesLeft: nat)
  {
    && multiset(r.tried)[cur] <= retriesLeft
    && (forall b :: b > cur ==> multiset(r.tried)[b] <= Retries)
    && (!r.ok ==> multiset(r.tried)[r.done] == if r.done == cur then retriesLeft else Retries)
  }

  /** The batch an attempt leaves the run at, and the budget it leaves. */
  function NextBatch(cur: nat, a: Attempt): nat { if Complete(a) then cur + 1 else cur }

  function NextBudget(retriesLeft: nat, a: Attempt): nat
    requires retriesLeft > 0
  {
    if Complete(a) then Retries else retriesLeft - 1
  }

  /** One attempt, then the rest of the run. */
  lemma PagesFromUnfold(n: nat, outcome: nat -> Attempt, hasCallback: bool, cur: nat, retriesLeft: nat, k: nat)
    requires cur < Batches(n) && retriesLeft > 0
    ensures var rest := PagesFrom(n, outcome, hasCallback, NextBatch(cur, outcome(k)), NextBudget(retriesLeft, outcome(k)), k + 1);
      var r := PagesFrom(n, outcome, hasCallback, cur, retriesLeft, k);
      r.tried == [cur] + rest.tried && r.done == rest.done && r.ok == rest.ok
  {
  }

  lemma {:induction false} PagesFromEnds(n: nat, outcome: nat -> Attempt, hasCallback: bool, cur: nat, retriesLeft: nat, k: nat)
    requires cur <= Batches(n)
    ensures EndsInRange(PagesFrom(n, outcome, hasCallback, cur, retriesLeft, k), n, cur)
    decreases Batches(n) - cur, retriesLeft
  {
    if cur < Batches(n) && retriesLeft > 0 {
      PagesFromUnfold(n, outcome, hasCallback, cur, retriesLeft, k);
      PagesFromEnds(n, outcome, hasCallback, NextBatch(cur, outcome(k)), NextBudget(retriesLeft, outcome(k)), k + 1);
    }
  }

  lemma {:induction false} PagesFromProgress(n: nat, outcome: nat -> Attempt, hasCallback: bool, cur: nat, retriesLeft: nat, k: nat)
    requires cur <= Batches(n)
    ensures ReportsProgress(PagesFrom(n, outcome, hasCallback, cur, retriesLeft, k), n, hasCallback, cur)
    decreases Batches(n) - cur, retriesLeft
  {
    if cur < Batches(n) && retriesLeft > 0 {
      var r := PagesFrom(n, outcome, hasCallback, cur, retriesLeft, k);
      if Complete(outcome(k)) {
        var rest := PagesFrom(n, outcome, hasCallback, cur + 1, Retries, k + 1);
        PagesFromProgress(n, outcome, hasCallback, cur + 1, Retries, k + 1);
        if hasCallback {
          assert r.progress == [Progress((cur + 1) * BatchSize, n)] + ProgressCalls(cur + 1, rest.done, n);
        }
      } else {
        PagesFromProgress(n, outcome, hasCallback, cur, retriesLeft - 1, k + 1);
      }
    }
  }

  lemma {:induction false} PagesFromOrder(n: nat, outcome: nat -> Attempt, hasCallback: bool, cur: nat, retriesLeft: nat, k: nat)
    requires cur <= Batches(n)
    ensures TriesInOrder(PagesFrom(n, outcome, hasCallback, cur, retriesLeft, k), n, cur)
    decreases Batches(n) - cur, retriesLeft
  {
    if cur < Batches(n) && retriesLeft > 0 {
      var next, budget := NextBatch(cur, outcome(k)), NextBudget(retriesLeft, outcome(k));
      var rest := PagesFrom(n, outcome, hasCallback, next, budget, k + 1);
      PagesFromUnfold(n, outcome, hasCallback, cur, retriesLeft, k);
      PagesFromOrder(n, outcome, hasCallback, next, budget, k + 1);
      PagesFromEnds(n, outcome, hasCallback, next, budget, k + 1);
      SortedCons(cur, rest.tried);
    }
  }

  /** Putting a smaller value in front of an ordered list keeps it ordered. */
  lemma SortedCons(x: nat, s: seq<nat>)
    requires forall i :: 0 <= i < |s| ==> x <= s[i]
    requires forall i, j :: 0 <= i < j < |s| ==> s[i] <= s[j]
    ensures forall i, j :: 0 <= i < j < |[x] + s| ==> ([x] + s)[i] <= ([x] + s)[j]
  {
  }

  lemma {:induction false} PagesFromCovers(n: nat, outcome: nat -> Attempt, hasCallback: bool, cur: nat, retriesLeft: nat, k: nat)
    requires cur <= Batches(n)
    ensures TriesEveryDone(PagesFrom(n, outcome, hasCallback, cur, retriesLeft, k), cur)
    decreases Batches(n) - cur, retriesLeft
  {
    if cur < Batches(n) && retriesLeft > 0 {
      PagesFromUnfold(n, outcome, hasCallback, cur, retriesLeft, k);
      PagesFromCovers(n, outcome, hasCallback, NextBatch(cur, outcome(k)), NextBudget(retriesLeft, outcome(k)), k + 1);
    }
  }

  /** One attempt in front of a run that kept its budget keeps the budget it started with. */
  lemma BudgetCons(n: nat, r: Pages, rest: Pages, cur: nat, retriesLeft: nat, a: Attempt)
    requires retriesLeft > 0
    requires r.tried == [cur] + rest.tried && r.done == rest.done && r.ok == rest.ok
    requires KeepsBudget(rest, NextBatch(cur, a), NextBudget(retriesLeft, a))
    requires TriesInOrder(rest, n, NextBatch(cur, a))
    requires EndsInRange(rest, n, NextBatch(cur, a))
    ensures KeepsBudget(r, cur, retriesLeft)
  {
    assert multiset(r.tried) == multiset{cur} + multiset(rest.tried);
    if Complete(a) {
      assert cur !in rest.tried;
    }
  }

  lemma {:induction false} PagesFromRetries(n: nat, outcome: nat -> Attempt, hasCallback: bool, cur: nat, retriesLeft: nat, k: nat)
    requires cur <= Batches(n)
    ensures KeepsBudget(PagesFrom(n, outcome, hasCallback, cur, retriesLeft, k), cur, retriesLeft)
    decreases Batches(n) - cur, retriesLeft
  {
    if cur < Batches(n) && retriesLeft > 0 {
      var next, budget := NextBatch(cur, outcome(k)), NextBudget(retriesLeft, outcome(k));
      PagesFromUnfold(n, outcome, hasCallback, cur, retriesLeft, k);
      PagesFromRetries(n, outcome, hasCallback, next, budget, k + 1);
      PagesFromOrder(n, outcome, hasCallback, next, budget, k + 1);
      PagesFromEnds(n, outcome, hasCallback, next, budget, k + 1);
      BudgetCons(n, PagesFrom(n, outcome, hasCallback, cur, retriesLeft, k), PagesFrom(n, outcome, hasCallback, next, budget, k + 1),
                 cur, retriesLeft, outcome(k));
    }
  }

  /** Some attempt on batch `b` answered 200 for every page; `tried[i]` is the batch of attempt `k + i` of the call. */
  predicate CompletedOn(tried: seq<nat>, outcome: nat -> Attempt, k: nat, b: nat)
  {
    exists i :: 0 <= i < |tried| && tried[i] == b && Complete(outcome(k + i))
  }

  /** Every one of the `Batches(n)` batches had an attempt whose transfers all answered 200. */
  predicate EveryBatchCompleted(tried: seq<nat>, outcome: nat -> Attempt, n: nat)
  {
    forall b :: 0 <= b < Batches(n) ==> CompletedOn(tried, outcome, 0, b)
  }

  /**
   * The outcomes decide the run: every batch passed from `cur` on had a complete attempt,
   * and a complete attempt always moved the run past its batch.
   */
  predicate OutcomesDecide(r: Pages, outcome: nat -> Attempt, cur: nat, k: nat)
  {
    && (forall b :: cur <= b < r.done ==> CompletedOn(r.tried, outcome, k, b))
    && (forall i :: 0 <= i < |r.tried| && Complete(outcome(k + i)) ==> r.tried[i] < r.done)
  }

  /** One attempt in front of a run the outcomes decide gives a run the outcomes decide. */
  lemma OutcomesCons(r: Pages, rest: Pages, outcome: nat -> Attempt, cur: nat, k: nat)
    requires r.tried == [cur] + rest.tried && r.done == rest.done
    requires NextBatch(cur, outcome(k)) <= rest.done
    requires OutcomesDecide(rest, outcome, NextBatch(cur, outcome(k)), k + 1)
    ensures OutcomesDecide(r, outcome, cur, k)
  {
    forall b | cur <= b < r.done
      ensures CompletedOn(r.tried, outcome, k, b)
    {
      if b == cur && Complete(outcome(k)) {
        assert r.tried[0] == cur && Complete(outcome(k + 0));
      } else {
        assert CompletedOn(rest.tried, outcome, k + 1, b);
        var j :| 0 <= j < |rest.tried| && rest.tried[j] == b && Complete(outcome(k + 1 + j));
        assert r.tried[j + 1] == b && k + (j + 1) == k + 1 + j;
      }
    }
    forall i | 0 <= i < |r.tried| && Complete(outcome(k + i))
      ensures r.tried[i] < r.done
    {
      if i > 0 {
        assert r.tried[i] == rest.tried[i - 1] && k + 1 + (i - 1) == k + i;
      }
    }
  }

  lemma {:induction false} PagesFromOutcomes(n: nat, outcome: nat -> Attempt, hasCallback: bool, cur: nat, retriesLeft: nat, k: nat)
    requires cur <= Batches(n)
    ensures OutcomesDecide(PagesFrom(n, outcome, hasCallback, cur, retriesLeft, k), outcome, cur, k)
    decreases Batches(n) - cur, retriesLeft
  {
    if cur < Batches(n) && retriesLeft > 0 {
      var next, budget := NextBatch(cur, outcome(k)), NextBudget(retriesLeft, outcome(k));
      PagesFromUnfold(n, outcome, hasCallback, cur, retriesLeft, k);
      PagesFromOutcomes(n, outcome, hasCallback, next, budget, k + 1);
      PagesFromEnds(n, outcome, hasCallback, next, budget, k + 1);
      OutcomesCons(PagesFrom(n, outcome, hasCallback, cur, retriesLeft, k), PagesFrom(n, outcome, hasCallback, next, budget, k + 1),
                   outcome, cur, k);
    }
  }

  /**
   * What the statuses decide: the download succeeds exactly when every batch got an attempt
   * whose transfers all answered 200, and when it fails, every attempt on the batch it
   * stopped at (three of them) failed.
   */
  lemma DownloadPagesOutcomes(n: nat, outcome: nat -> Attempt, hasCallback: bool)
    ensures var r := DownloadPagesSpec(n, outcome, hasCallback);
      && (r.ok <==> EveryBatchCompleted(r.tried, outcome, n))
      && (!r.ok ==> r.done < Batches(n) && multiset(r.tried)[r.done] == Retries)
      && (!r.ok ==> forall i :: 0 <= i < |r.tried| && r.tried[i] == r.done ==> !Complete(outcome(i)))
  {
    var r := DownloadPagesSpec(n, outcome, hasCallback);
    PagesFromOutcomes(n, outcome, hasCallback, 0, Retries, 0);
    PagesFromEnds(n, outcome, hasCallback, 0, Retries, 0);
    PagesFromRetries(n, outcome, hasCallback, 0, Retries, 0);
    if !r.ok {
      assert r.done < Batches(n) && !CompletedOn(r.tried, outcome, 0, r.done);
      forall i | 0 <= i < |r.tried| && r.tried[i] == r.done
        ensures !Complete(outcome(i))
      {
        assert 0 + i == i;
      }
    }
  }

  /**
   * The whole call: each batch gets at most three attempts, and on success every batch
   * completed, one callback each; on failure the batch it stopped at had three attempts,
   * all of which failed, and no later batch was tried. It succeeds exactly when every batch
   * had an attempt whose transfers all answered 200.
   */
  lemma DownloadPagesSpecShape(n: nat, outcome: nat -> Attempt, hasCallback: bool)
    ensures var r := DownloadPagesSpec(n, outcome, hasCallback);
      && (forall b :: multiset(r.tried)[b] <= Retries)
      && (r.ok <==> r.done == Batches(n))
      && r.progress == (if hasCallback then ProgressCalls(0, r.done, n) else [])
      && (forall b :: 0 <= b < r.done ==> b in r.tried)
      && (!r.ok ==> multiset(r.tried)[r.done] == Retries && forall i :: 0 <= i < |r.tried| ==> r.tried[i] <= r.done)
      && (r.ok <==> EveryBatchCompleted(r.tried, outcome, n))
      && (!r.ok ==> forall i :: 0 <= i < |r.tried| && r.tried[i] == r.done ==> !Complete(outcome(i)))
  {
    DownloadPagesOutcomes(n, outcome, hasCallback);
    PagesFromEnds(n, outcome, hasCallback, 0, Retries, 0);
    PagesFromProgress(n, outcome, hasCallback, 0, Retries, 0);
    PagesFromOrder(n, outcome, hasCallback, 0, Retries, 0);
    PagesFromCovers(n, outcome, hasCallback, 0, Retries, 0);
    PagesFromRetries(n, outcome, hasCallback, 0, Retries, 0);
  }

  /** The result and attempts of the whole call, as the loop returns them: success iff every batch completed. */
  lemma DownloadPagesDecided(n: nat, outcome: nat -> Attempt, hasCallback: bool, ok: bool, tried: seq<nat>)
    requires ok == DownloadPagesSpec(n, outcome, hasCallback).ok && tried == DownloadPagesSpec(n, outcome, hasCallback).tried
    ensures ok <==> EveryBatchCompleted(tried, outcome, n)
  {
    DownloadPagesOutcomes(n, outcome, hasCallback);
  }

  /** Attempt `i` of the whole run sends the slice of batch `tried[i]`, a batch inside the download list. */
  lemma DownloadPagesSends<T>(downloads: seq<T>, outcome: nat -> Attempt, hasCallback: bool)
    ensures var r := DownloadPagesSpec(|downloads|, outcome, hasCallback);
      forall i :: 0 <= i < |r.tried| ==>
        r.tried[i] < Batches(|downloads|) && SentOf(downloads, r.tried)[i] == Batch(downloads, r.tried[i])
  {
    PagesFromOrder(|downloads|, outcome, hasCallback, 0, Retries, 0);
  }

  /** No transfers: zero batches, success, no callback and nothing fetched. */
  lemma DownloadNothing(outcome: nat -> Attempt, hasCallback: bool)
    ensures DownloadPagesSpec(0, outcome, hasCallback) == Pages(true, [], [], 0)
  {
  }

  /** When every attempt fails, the first batch is tried three times and the call fails. */
  lemma DownloadAlwaysFailing(n: nat, outcome: nat -> Attempt, hasCallback: bool)
    requires n > 0
    requires forall k :: !Complete(outcome(k))
    ensures DownloadPagesSpec(n, outcome, hasCallback) == Pages(false, [], [0, 0, 0], 0)
  {
    assert Batches(n) > 0;
    assert !Complete(outcome(0)) && !Complete(outcome(1)) && !Complete(outcome(2));
    assert PagesFrom(n, outcome, hasCallback, 0, 0, 3) == Pages(false, [], [], 0);
    assert PagesFrom(n, outcome, hasCallback, 0, 1, 2) == Pages(false, [], [0], 0);
    assert PagesFrom(n, outcome, hasCallback, 0, 2, 1) == Pages(false, [], [0, 0], 0);
  }

  /** An oracle under which every attempt answers 200 for each transfer. */
  function AllOk(k: nat): Attempt
  {
    Statuses([200, 200, 200])
  }

  /**
   * Seven transfers that all succeed: callbacks at 3, 6 and 9 of 7, the last one past the
   * total because the final batch is short.
   */
  lemma SevenPagesProgress()
    ensures var r := DownloadPagesSpec(7, AllOk, true);
      r.ok && r.progress == [Progress(3, 7), Progress(6, 7), Progress(9, 7)] && r.progress[2].cur > r.progress[2].total
  {
    assert Complete(AllOk(0)) && Complete(AllOk(1)) && Complete(AllOk(2));
    assert PagesFrom(7, AllOk, true, 2, Retries, 2).progress == [Progress(9, 7)];
  }

  // ----- the gallery shape and the transfer list ------------------------------------------

  /** A chapter as the file server lists it: a directory and its page files. */
  datatype SourceChapter = SourceChapter(fullPath: string, name: string, files: seq<string>)

  /** A gallery as the file server lists it. */
  datatype SourceGallery = SourceGallery(fullPath: string, name: string, files: seq<SourceChapter>)

  function SourceName(c: SourceChapter): string { c.name }

  /** The chapters whose names are listed, in order. */
  function SelectNamed(files: seq<SourceChapter>, names: seq<string>): seq<SourceChapter>
  {
    G.WithNames(files, SourceName, names)
  }

  /** `filterChapters`: all chapters without a filter, else the listed ones in order. */
  function Selected(files: seq<SourceChapter>, filter: Option<seq<string>>): seq<SourceChapter>
  {
    match filter
    case None => files
    case Some(names) => SelectNamed(files, names)
  }

  /** Selection distributes over concatenation: the order of the listing is kept. */
  lemma SelectNamedAppend(a: seq<SourceChapter>, b: seq<SourceChapter>, names: seq<string>)
    ensures SelectNamed(a + b, names) == SelectNamed(a, names) + SelectNamed(b, names)
  {
    G.WithNamesAppend(a, b, SourceName, names);
  }

  /** The number of page files of the listed chapters. */
  function FileCount(files: seq<SourceChapter>): nat
  {
    if files == [] then 0 else |files[0].files| + FileCount(files[1..])
  }

  /** Selecting never adds page files. */
  lemma {:induction false} SelectNamedFileCount(files: seq<SourceChapter>, names: seq<string>)
    ensures FileCount(SelectNamed(files, names)) <= FileCount(files)
  {
    if files != [] {
      var rest := SelectNamed(files[1..], names);
      SelectNamedFileCount(files[1..], names);
      if files[0].name in names {
        var r := [files[0]] + rest;
        assert SelectNamed(files, names) == r;
        assert r[1..] == rest;
        assert FileCount(r) == |files[0].files| + FileCount(rest);
      } else {
        assert SelectNamed(files, names) == [] + rest == rest;
      }
    }
  }

  /** A chapter of the new gallery: path slugified, unread, at page 0. */
  function ShapeChapter(c: SourceChapter): G.Chapter
  {
    G.Chapter(c.name, Slugify.Slugify(c.name), c.files, false, 0)
  }

  /**
   * The gallery `downloadManga` builds; it has no id yet (the store gives it one), no read
   * time, no manga and no `filtered` flag.
   */
  function GalleryShape(data: SourceGallery, filter: Option<seq<string>>): G.Gallery
  {
    var chapters := Selected(data.files, filter);
    G.Gallery(0, data.name, Slugify.Slugify(data.fullPath), |chapters|, FileCount(data.files), None,
              seq(|chapters|, i requires 0 <= i < |chapters| => ShapeChapter(chapters[i])), None, None)
  }

  /** The number of pages of the chapters. */
  function PageCount(chapters: seq<G.Chapter>): nat
  {
    if chapters == [] then 0 else |chapters[0].pages| + PageCount(chapters[1..])
  }

  lemma {:induction false} PageCountOfShape(files: seq<SourceChapter>)
    ensures PageCount(seq(|files|, i requires 0 <= i < |files| => ShapeChapter(files[i]))) == FileCount(files)
  {
    if files != [] {
      PageCountOfShape(files[1..]);
      var shaped := seq(|files|, i requires 0 <= i < |files| => ShapeChapter(files[i]));
      assert shaped[1..] == seq(|files[1..]|, i requires 0 <= i < |files[1..]| => ShapeChapter(files[1..][i]));
    }
  }

  /**
   * The shape: one chapter per selected chapter, in order, named as listed, with slugified
   * path, its pages, unread at page 0; `dirsCount` is the selected count while `filesCount`
   * counts the pages of every listed chapter, selected or not.
   */
  lemma GalleryShapeSpec(data: SourceGallery, filter: Option<seq<string>>)
    ensures var g := GalleryShape(data, filter);
      var chosen := Selected(data.files, filter);
      && |g.chapters| == g.dirsCount == |chosen|
      && g.filesCount == FileCount(data.files)
      && PageCount(g.chapters) <= g.filesCount
      && (filter.None? ==> PageCount(g.chapters) == g.filesCount)
      && g.path == Slugify.Slugify(data.fullPath)
      && forall i :: 0 <= i < |chosen| ==>
           g.chapters[i] == G.Chapter(chosen[i].name, Slugify.Slugify(chosen[i].name), chosen[i].files, false, 0)
  {
    var chosen := Selected(data.files, filter);
    PageCountOfShape(chosen);
    if filter.Some? {
      SelectNamedFileCount(data.files, filter.value);
    }
  }

  /** One page transfer: where it is fetched from and the file it is written to. */
  datatype Transfer = Transfer(url: string, file: string)

  /** `url/encodeURIComponent(gallery/chapter/page)` into `galleryDir/chapterPath/page`, per page. */
  function ChapterTransfers(url: string, galleryDir: string, galleryName: string, c: G.Chapter, encodeUri: string -> string): seq<Transfer>
  {
    seq(|c.pages|, j requires 0 <= j < |c.pages| =>
      Transfer(url + "/" + encodeUri(galleryName + "/" + c.name + "/" + c.pages[j]), galleryDir + "/" + c.path + "/" + c.pages[j]))
  }

  /** The transfers of the chapters, chapter by chapter. */
  function TransfersOf(url: string, galleryDir: string, galleryName: string, chapters: seq<G.Chapter>, encodeUri: string -> string): seq<Transfer>
  {
    if chapters == [] then []
    else ChapterTransfers(url, galleryDir, galleryName, chapters[0], encodeUri) + TransfersOf(url, galleryDir, galleryName, chapters[1..], encodeUri)
  }

  /**
   * One transfer per page in chapter-then-page order: page `p` of chapter `c` sits after
   * the pages of the chapters before it.
   */
  lemma {:induction false} TransfersAt(url: string, galleryDir: string, galleryName: string, chapters: seq<G.Chapter>,
                                       encodeUri: string -> string, c: nat, p: nat)
    requires c < |chapters| && p < |chapters[c].pages|
    ensures |TransfersOf(url, galleryDir, galleryName, chapters, encodeUri)| == PageCount(chapters)
    ensures PageCount(chapters[..c]) + p < PageCount(chapters)
    ensures TransfersOf(url, galleryDir, galleryName, chapters, encodeUri)[PageCount(chapters[..c]) + p] ==
      Transfer(url + "/" + encodeUri(galleryName + "/" + chapters[c].name + "/" + chapters[c].pages[p]),
               galleryDir + "/" + chapters[c].path + "/" + chapters[c].pages[p])
  {
    var t := TransfersOf(url, galleryDir, galleryName, chapters, encodeUri);
    var head := ChapterTransfers(url, galleryDir, galleryName, chapters[0], encodeUri);
    var rest := chapters[1..];
    if c == 0 {
      assert chapters[..0] == [];
      TransfersCount(url, galleryDir, galleryName, rest, encodeUri);
    } else {
      TransfersAt(url, galleryDir, galleryName, rest, encodeUri, c - 1, p);
      assert chapters[..c][1..] == rest[..c - 1];
      assert rest[c - 1] == chapters[c];
      assert t[PageCount(chapters[..c]) + p] == TransfersOf(url, galleryDir, galleryName, rest, encodeUri)[PageCount(rest[..c - 1]) + p];
    }
  }

  /** One transfer per page. */
  lemma {:induction false} TransfersCount(url: string, galleryDir: string, galleryName: string, chapters: seq<G.Chapter>, encodeUri: string -> string)
    ensures |TransfersOf(url, galleryDir, galleryName, chapters, encodeUri)| == PageCount(chapters)
  {
    if chapters != [] {
      TransfersCount(url, galleryDir, galleryName, chapters[1..], encodeUri);
    }
  }

  // ----- directories ------------------------------------------------------------------

  /** `${galleryDir}/${chapter.path}`. */
  function ChapterDir(galleryDir: string, c: G.Chapter): string
  {
    galleryDir + "/" + c.path
  }

  /** The gallery directory, then each chapter directory. */
  function WantedDirs(galleryDir: string, chapters: seq<G.Chapter>): (r: seq<string>)
    ensures |r| == |chapters| + 1 && r[0] == galleryDir
    ensures forall i :: 0 <= i < |chapters| ==> r[i + 1] == ChapterDir(galleryDir, chapters[i])
  {
    [galleryDir] + seq(|chapters|, i requires 0 <= i < |chapters| => ChapterDir(galleryDir, chapters[i]))
  }

  /** The directories the paths name. */
  function DirsOf(paths: seq<string>): set<string>
  {
    set p | p in paths :: FileSystem.Normalize(p)
  }

  /** The directories `setupGalleryDirs` creates, in order: each wanted one not there yet. */
  function Missing(dirs: set<string>, wanted: seq<string>): seq<string>
  {
    if wanted == [] then []
    else
      var init := wanted[..|wanted| - 1];
      var p := FileSystem.Normalize(wanted[|wanted| - 1]);
      Missing(dirs, init) + if p in dirs + DirsOf(init) then [] else [p]
  }

  lemma DirsOfSnoc(paths: seq<string>, p: string)
    ensures DirsOf(paths + [p]) == DirsOf(paths) + {FileSystem.Normalize(p)}
  {
    assert forall q :: q in paths + [p] <==> q in paths || q == p;
  }

  /**
   * The directories created are exactly the wanted ones that were missing, each created
   * once; afterwards every wanted directory exists.
   */
  lemma {:induction false} MissingSpec(dirs: set<string>, wanted: seq<string>)
    ensures forall p :: p in Missing(dirs, wanted) <==> p in DirsOf(wanted) && p !in dirs
    ensures forall i, j :: 0 <= i < j < |Missing(dirs, wanted)| ==> Missing(dirs, wanted)[i] != Missing(dirs, wanted)[j]
  {
    if wanted != [] {
      var init := wanted[..|wanted| - 1];
      var p := FileSystem.Normalize(wanted[|wanted| - 1]);
      MissingSpec(dirs, init);
      assert wanted == init + [wanted[|wanted| - 1]];
      DirsOfSnoc(init, wanted[|wanted| - 1]);
    }
  }

  lemma MissingSnoc(dirs: set<string>, wanted: seq<string>, p: string)
    ensures Missing(dirs, wanted + [p]) ==
      Missing(dirs, wanted) + if FileSystem.Normalize(p) in dirs + DirsOf(wanted) then [] else [FileSystem.Normalize(p)]
    ensures DirsOf(wanted + [p]) == DirsOf(wanted) + {FileSystem.Normalize(p)}
  {
    assert (wanted + [p])[..|wanted|] == wanted;
    DirsOfSnoc(wanted, p);
  }

  /** A second run over the directories the first one left creates nothing. */
  lemma SetupIdempotent(dirs: set<string>, wanted: seq<string>)
    ensures Missing(dirs + DirsOf(wanted), wanted) == []
  {
    MissingOfPresent(dirs + DirsOf(wanted), wanted);
  }

  lemma {:induction false} MissingOfPresent(dirs: set<string>, wanted: seq<string>)
    requires DirsOf(wanted) <= dirs
    ensures Missing(dirs, wanted) == []
  {
    if wanted != [] {
      var init := wanted[..|wanted| - 1];
      assert wanted == init + [wanted[|wanted| - 1]];
      DirsOfSnoc(init, wanted[|wanted| - 1]);
      MissingOfPresent(dirs, init);
    }
  }

  /**
   * `setupGalleryDirs`: create the gallery directory, then each chapter directory, when it
   * does not exist yet; returns the directories created.
   */
  method SetupGalleryDirs(disk: FileSystem.Disk, galleryDir: string, chapters: seq<G.Chapter>) returns (made: seq<string>)
    modifies disk
    ensures disk.dirs == old(disk.dirs) + DirsOf(WantedDirs(galleryDir, chapters))
    ensures made == Missing(old(disk.dirs), WantedDirs(galleryDir, chapters))
  {
    made := [];
    var present := disk.Exists(galleryDir);
    MakeDirStep(old(disk.dirs), [], galleryDir);
    if !present {
      disk.MakeDirectory(galleryDir);
      made := made + [FileSystem.Normalize(galleryDir)];
    }
    assert WantedDirs(galleryDir, chapters[..0]) == [] + [galleryDir];
    for i := 0 to |chapters|
      invariant disk.dirs == old(disk.dirs) + DirsOf(WantedDirs(galleryDir, chapters[..i]))
      invariant made == Missing(old(disk.dirs), WantedDirs(galleryDir, chapters[..i]))
    {
      var chapterDir := ChapterDir(galleryDir, chapters[i]);
      WantedDirsSnoc(galleryDir, chapters, i);
      MakeDirStep(old(disk.dirs), WantedDirs(galleryDir, chapters[..i]), chapterDir);
      present := disk.Exists(chapterDir);
      if !present {
        disk.MakeDirectory(chapterDir);
        made := made + [FileSystem.Normalize(chapterDir)];
      }
    }
    assert chapters[..|chapters|] == chapters;
  }

  /** One check-then-create step of `setupGalleryDirs`, on the directory set and the calls made. */
  lemma MakeDirStep(dirs: set<string>, prefix: seq<string>, p: string)
    ensures FileSystem.Normalize(p) in dirs + DirsOf(prefix) ==>
      && dirs + DirsOf(prefix + [p]) == dirs + DirsOf(prefix)
      && Missing(dirs, prefix + [p]) == Missing(dirs, prefix)
    ensures FileSystem.Normalize(p) !in dirs + DirsOf(prefix) ==>
      && dirs + DirsOf(prefix + [p]) == dirs + DirsOf(prefix) + {FileSystem.Normalize(p)}
      && Missing(dirs, prefix + [p]) == Missing(dirs, prefix) + [FileSystem.Normalize(p)]
  {
    MissingSnoc(dirs, prefix, p);
  }

  lemma WantedDirsSnoc(galleryDir: string, chapters: seq<G.Chapter>, i: nat)
    requires i < |chapters|
    ensures WantedDirs(galleryDir, chapters[..i + 1]) == WantedDirs(galleryDir, chapters[..i]) + [ChapterDir(galleryDir, chapters[i])]
  {
    var a := WantedDirs(galleryDir, chapters[..i + 1]);
    var b := WantedDirs(galleryDir, chapters[..i]) + [ChapterDir(galleryDir, chapters[i])];
    assert |a| == |b|;
    forall j | 0 <= j < |a| ensures a[j] == b[j] {
      if 0 < j {
        assert chapters[..i + 1][j - 1] == chapters[j - 1];
      }
    }
  }

  /** `${galleryDir}/${chapter.path}/`: what the cleanup deletes, per chapter. */
  function CleanupPaths(galleryDir: string, chapters: seq<G.Chapter>): (r: seq<string>)
    ensures |r| == |chapters|
  {
    seq(|chapters|, i requires 0 <= i < |chapters| => ChapterDir(galleryDir, chapters[i]) + "/")
  }

  /** The cleanup loop: delete each directory in turn, stopping at the first that is missing. */
  function Cleanup(dirs: set<string>, paths: seq<string>): set<string>
  {
    if paths == [] then dirs
    else if FileSystem.Normalize(paths[0]) in dirs then Cleanup(FileSystem.RemoveTree(dirs, FileSystem.Normalize(paths[0])), paths[1..])
    else dirs
  }

  /** The cleanup only removes, and removes every path's directory when none is missing on its turn. */
  lemma {:induction false} CleanupSpec(dirs: set<string>, paths: seq<string>)
    ensures Cleanup(dirs, paths) <= dirs
    ensures (forall i, j :: 0 <= i < j < |paths| ==> !FileSystem.Within(FileSystem.Normalize(paths[j]), FileSystem.Normalize(paths[i]))) &&
            (forall i :: 0 <= i < |paths| ==> FileSystem.Normalize(paths[i]) in dirs) ==>
            forall i :: 0 <= i < |paths| ==> FileSystem.Normalize(paths[i]) !in Cleanup(dirs, paths)
  {
    if paths != [] {
      var p := FileSystem.Normalize(paths[0]);
      if p in dirs {
        var after := FileSystem.RemoveTree(dirs, p);
        CleanupSpec(after, paths[1..]);
        if (forall i, j :: 0 <= i < j < |paths| ==> !FileSystem.Within(FileSystem.Normalize(paths[j]), FileSystem.Normalize(paths[i]))) &&
           (forall i :: 0 <= i < |paths| ==> FileSystem.Normalize(paths[i]) in dirs) {
          forall i | 0 <= i < |paths[1..]| ensures FileSystem.Normalize(paths[1..][i]) in after {
            assert !FileSystem.Within(FileSystem.Normalize(paths[i + 1]), p);
          }
          forall i, j | 0 <= i < j < |paths[1..]|
            ensures !FileSystem.Within(FileSystem.Normalize(paths[1..][j]), FileSystem.Normalize(paths[1..][i]))
          {
            assert paths[1..][j] == paths[j + 1] && paths[1..][i] == paths[i + 1];
          }
          forall i | 0 <= i < |paths| ensures FileSystem.Normalize(paths[i]) !in Cleanup(dirs, paths) {
            if i > 0 {
              assert paths[1..][i - 1] == paths[i];
            }
          }
        }
      }
    }
  }

  /** Two chapters with the same path: the second delete fails, so later chapters keep their directories. */
  lemma CleanupStopsAtRepeatedPath()
    ensures Cleanup({"g", "g/a", "g/b"}, ["g/a/", "g/a/", "g/b/"]) == {"g", "g/b"}
  {
    assert FileSystem.Normalize("g/a/") == "g/a";
    assert FileSystem.RemoveTree({"g", "g/a", "g/b"}, "g/a") == {"g", "g/b"} by {
      assert !FileSystem.Within("g", "g/a");
      assert !FileSystem.Within("g/b", "g/a");
    }
    assert ["g/a/", "g/a/", "g/b/"][1..] == ["g/a/", "g/b/"];
  }

  /** The cleanup loop of `downloadManga`: delete in order, stop at the first failed delete. */
  method RemoveChapterDirs(disk: FileSystem.Disk, paths: seq<string>)
    modifies disk
    ensures disk.dirs == Cleanup(old(disk.dirs), paths)
  {
    var i := 0;
    while i < |paths|
      invariant 0 <= i <= |paths|
      invariant Cleanup(old(disk.dirs), paths) == Cleanup(disk.dirs, paths[i..])
    {
      var deleted := disk.Delete(paths[i]);
      if !deleted {
        return;
      }
      assert paths[i..][1..] == paths[i + 1..];
      i := i + 1;
    }
    assert paths[|paths|..] == [];
  }

  // ----- downloadManga ----------------------------------------------------------------

  /**
   * `downloadManga`: shape the gallery, create its directories, fetch its pages, and upsert
   * it only when every batch succeeded; when that does not end in success, delete the
   * chapter directories in order, stopping at the first delete that fails.
   */
  method DownloadManga(store: Storage.Storage<G.Gallery>, disk: FileSystem.Disk, root: string, url: string,
                       data: SourceGallery, filter: Option<seq<string>>, hasCallback: bool,
                       encodeUri: string -> string, outcome: nat -> Attempt, writeFails: bool)
    returns (success: bool, progress: seq<Progress>)
    requires store.Valid()
    modifies store, disk
    ensures store.Valid()
    ensures var g := GalleryShape(data, filter);
      var galleryDir := root + "/" + g.path;
      var pages := DownloadPagesSpec(|TransfersOf(url, galleryDir, g.name, g.chapters, encodeUri)|, outcome, hasCallback);
      var upsert := G.UpsertStep(store.cfg, old(store.Snapshot()), g, writeFails);
      var created := old(disk.dirs) + DirsOf(WantedDirs(galleryDir, g.chapters));
      && progress == pages.progress
      && (success <==> pages.ok && upsert.ok)
      && store.Snapshot() == (if pages.ok then upsert.next else old(store.Snapshot()))
      && disk.dirs == if success then created else Cleanup(created, CleanupPaths(galleryDir, g.chapters))
  {
    var gallery := GalleryShape(data, filter);
    var galleryDir := root + "/" + gallery.path;
    success := false;
    var _ := SetupGalleryDirs(disk, galleryDir, gallery.chapters);
    var downloads := TransfersOf(url, galleryDir, gallery.name, gallery.chapters, encodeUri);
    var ok, tried, sent;
    ok, progress, tried, sent := DownloadPages(downloads, outcome, hasCallback);
    if ok {
      success := G.UpsertGallery(store, gallery, writeFails);
    }
    if !success {
      RemoveChapterDirs(disk, CleanupPaths(galleryDir, gallery.chapters));
    }
  }
}
