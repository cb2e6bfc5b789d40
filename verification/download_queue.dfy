// The background download queue: a `running` flag and a first-in first-out queue of page
// downloads, refilled from the database's download table whenever it runs dry.

module DownloadQueue {
  import opened Wrappers
  import Download

  /** A row of the download table; `error` is a nullable integer column. */
  datatype Row = Row(error: Option<int>, page_id: int, path: string, api_url: string)

  /** A queued page download. */
  datatype Item = Item(path: string, page_id: int, error: bool, api_url: string)

  /** `Boolean(row.error)`: null and 0 are false, every other number true. */
  function ToItem(row: Row): (r: Item)
    ensures r.path == row.path && r.page_id == row.page_id && r.api_url == row.api_url
    ensures r.error <==> row.error.Some? && row.error.value != 0
  {
    Item(row.path, row.page_id, match row.error case None => false case Some(e) => e != 0, row.api_url)
  }

  function ToItems(rows: seq<Row>): (r: seq<Item>)
    ensures |r| == |rows| && forall i :: 0 <= i < |rows| ==> r[i] == ToItem(rows[i])
  {
    seq(|rows|, i requires 0 <= i < |rows| => ToItem(rows[i]))
  }

  /** `${api_url}/download?file=${encodeURIComponent(path)}` into `${root}/${path}`. */
  function TransferOf(root: string, encodeUri: string -> string, item: Item): Download.Transfer
  {
    Download.Transfer(item.api_url + "/download?file=" + encodeUri(item.path), root + "/" + item.path)
  }

  /** The downloads of the items, in order. */
  function Transfers(root: string, encodeUri: string -> string, items: seq<Item>): (r: seq<Download.Transfer>)
    ensures |r| == |items|
  {
    if items == [] then [] else [TransferOf(root, encodeUri, items[0])] + Transfers(root, encodeUri, items[1..])
  }

  lemma {:induction false} TransfersAppend(root: string, encodeUri: string -> string, a: seq<Item>, b: seq<Item>)
    ensures Transfers(root, encodeUri, a + b) == Transfers(root, encodeUri, a) + Transfers(root, encodeUri, b)
  {
    if a == [] {
      assert a + b == b;
    } else {
      assert (a + b)[1..] == a[1..] + b;
      TransfersAppend(root, encodeUri, a[1..], b);
    }
  }

  /** The queue's state, with the downloads it has issued so far. */
  datatype QueueState = QueueState(running: bool, queue: seq<Item>, transfers: seq<Download.Transfer>)

  /** Stopped with nothing queued: the state of a new queue. */
  const Idle := QueueState(false, [], [])

  /** `getNewQueueItems`: append the fetched rows, or stop when there is nothing at all to do. */
  function RefillStep(s: QueueState, rows: seq<Row>): QueueState
  {
    if |rows| == 0 && |s.queue| == 0 then s.(running := false)
    else s.(queue := s.queue + ToItems(rows))
  }

  /**
   * `consumeQueue`, one scheduled call: nothing when stopped; else download the front item
   * (its outcome is not looked at) or, on an empty queue, refill from `rows`.
   */
  function ConsumeStep(root: string, encodeUri: string -> string, s: QueueState, rows: seq<Row>): QueueState
  {
    if !s.running then s
    else if s.queue != [] then
      s.(queue := s.queue[1..], transfers := s.transfers + [TransferOf(root, encodeUri, s.queue[0])])
    else RefillStep(s, rows)
  }

  /**
   * `start`: nothing when running; else mark running, refill, and consume once. The consume
   * that follows a refill never fetches (see `StartConsumeNeverFetches`), so no rows are given.
   */
  function StartStep(root: string, encodeUri: string -> string, s: QueueState, rows: seq<Row>): QueueState
  {
    if s.running then s
    else ConsumeStep(root, encodeUri, RefillStep(s.(running := true), rows), [])
  }

  /** The queue is empty whenever the queue is stopped. */
  predicate Quiet(s: QueueState)
  {
    !s.running ==> s.queue == []
  }

  /**
   * A refill keeps what was queued in front of the fetched items, in row order, and stops
   * the queue exactly when both are empty.
   */
  lemma RefillSpec(s: QueueState, rows: seq<Row>)
    requires s.running
    ensures var r := RefillStep(s, rows);
      && r.transfers == s.transfers
      && r.queue == s.queue + ToItems(rows)
      && (!r.running <==> rows == [] && s.queue == [])
  {
  }

  /**
   * A consume step either changes nothing (stopped), sends the front item and keeps the
   * rest queued, or refills an empty queue.
   */
  lemma ConsumeSpec(root: string, encodeUri: string -> string, s: QueueState, rows: seq<Row>)
    ensures !s.running ==> ConsumeStep(root, encodeUri, s, rows) == s
    ensures s.running && s.queue != [] ==>
      && ConsumeStep(root, encodeUri, s, rows).running
      && |ConsumeStep(root, encodeUri, s, rows).queue| == |s.queue| - 1
      && |ConsumeStep(root, encodeUri, s, rows).transfers| == |s.transfers| + 1
    ensures s.running && s.queue == [] ==>
      && ConsumeStep(root, encodeUri, s, rows).transfers == s.transfers
      && ConsumeStep(root, encodeUri, s, rows).queue == ToItems(rows)
      && (ConsumeStep(root, encodeUri, s, rows).running <==> rows != [])
  {
  }

  /**
   * Nothing is lost or reordered: after a consume step the downloads issued followed by
   * those still queued are those before it, followed by whatever the step fetched.
   */
  lemma ConsumeConserves(root: string, encodeUri: string -> string, s: QueueState, rows: seq<Row>)
    ensures ConsumeStep(root, encodeUri, s, rows).transfers + Transfers(root, encodeUri, ConsumeStep(root, encodeUri, s, rows).queue) ==
            s.transfers + Transfers(root, encodeUri, s.queue) + (if s.running && s.queue == [] then Transfers(root, encodeUri, ToItems(rows)) else [])
  {
    if !s.running {
      assert s.transfers + Transfers(root, encodeUri, s.queue) + [] == s.transfers + Transfers(root, encodeUri, s.queue);
    } else if s.queue != [] {
      var t := TransferOf(root, encodeUri, s.queue[0]);
      var rest := Transfers(root, encodeUri, s.queue[1..]);
      assert Transfers(root, encodeUri, s.queue) == [t] + rest;
      assert (s.transfers + [t]) + rest == s.transfers + ([t] + rest) + [];
    } else {
      assert Transfers(root, encodeUri, s.queue) == [];
      assert s.queue + ToItems(rows) == ToItems(rows);
    }
  }

  /** Each step keeps a stopped queue empty. */
  lemma StepsKeepQuiet(root: string, encodeUri: string -> string, s: QueueState, rows: seq<Row>)
    requires Quiet(s)
    ensures s.running ==> Quiet(RefillStep(s, rows))
    ensures Quiet(ConsumeStep(root, encodeUri, s, rows))
    ensures Quiet(StartStep(root, encodeUri, s, rows))
  {
  }

  /** After `start`'s refill the queue is either stopped or non-empty, so its consume never fetches. */
  lemma StartConsumeNeverFetches(root: string, encodeUri: string -> string, s: QueueState, rows: seq<Row>, later: seq<Row>)
    ensures ConsumeStep(root, encodeUri, RefillStep(s.(running := true), rows), later) ==
            ConsumeStep(root, encodeUri, RefillStep(s.(running := true), rows), [])
  {
  }

  /** `start` on a running queue changes nothing; on a stopped queue it sends the first fetched item. */
  lemma StartSpec(root: string, encodeUri: string -> string, s: QueueState, rows: seq<Row>)
    requires Quiet(s)
    ensures s.running ==> StartStep(root, encodeUri, s, rows) == s
    ensures !s.running && rows == [] ==> StartStep(root, encodeUri, s, rows) == s
    ensures !s.running && rows != [] ==>
      StartStep(root, encodeUri, s, rows) ==
      QueueState(true, ToItems(rows)[1..], s.transfers + [TransferOf(root, encodeUri, ToItem(rows[0]))])
  {
  }

  /** The steps of a queue whose rescheduled calls run: one consume per fetch result. */
  function Run(root: string, encodeUri: string -> string, s: QueueState, fetches: seq<seq<Row>>): QueueState
    decreases |fetches|
  {
    if fetches == [] then s
    else Run(root, encodeUri, ConsumeStep(root, encodeUri, s, fetches[0]), fetches[1..])
  }

  /** A running queue of `n` items is drained in order by `n` steps, whatever the table holds. */
  lemma {:induction false} RunDrains(root: string, encodeUri: string -> string, s: QueueState, fetches: seq<seq<Row>>)
    requires s.running && |fetches| == |s.queue|
    ensures Run(root, encodeUri, s, fetches) == QueueState(true, [], s.transfers + Transfers(root, encodeUri, s.queue))
    decreases |fetches|
  {
    if fetches != [] {
      var next := ConsumeStep(root, encodeUri, s, fetches[0]);
      RunDrains(root, encodeUri, next, fetches[1..]);
      assert Transfers(root, encodeUri, s.queue) == [TransferOf(root, encodeUri, s.queue[0])] + Transfers(root, encodeUri, s.queue[1..]);
    }
  }

  lemma {:induction false} RunAppend(root: string, encodeUri: string -> string, s: QueueState, a: seq<seq<Row>>, b: seq<seq<Row>>)
    ensures Run(root, encodeUri, s, a + b) == Run(root, encodeUri, Run(root, encodeUri, s, a), b)
    decreases |a|
  {
    if a != [] {
      assert (a + b)[1..] == a[1..] + b;
      RunAppend(root, encodeUri, ConsumeStep(root, encodeUri, s, a[0]), a[1..], b);
    } else {
      assert a + b == b;
    }
  }

  /**
   * One rescheduled `consumeQueue` call as the timer delivers it: `rows` is what the table
   * holds should the call refill, and `rejects` says whether the call it awaits (the page's
   * `downloadAsync`, or the table read of a refill) rejects.
   */
  datatype Step = Step(rows: seq<Row>, rejects: bool)

  /** The table contents the steps would read, in order. */
  function RowsOf(steps: seq<Step>): (r: seq<seq<Row>>)
    ensures |r| == |steps| && forall i :: 0 <= i < |steps| ==> r[i] == steps[i].rows
  {
    seq(|steps|, i requires 0 <= i < |steps| => steps[i].rows)
  }

  /** No step's awaited call rejects. */
  predicate Resolves(steps: seq<Step>)
  {
    forall i :: 0 <= i < |steps| ==> !steps[i].rejects
  }

  /**
   * The state one call leaves. A rejected download has already shifted its item and issued
   * its transfer, so it leaves what a resolved one does; a rejected table read leaves the
   * state as it was.
   */
  function StepOutcome(root: string, encodeUri: string -> string, s: QueueState, step: Step): QueueState
  {
    if step.rejects && s.running && s.queue == [] then s
    else ConsumeStep(root, encodeUri, s, step.rows)
  }

  /**
   * The queue with its rescheduled calls bound: each call reschedules the next one unless
   * the call it awaited rejected, which ends the chain before `setTimeout` is reached.
   */
  function RunChain(root: string, encodeUri: string -> string, s: QueueState, steps: seq<Step>): QueueState
    decreases |steps|
  {
    if steps == [] then s
    else
      var next := StepOutcome(root, encodeUri, s, steps[0]);
      if steps[0].rejects then next else RunChain(root, encodeUri, next, steps[1..])
  }

  /** When no awaited call rejects, the chain is one consume per table read. */
  lemma {:induction false} RunChainResolved(root: string, encodeUri: string -> string, s: QueueState, steps: seq<Step>)
    requires Resolves(steps)
    ensures RunChain(root, encodeUri, s, steps) == Run(root, encodeUri, s, RowsOf(steps))
    decreases |steps|
  {
    if steps != [] {
      assert RowsOf(steps)[1..] == RowsOf(steps[1..]);
      RunChainResolved(root, encodeUri, ConsumeStep(root, encodeUri, s, steps[0].rows), steps[1..]);
    }
  }

  /** The first rejected call ends the chain: what it leaves is the final state. */
  lemma {:induction false} RunChainStopsAtReject(root: string, encodeUri: string -> string, s: QueueState, steps: seq<Step>, j: nat)
    requires j < |steps| && steps[j].rejects && Resolves(steps[..j])
    ensures RunChain(root, encodeUri, s, steps) ==
            StepOutcome(root, encodeUri, Run(root, encodeUri, s, RowsOf(steps[..j])), steps[j])
    decreases j
  {
    if j > 0 {
      var next := ConsumeStep(root, encodeUri, s, steps[0].rows);
      assert !steps[..j][0].rejects;
      assert steps[1..][..j - 1] == steps[..j][1..];
      assert RowsOf(steps[..j])[1..] == RowsOf(steps[1..][..j - 1]);
      RunChainStopsAtReject(root, encodeUri, next, steps[1..], j - 1);
    }
  }

  /**
   * A rejected call on a running queue leaves it running, with at most its front item gone,
   * and no call follows: every later `start` is then a no-op.
   */
  lemma RejectStalls(root: string, encodeUri: string -> string, s: QueueState, steps: seq<Step>, j: nat, again: seq<Row>)
    requires j < |steps| && steps[j].rejects && Resolves(steps[..j])
    requires Run(root, encodeUri, s, RowsOf(steps[..j])).running
    ensures var before := Run(root, encodeUri, s, RowsOf(steps[..j]));
      var r := RunChain(root, encodeUri, s, steps);
      && r.running
      && r.queue == (if before.queue == [] then [] else before.queue[1..])
      && StartStep(root, encodeUri, r, again) == r
  {
    RunChainStopsAtReject(root, encodeUri, s, steps, j);
  }

  /**
   * The queue as written: the rescheduled `consumeQueue` is passed unbound, so it runs with
   * no `this` and throws at its first line; every call after `start`'s own consume changes
   * nothing.
   */
  function AfterStartAsWritten(root: string, encodeUri: string -> string, s: QueueState, rows: seq<Row>, later: seq<Step>): (r: QueueState)
    ensures s.running ==> r == s
  {
    StartStep(root, encodeUri, s, rows)
  }

  /**
   * As written, starting with two or more rows sends one page and leaves the rest queued
   * with `running` set, so every later `start` is a no-op: the queue is stuck.
   */
  lemma StartStallsAsWritten(root: string, encodeUri: string -> string, rows: seq<Row>, later: seq<Step>, again: seq<Row>)
    requires |rows| >= 2
    ensures var r := AfterStartAsWritten(root, encodeUri, Idle, rows, later);
      && r.running && |r.queue| == |rows| - 1 && |r.transfers| == 1
      && StartStep(root, encodeUri, r, again) == r
  {
  }

  /** The queue with its rescheduled calls bound: `start`, then the chain of consumes it sets off. */
  function AfterStart(root: string, encodeUri: string -> string, s: QueueState, rows: seq<Row>, later: seq<Step>): QueueState
  {
    RunChain(root, encodeUri, StartStep(root, encodeUri, s, rows), later)
  }

  /**
   * With the calls bound, starting an idle queue with `n` rows downloads all of them in
   * table order within `n` steps, and stops once the table comes back empty.
   */
  lemma StartDrainsQueue(root: string, encodeUri: string -> string, rows: seq<Row>, later: seq<Step>)
    requires rows != [] && |later| == |rows| && later[|rows| - 1].rows == [] && Resolves(later)
    ensures AfterStart(root, encodeUri, Idle, rows, later) == QueueState(false, [], Transfers(root, encodeUri, ToItems(rows)))
  {
    var started := StartStep(root, encodeUri, Idle, rows);
    var items := ToItems(rows);
    var drained := QueueState(true, [], Transfers(root, encodeUri, items));
    var fetches := RowsOf(later);
    RunChainResolved(root, encodeUri, started, later);
    StartedSends(root, encodeUri, rows);
    assert fetches == fetches[..|rows| - 1] + [[]];
    RunAppend(root, encodeUri, started, fetches[..|rows| - 1], [[]]);
    RunDrains(root, encodeUri, started, fetches[..|rows| - 1]);
    assert Run(root, encodeUri, drained, [[]]) == ConsumeStep(root, encodeUri, drained, []);
  }

  /**
   * With the calls bound, a download or table read that rejects while rows are still being
   * worked through ends the chain with the queue running: the same stall as the unbound
   * call, one page later.
   */
  lemma StartThenRejectStalls(root: string, encodeUri: string -> string, rows: seq<Row>, later: seq<Step>, again: seq<Row>)
    requires |rows| >= 2 && |later| >= 1 && later[0].rejects
    ensures var r := AfterStart(root, encodeUri, Idle, rows, later);
      && r.running && |r.queue| == |rows| - 2 && |r.transfers| == 2
      && StartStep(root, encodeUri, r, again) == r
  {
    var started := StartStep(root, encodeUri, Idle, rows);
    assert later[..0] == [];
    RejectStalls(root, encodeUri, started, later, 0, again);
  }

  lemma StartedSends(root: string, encodeUri: string -> string, rows: seq<Row>)
    requires rows != []
    ensures StartStep(root, encodeUri, Idle, rows).running
    ensures StartStep(root, encodeUri, Idle, rows).transfers + Transfers(root, encodeUri, StartStep(root, encodeUri, Idle, rows).queue) ==
            Transfers(root, encodeUri, ToItems(rows))
  {
    var items := ToItems(rows);
    assert RefillStep(Idle.(running := true), rows).queue == items;
    assert Transfers(root, encodeUri, items) == [TransferOf(root, encodeUri, items[0])] + Transfers(root, encodeUri, items[1..]);
  }

  /** The download queue object: the flag, the queue, and the downloads issued. */
  class Queue {
    const root: string
    const encodeUri: string -> string
    var running: bool
    var queue: seq<Item>
    var transfers: seq<Download.Transfer>

    function Snapshot(): QueueState
      reads this
    {
      QueueState(running, queue, transfers)
    }

    constructor(root: string, encodeUri: string -> string)
      ensures Snapshot() == Idle && this.root == root && this.encodeUri == encodeUri
    {
      this.root := root;
      this.encodeUri := encodeUri;
      running := false;
      queue := [];
      transfers := [];
    }

    /** `start`, with `rows` the table's contents when it is read. */
    method Start(rows: seq<Row>)
      modifies this
      ensures Snapshot() == StartStep(root, encodeUri, old(Snapshot()), rows)
    {
      if running == false {
        running := true;
        GetNewQueueItems(rows);
        ConsumeQueue([]);
      }
    }

    /** One `consumeQueue` call; `rows` is what the table holds should it refill. */
    method ConsumeQueue(rows: seq<Row>)
      modifies this
      ensures Snapshot() == ConsumeStep(root, encodeUri, old(Snapshot()), rows)
    {
      if running == false {
        return;
      }
      if queue != [] {
        var item := queue[0];
        queue := queue[1..];
        transfers := transfers + [TransferOf(root, encodeUri, item)];
      } else {
        GetNewQueueItems(rows);
      }
    }

    /** `getNewQueueItems`, with `rows` the table's contents. */
    method GetNewQueueItems(rows: seq<Row>)
      modifies this
      ensures Snapshot() == RefillStep(old(Snapshot()), rows)
    {
      var newItems := ToItems(rows);
      if |newItems| == 0 && |queue| == 0 {
        running := false;
      } else {
        queue := queue + newItems;
      }
    }
  }
}
