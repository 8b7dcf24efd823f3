/** The submitter: a wait queue, a run queue, and one delivery attempt a tick. */
module SerialSubmitters {
  import opened Numbers
  import opened Types
  import opened AbacusDBs

  /** A message on its way: its leaf index and how often delivery has failed. */
  datatype Item = Item(leafIndex: u32, retries: nat)

  datatype Status = Unknown | Processed | Pending

  /** What the outside answers in one tick. */
  datatype World = World(disconnected: bool, status: Status, delivered: bool, written: bool)

  datatype Queues = Queues(wait: seq<Item>, run: seq<Item>)

  /** How a tick ended, and the index it marked as processed, if any. */
  datatype Report = Report(ok: bool, popped: Option<Item>, marked: Option<u32>)

  /** One tick on the queues, with `arrived` waiting in the channel. */
  function TickQueues(q: Queues, arrived: seq<Item>, w: World): (Queues, Report) {
    if w.disconnected then (Queues(q.wait + arrived, q.run), Report(false, None, None))
    else Attempt(q.wait + arrived + q.run, w)
  }

  /** One attempt: the front message leaves the run queue, and returns to its back on failure. */
  function Attempt(run: seq<Item>, w: World): (Queues, Report) {
    if |run| == 0 then (Queues([], []), Report(true, None, None))
    else
      var msg, rest := run[0], run[1..];
      match w.status
      case Unknown => (Queues([], rest), Report(false, Some(msg), None))
      case Processed =>
        (Queues([], rest), Report(w.written, Some(msg), if w.written then Some(msg.leafIndex) else None))
      case Pending =>
        if w.delivered && w.written then (Queues([], rest), Report(true, Some(msg), Some(msg.leafIndex)))
        else (Queues([], rest + [msg.(retries := msg.retries + 1)]), Report(true, Some(msg), None))
  }

  class SerialSubmitter {
    var waitQueue: seq<Item>
    var runQueue: seq<Item>
    const db: AbacusDB

    ghost function State(): Queues
      reads this
    {
      Queues(waitQueue, runQueue)
    }

    constructor (db: AbacusDB)
      ensures this.db == db && State() == Queues([], [])
    {
      this.db := db;
      waitQueue, runQueue := [], [];
    }

    /** The processed marks after a tick. */
    ghost predicate Marks(before: Records, report: Report)
      reads this, db
    {
      db.records == match report.marked
                    case None => before
                    case Some(i) => before.(processed := before.processed + {i})
    }

    method Tick(rx: seq<Item>, w: World) returns (ok: bool, ghost report: Report)
      requires db.Valid()
      modifies this, db
      ensures db.Valid() && Marks(old(db.records), report)
      ensures (State(), report) == TickQueues(old(State()), rx, w) && ok == report.ok
    {
      waitQueue := waitQueue + rx;
      if w.disconnected {
        return false, Report(false, None, None);
      }
      Promote();
      ok, report := AttemptFront(w);
    }

    /** Moves the wait queue, in order, in front of the run queue. */
    method Promote()
      modifies this
      ensures waitQueue == [] && runQueue == old(waitQueue) + old(runQueue)
    {
      ghost var all := waitQueue + runQueue;
      while |waitQueue| > 0
        invariant waitQueue + runQueue == all
        decreases |waitQueue|
      {
        var last := waitQueue[|waitQueue| - 1];
        waitQueue := waitQueue[..|waitQueue| - 1];
        runQueue := [last] + runQueue;
      }
    }

    method AttemptFront(w: World) returns (ok: bool, ghost report: Report)
      requires db.Valid() && waitQueue == []
      modifies this, db
      ensures db.Valid() && Marks(old(db.records), report)
      ensures (State(), report) == Attempt(old(runQueue), w) && ok == report.ok
    {
      if |runQueue| == 0 {
        return true, Report(true, None, None);
      }
      var msg := runQueue[0];
      runQueue := runQueue[1..];
      if w.status == Unknown {
        return false, Report(false, Some(msg), None);
      } else if w.status == Processed {
        ok := RecordSuccess(msg, w.written);
        return ok, Report(ok, Some(msg), if ok then Some(msg.leafIndex) else None);
      }
      var delivered := w.delivered;
      if delivered {
        delivered := RecordSuccess(msg, w.written);
      }
      if !delivered {
        runQueue := runQueue + [msg.(retries := msg.retries + 1)];
      }
      return true, Report(true, Some(msg), if delivered then Some(msg.leafIndex) else None);
    }

    /** The commit point of a message; the write to the database may fail. */
    method RecordSuccess(msg: Item, written: bool) returns (ok: bool)
      requires db.Valid()
      modifies db
      ensures db.Valid() && ok == written
      ensures db.records == if ok then old(db.records).(processed := old(db.records.processed) + {msg.leafIndex})
                            else old(db.records)
    {
      if written {
        db.MarkLeafAsProcessed(msg.leafIndex);
      }
      return written;
    }
  }

  // What one tick does, case by case

  /** The destination chain has the message, and the mark was written. */
  predicate Commits(w: World) {
    w.written && (w.status == Processed || (w.status == Pending && w.delivered))
  }

  /** The message was attempted and stays to be tried again. */
  predicate Retries(w: World) {
    w.status == Pending && !(w.delivered && w.written)
  }

  /**
   * A mark says that the message of this tick was found processed, or was delivered, and that the
   * mark was written; under a failed status call there is none.
   */
  lemma MarksWhatWasDelivered(q: Queues, arrived: seq<Item>, w: World)
    ensures var report := TickQueues(q, arrived, w).1;
            && (report.marked.Some? <==> report.popped.Some? && Commits(w))
            && (report.marked.Some? ==> report.marked.value == report.popped.value.leafIndex)
            && (report.marked.Some? ==> w.status != Unknown && (w.status == Pending ==> w.delivered))
  {
  }

  /**
   * A tick takes a message whenever the channel is open and something is queued.  It fails exactly
   * when the channel is closed, or the status of the message it took is unknown, or the message is
   * processed already and the mark cannot be written.
   */
  lemma FailsExactly(q: Queues, arrived: seq<Item>, w: World)
    ensures var report := TickQueues(q, arrived, w).1;
            && (report.popped.Some? <==> !w.disconnected && |q.wait| + |arrived| + |q.run| > 0)
            && (!report.ok <==> w.disconnected || (report.popped.Some? &&
                                                   (w.status == Unknown || (w.status == Processed && !w.written))))
  {
  }

  /** What returns to the back of the run queue of the message taken. */
  function Returned(m: Item, w: World): seq<Item> {
    if Retries(w) then [m.(retries := m.retries + 1)] else []
  }

  predicate Conserved(before: seq<Item>, after: Queues, popped: Option<Item>, w: World) {
    match popped
    case None => multiset(after.wait + after.run) == multiset(before)
    case Some(m) =>
      && m in before && after.wait == []
      && multiset(after.run) == multiset(before) - multiset{m} + multiset(Returned(m, w))
  }

  /** Nothing else leaves or enters the queues: only the message taken, which returns when it is to be retried. */
  lemma TickConserves(q: Queues, arrived: seq<Item>, w: World)
    ensures Conserved(q.wait + arrived + q.run, TickQueues(q, arrived, w).0, TickQueues(q, arrived, w).1.popped, w)
  {
    if !w.disconnected {
      AttemptConserves(q.wait + arrived + q.run, w);
    }
  }

  lemma AttemptConserves(run: seq<Item>, w: World)
    ensures Conserved(run, Attempt(run, w).0, Attempt(run, w).1.popped, w)
  {
    if |run| == 0 {
      assert [] + [] == run;
    } else {
      FrontReturns(run, w);
      FrontLeaves(run, Returned(run[0], w));
    }
  }

  lemma FrontReturns(run: seq<Item>, w: World)
    requires |run| > 0
    ensures Attempt(run, w).0 == Queues([], run[1..] + Returned(run[0], w))
    ensures Attempt(run, w).1.popped == Some(run[0])
  {
    assert run[1..] + [] == run[1..];
  }

  lemma FrontLeaves(run: seq<Item>, back: seq<Item>)
    requires |run| > 0
    ensures multiset(run[1..] + back) == multiset(run) - multiset{run[0]} + multiset(back)
  {
    assert run == [run[0]] + run[1..];
  }

  // The order in which messages are served

  /** The run queue as two lanes: messages never tried, then messages that failed before. */
  datatype Lanes = Lanes(untried: seq<Item>, retried: seq<Item>)

  ghost predicate InLanes(run: seq<Item>, l: Lanes) {
    && run == l.untried + l.retried
    && (forall m :: m in l.untried ==> m.retries == 0)
    && (forall m :: m in l.retried ==> m.retries > 0)
  }

  /** A failed message goes to the back of the retried lane; that lane is served in order. */
  function LaneAttempt(l: Lanes, w: World): Lanes {
    var failed := w.status == Pending && !(w.delivered && w.written);
    if |l.untried| > 0 then Lanes(l.untried[1..], l.retried + (if failed then [l.untried[0].(retries := 1)] else []))
    else if |l.retried| > 0 then
      Lanes([], l.retried[1..] + (if failed then [l.retried[0].(retries := l.retried[0].retries + 1)] else []))
    else l
  }

  /**
   * Every tick that gets past the channel keeps the two lanes: what arrives goes in front of all,
   * in order; untried messages are attempted before retried ones; retried ones first in, first out.
   */
  lemma TickKeepsLanes(q: Queues, l: Lanes, arrived: seq<Item>, w: World)
    requires InLanes(q.run, l) && !w.disconnected
    requires forall m :: m in q.wait + arrived ==> m.retries == 0
    ensures InLanes(TickQueues(q, arrived, w).0.run, LaneAttempt(Lanes(q.wait + arrived + l.untried, l.retried), w))
    ensures TickQueues(q, arrived, w).0.wait == []
  {
    var l1 := Lanes(q.wait + arrived + l.untried, l.retried);
    var run := q.wait + arrived + q.run;
    ArriveInLanes(q.run, l, q.wait + arrived);
    AttemptKeepsLanes(run, l1, w);
  }

  lemma ArriveInLanes(run: seq<Item>, l: Lanes, new_: seq<Item>)
    requires InLanes(run, l) && forall m :: m in new_ ==> m.retries == 0
    ensures InLanes(new_ + run, Lanes(new_ + l.untried, l.retried))
  {
    assert new_ + run == (new_ + l.untried) + l.retried;
  }

  lemma AttemptKeepsLanes(run: seq<Item>, l: Lanes, w: World)
    requires InLanes(run, l)
    ensures InLanes(Attempt(run, w).0.run, LaneAttempt(l, w))
  {
    if |run| > 0 {
      LanesPop(run, l);
      var failed := w.status == Pending && !(w.delivered && w.written);
      var rest := if |l.untried| > 0 then Lanes(l.untried[1..], l.retried) else Lanes([], l.retried[1..]);
      if failed {
        PushInLanes(run[1..], rest, run[0].(retries := run[0].retries + 1));
      }
    }
  }

  lemma LanesPop(run: seq<Item>, l: Lanes)
    requires |run| > 0 && InLanes(run, l)
    ensures |l.untried| > 0 ==> run[0] == l.untried[0] && InLanes(run[1..], Lanes(l.untried[1..], l.retried))
    ensures |l.untried| == 0 ==> run[0] == l.retried[0] && InLanes(run[1..], Lanes([], l.retried[1..]))
    ensures |l.untried| > 0 ==> l.untried[0].retries == 0
  {
    if |l.untried| > 0 {
      assert l.untried[0] in l.untried;
      assert run[1..] == l.untried[1..] + l.retried;
    } else {
      assert run == l.retried;
    }
  }

  lemma PushInLanes(run: seq<Item>, l: Lanes, m: Item)
    requires InLanes(run, l) && m.retries > 0
    ensures InLanes(run + [m], Lanes(l.untried, l.retried + [m]))
  {
    assert run + [m] == l.untried + (l.retried + [m]);
  }

  // The order by retries and then by leaf index

  /** `a` comes no later than `b` in the order by retries and then by leaf index. */
  predicate NoLater(a: Item, b: Item) {
    a.retries < b.retries || (a.retries == b.retries && a.leafIndex <= b.leafIndex)
  }

  ghost predicate Least(m: Item, items: seq<Item>) {
    forall x :: x in items ==> NoLater(m, x)
  }

  ghost predicate InOrder(items: seq<Item>) {
    forall i, j :: 0 <= i < j < |items| ==> NoLater(items[i], items[j])
  }

  ghost predicate Ascending(items: seq<Item>) {
    forall i, j :: 0 <= i < j < |items| ==> items[i].leafIndex < items[j].leafIndex
  }

  /** A later message that arrives goes before an earlier one that waits. */
  lemma LateArrivalGoesFirst(w: World)
    requires !w.disconnected
    ensures TickQueues(Queues([], [Item(5, 0)]), [Item(7, 0)], w).1.popped == Some(Item(7, 0))
    ensures !Least(Item(7, 0), [Item(7, 0)] + [Item(5, 0)])
  {
    var run: seq<Item> := [] + [Item(7, 0)] + [Item(5, 0)];
    assert run[0] == Item(7, 0);
    assert !NoLater(Item(7, 0), Item(5, 0));
    assert Item(5, 0) in [Item(7, 0)] + [Item(5, 0)];
  }

  lemma AscendingIsInOrder(fresh_: seq<Item>, retried: seq<Item>)
    requires Ascending(fresh_) && |fresh_| > 0
    requires (forall m :: m in fresh_ ==> m.retries == 0) && forall m :: m in retried ==> m.retries > 0
    ensures Least(fresh_[0], fresh_ + retried)
  {
    assert fresh_[0] in fresh_;
    forall x | x in fresh_ + retried ensures NoLater(fresh_[0], x) {
    }
  }

  lemma NothingNew(new_: seq<Item>, l: Lanes)
    requires |new_| == 0 && |l.untried| > 0 && Ascending(l.untried + new_)
    requires (forall m :: m in l.untried ==> m.retries == 0) && forall m :: m in l.retried ==> m.retries > 0
    ensures Least((new_ + (l.untried + l.retried))[0], new_ + (l.untried + l.retried))
  {
    assert l.untried + new_ == l.untried;
    assert new_ + (l.untried + l.retried) == l.untried + l.retried;
    AscendingIsInOrder(l.untried, l.retried);
  }

  lemma NothingOld(new_: seq<Item>, l: Lanes)
    requires |new_| > 0 && |l.untried| == 0 && Ascending(l.untried + new_)
    requires (forall m :: m in new_ ==> m.retries == 0) && forall m :: m in l.retried ==> m.retries > 0
    ensures Least((new_ + (l.untried + l.retried))[0], new_ + (l.untried + l.retried))
  {
    assert l.untried + new_ == new_;
    assert new_ + (l.untried + l.retried) == new_ + l.retried;
    AscendingIsInOrder(new_, l.retried);
  }

  /**
   * Exactly when a tick with an untried message attempts the one that is first by retries and then
   * by leaf index: when nothing new arrives on top of messages that were never tried.
   */
  lemma AttemptsTheLeast(q: Queues, l: Lanes, arrived: seq<Item>, w: World)
    requires InLanes(q.run, l) && !w.disconnected
    requires Ascending(l.untried + (q.wait + arrived))
    requires forall m :: m in q.wait + arrived ==> m.retries == 0
    requires |q.wait + arrived| + |l.untried| > 0
    ensures var popped := TickQueues(q, arrived, w).1.popped;
            && popped.Some?
            && (Least(popped.value, q.wait + arrived + q.run) <==> |q.wait + arrived| == 0 || |l.untried| == 0)
  {
    var new_ := q.wait + arrived;
    TakesTheFront(q, arrived, w);
    if |new_| == 0 {
      NothingNew(new_, l);
    } else if |l.untried| == 0 {
      NothingOld(new_, l);
    } else {
      NewBeforeOld(new_, l);
    }
  }

  lemma TakesTheFront(q: Queues, arrived: seq<Item>, w: World)
    requires !w.disconnected && |q.wait + arrived + q.run| > 0
    ensures TickQueues(q, arrived, w).1.popped == Some((q.wait + arrived + q.run)[0])
  {
  }

  lemma NewBeforeOld(new_: seq<Item>, l: Lanes)
    requires |new_| > 0 && |l.untried| > 0 && Ascending(l.untried + new_)
    requires (forall m :: m in new_ ==> m.retries == 0) && forall m :: m in l.untried ==> m.retries == 0
    ensures !Least((new_ + (l.untried + l.retried))[0], new_ + (l.untried + l.retried))
  {
    var all := l.untried + new_;
    assert all[0] == l.untried[0] && all[|l.untried|] == new_[0];
    assert new_[0] in new_ && l.untried[0] in l.untried;
    assert l.untried[0] in new_ + (l.untried + l.retried);
  }

  /** One more message at the end keeps the order exactly when the last one comes no later. */
  lemma InOrderSnoc(items: seq<Item>, m: Item)
    requires InOrder(items)
    ensures InOrder(items + [m]) <==> |items| == 0 || NoLater(items[|items| - 1], m)
  {
    var more := items + [m];
    if |items| > 0 {
      assert more[|items| - 1] == items[|items| - 1] && more[|items|] == m;
      if NoLater(items[|items| - 1], m) {
        forall i, j | 0 <= i < j < |more| ensures NoLater(more[i], more[j]) {
        }
      }
    }
  }

  ghost predicate Fails(w: World) {
    w.status == Pending && !(w.delivered && w.written)
  }

  /**
   * Exactly when the failed messages are still in that order after an untried one fails: when there
   * were none, or the last one had failed once and has no higher leaf index.
   */
  lemma UntriedFailureKeepsOrder(l: Lanes, w: World)
    requires |l.untried| > 0 && InOrder(l.retried) && Fails(w)
    requires forall m :: m in l.retried ==> m.retries > 0
    ensures InOrder(LaneAttempt(l, w).retried) <==>
      || |l.retried| == 0
      || var last := l.retried[|l.retried| - 1];
         last.retries == 1 && last.leafIndex <= l.untried[0].leafIndex
  {
    InOrderSnoc(l.retried, l.untried[0].(retries := 1));
    if |l.retried| > 0 {
      assert l.retried[|l.retried| - 1] in l.retried;
    }
  }

  /** The same after a message fails again, as is tried only when no untried one is left. */
  lemma RetriedFailureKeepsOrder(l: Lanes, w: World)
    requires |l.untried| == 0 && |l.retried| > 0 && InOrder(l.retried) && Fails(w)
    ensures var again := l.retried[0].(retries := l.retried[0].retries + 1);
            InOrder(LaneAttempt(l, w).retried) <==>
              |l.retried| == 1 || NoLater(l.retried[|l.retried| - 1], again)
  {
    InOrderSnoc(l.retried[1..], l.retried[0].(retries := l.retried[0].retries + 1));
  }

  // How long a message waits

  datatype Round = Round(arrived: seq<Item>, world: World)

  /** The queues after some ticks. */
  function After(q: Queues, rounds: seq<Round>): Queues
    decreases |rounds|
  {
    if |rounds| == 0 then q
    else After(TickQueues(q, rounds[0].arrived, rounds[0].world).0, rounds[1..])
  }

  predicate AllOk(q: Queues, rounds: seq<Round>)
    decreases |rounds|
  {
    |rounds| == 0 ||
    var (q', report) := TickQueues(q, rounds[0].arrived, rounds[0].world);
    report.ok && AllOk(q', rounds[1..])
  }

  function Arrivals(rounds: seq<Round>): nat {
    if |rounds| == 0 then 0 else |rounds[0].arrived| + Arrivals(rounds[1..])
  }

  /** The tick, counted from 0, in which the message at position `p` reaches the front. */
  function TurnOf(p: nat, rounds: seq<Round>): Option<nat>
    decreases |rounds|
  {
    if |rounds| == 0 then None
    else
      var ahead := p + |rounds[0].arrived|;
      if ahead == 0 then Some(0)
      else match TurnOf(ahead - 1, rounds[1..])
        case None => None
        case Some(j) => Some(j + 1)
  }

  lemma PositionMoves(q: Queues, p: nat, r: Round)
    requires q.wait == [] && p < |q.run| && !r.world.disconnected && p + |r.arrived| > 0
    ensures var q' := TickQueues(q, r.arrived, r.world).0;
            q'.wait == [] && p + |r.arrived| - 1 < |q'.run| && q'.run[p + |r.arrived| - 1] == q.run[p]
  {
    var run := q.wait + r.arrived + q.run;
    assert run[p + |r.arrived|] == q.run[p];
  }

  /** What tick `t` takes from the queue. */
  function PoppedIn(q: Queues, rounds: seq<Round>, t: nat): Option<Item>
    requires t < |rounds|
  {
    TickQueues(After(q, rounds[..t]), rounds[t].arrived, rounds[t].world).1.popped
  }

  /** The first `n` ticks all attempt messages with another index. */
  ghost predicate Passes(q: Queues, rounds: seq<Round>, leafIndex: u32, n: nat)
    requires n <= |rounds|
  {
    forall t :: 0 <= t < n ==> PoppedIn(q, rounds, t).Some? && PoppedIn(q, rounds, t).value.leafIndex != leafIndex
  }

  function Arrived(rounds: seq<Round>): seq<Item> {
    if |rounds| == 0 then [] else rounds[0].arrived + Arrived(rounds[1..])
  }

  /** No message in front of position `p`, and none that arrives, has the index of the one there. */
  ghost predicate Alone(q: Queues, p: nat, rounds: seq<Round>)
    requires p < |q.run|
  {
    && (forall m :: m in q.run[..p] ==> m.leafIndex != q.run[p].leafIndex)
    && (forall m :: m in Arrived(rounds) ==> m.leafIndex != q.run[p].leafIndex)
  }

  lemma AloneMoves(q: Queues, p: nat, rounds: seq<Round>)
    requires |rounds| > 0 && q.wait == [] && p < |q.run| && Alone(q, p, rounds)
    requires var r := rounds[0]; !r.world.disconnected && p + |r.arrived| > 0
    ensures var (q', report) := TickQueues(q, rounds[0].arrived, rounds[0].world);
            var p' := p + |rounds[0].arrived| - 1;
            && report.popped.Some? && report.popped.value.leafIndex != q.run[p].leafIndex
            && p' < |q'.run| && q'.run[p'] == q.run[p] && Alone(q', p', rounds[1..])
  {
    var r := rounds[0];
    PositionMoves(q, p, r);
    var run := q.wait + r.arrived + q.run;
    var ahead := p + |r.arrived|;
    forall j | 0 <= j < ahead ensures run[j].leafIndex != q.run[p].leafIndex {
      if j < |r.arrived| {
        assert run[j] in Arrived(rounds);
      } else {
        assert run[j] in q.run[..p];
      }
    }
    var q' := TickQueues(q, r.arrived, r.world).0;
    forall m | m in q'.run[..ahead - 1] ensures m.leafIndex != q.run[p].leafIndex {
      var j :| 0 <= j < ahead - 1 && q'.run[j] == m;
      assert m == run[j + 1];
    }
  }

  lemma LaterTick(q: Queues, rounds: seq<Round>, t: nat)
    requires t + 1 < |rounds|
    ensures PoppedIn(q, rounds, t + 1)
         == PoppedIn(TickQueues(q, rounds[0].arrived, rounds[0].world).0, rounds[1..], t)
  {
    assert rounds[..t + 1][1..] == rounds[1..][..t];
  }

  lemma PassesOneMore(q: Queues, rounds: seq<Round>, leafIndex: u32, n: nat)
    requires n < |rounds|
    requires var (q', report) := TickQueues(q, rounds[0].arrived, rounds[0].world);
             report.popped.Some? && report.popped.value.leafIndex != leafIndex && Passes(q', rounds[1..], leafIndex, n)
    ensures Passes(q, rounds, leafIndex, n + 1)
  {
    forall t | 0 <= t < n + 1
      ensures PoppedIn(q, rounds, t).Some? && PoppedIn(q, rounds, t).value.leafIndex != leafIndex
    {
      if t > 0 {
        LaterTick(q, rounds, t - 1);
      }
    }
  }

  /** How many of the ticks come before the turn of the message at position `p`. */
  function TicksBefore(p: nat, rounds: seq<Round>): nat
    decreases |rounds|
  {
    if |rounds| == 0 || p + |rounds[0].arrived| == 0 then 0
    else 1 + TicksBefore(p + |rounds[0].arrived| - 1, rounds[1..])
  }

  /** Before its turn, every tick attempts another message. */
  lemma {:induction false} OthersGoFirst(q: Queues, p: nat, rounds: seq<Round>)
    requires q.wait == [] && p < |q.run| && AllOk(q, rounds) && Alone(q, p, rounds)
    ensures TicksBefore(p, rounds) == match TurnOf(p, rounds) case None => |rounds| case Some(j) => j
    ensures TicksBefore(p, rounds) <= |rounds|
    ensures Passes(q, rounds, q.run[p].leafIndex, TicksBefore(p, rounds))
    decreases |rounds|
  {
    if |rounds| > 0 && p + |rounds[0].arrived| > 0 {
      var r := rounds[0];
      var q' := TickQueues(q, r.arrived, r.world).0;
      PositionMoves(q, p, r);
      AloneMoves(q, p, rounds);
      OthersGoFirst(q', p + |r.arrived| - 1, rounds[1..]);
      PassesOneMore(q, rounds, q.run[p].leafIndex, TicksBefore(p + |r.arrived| - 1, rounds[1..]));
    }
  }

  /**
   * Exact waiting: over ticks that succeed, the message at position `p` is attempted after exactly
   * `p` other attempts plus one for each message that has arrived by then.
   */
  lemma {:induction false} TurnComes(q: Queues, p: nat, rounds: seq<Round>)
    requires q.wait == [] && p < |q.run| && AllOk(q, rounds)
    ensures match TurnOf(p, rounds)
            case None => |rounds| <= p + Arrivals(rounds)
            case Some(j) =>
              && j < |rounds| && j == p + Arrivals(rounds[..j + 1]) && PoppedIn(q, rounds, j) == Some(q.run[p])
    decreases |rounds|
  {
    if |rounds| > 0 {
      var r := rounds[0];
      if p + |r.arrived| == 0 {
        assert rounds[..1][1..] == [];
        FrontIsPopped(q, r);
      } else {
        PositionMoves(q, p, r);
        var q' := TickQueues(q, r.arrived, r.world).0;
        TurnComes(q', p + |r.arrived| - 1, rounds[1..]);
        if TurnOf(p, rounds).Some? {
          var j := TurnOf(p, rounds).value;
          LaterTick(q, rounds, j - 1);
          assert rounds[..j + 1][1..] == rounds[1..][..j];
        }
      }
    }
  }

  /**
   * Exact waiting, both ways: the turn comes after `p` other attempts plus one for each arrival,
   * and in no tick before, as long as no message in front of it or arriving has the same index.
   */
  lemma WaitsExactly(q: Queues, p: nat, rounds: seq<Round>)
    requires q.wait == [] && p < |q.run| && AllOk(q, rounds)
    ensures match TurnOf(p, rounds)
            case None =>
              && |rounds| <= p + Arrivals(rounds)
              && (Alone(q, p, rounds) ==> Passes(q, rounds, q.run[p].leafIndex, |rounds|))
            case Some(j) =>
              && j < |rounds| && j == p + Arrivals(rounds[..j + 1]) && PoppedIn(q, rounds, j) == Some(q.run[p])
              && (Alone(q, p, rounds) ==> Passes(q, rounds, q.run[p].leafIndex, j))
  {
    TurnComes(q, p, rounds);
    if Alone(q, p, rounds) {
      OthersGoFirst(q, p, rounds);
    }
  }

  lemma FrontIsPopped(q: Queues, r: Round)
    requires q.wait == [] && |q.run| > 0 && |r.arrived| == 0 && !r.world.disconnected
    ensures TickQueues(q, r.arrived, r.world).1.popped == Some(q.run[0])
  {
    assert q.wait + r.arrived + q.run == q.run;
  }
}
