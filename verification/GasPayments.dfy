/** Gas payment indexing: each payment counts once, however the windows overlap and whatever crashes. */
module GasPayments {
  import opened Numbers
  import opened Bytes
  import opened Types
  import opened Codec
  import opened AbacusDBs
  import O = OutboxSyncs

  // One payment

  /** What processing a payment leaves behind; a false answer is the panic on overflow. */
  function Process(rs: Records, p: GasPayment): (Records, bool) {
    if p.meta in rs.paid then (rs, true)
    else
      var total := WithTotal(WithPaid(rs, p), p);
      if total == None then (WithPaid(rs, p), false) else (total.value, true)
  }

  function ProcessAll(rs: Records, ps: seq<GasPayment>): (Records, bool) {
    if |ps| == 0 then (rs, true)
    else
      var (before, ok) := ProcessAll(rs, ps[..|ps| - 1]);
      if !ok then (before, false) else Process(before, ps[|ps| - 1])
  }

  // The sum of a set of payments

  function AmountFor(p: GasPayment, leafIndex: u32): nat {
    if p.leafIndex == leafIndex then Amount(p.amount) else 0
  }

  /** The amounts paid for a leaf over a set of payments, each counted once. */
  ghost function SumFor(ps: set<GasPayment>, leafIndex: u32): nat {
    if ps == {} then 0
    else var p :| p in ps; AmountFor(p, leafIndex) + SumFor(ps - {p}, leafIndex)
  }

  lemma {:induction false} SumWith(ps: set<GasPayment>, p: GasPayment, leafIndex: u32)
    requires p !in ps
    ensures SumFor(ps + {p}, leafIndex) == SumFor(ps, leafIndex) + AmountFor(p, leafIndex)
    decreases |ps|
  {
    var all := ps + {p};
    var q :| q in all && SumFor(all, leafIndex) == AmountFor(q, leafIndex) + SumFor(all - {q}, leafIndex);
    if q == p {
      assert all - {p} == ps;
    } else {
      SumWith(ps - {q}, p, leafIndex);
      assert all - {q} == (ps - {q}) + {p};
      SumWith(ps - {q}, q, leafIndex);
      assert (ps - {q}) + {q} == ps;
    }
  }

  lemma {:induction false} SumMonotone(ps: set<GasPayment>, qs: set<GasPayment>, leafIndex: u32)
    requires ps <= qs
    ensures SumFor(ps, leafIndex) <= SumFor(qs, leafIndex)
    decreases |qs|
  {
    if q :| q in qs && q !in ps {
      SumMonotone(ps, qs - {q}, leafIndex);
      SumWith(qs - {q}, q, leafIndex);
      assert (qs - {q}) + {q} == qs;
    } else {
      assert ps == qs;
    }
  }

  // The invariant

  /** The identity of a payment determines it. */
  ghost predicate Consistent(ps: set<GasPayment>) {
    forall p, q :: p in ps && q in ps && p.meta == q.meta ==> p == q
  }

  /** Of the payments seen, exactly those in `counted` are in the totals; the marks say which were seen. */
  ghost predicate Books(rs: Records, seen: set<GasPayment>, counted: set<GasPayment>) {
    && counted <= seen && Consistent(seen)
    && (forall meta :: meta in rs.paid <==> exists p :: p in seen && p.meta == meta)
    && forall i: u32 :: GasAt(rs, i) == SumFor(counted, i)
  }

  lemma TotalGrows(rs: Records, p: GasPayment)
    requires WithTotal(rs, p).Some?
    ensures forall i: u32 :: GasAt(WithTotal(rs, p).value, i) == GasAt(rs, i) + AmountFor(p, i)
  {
  }

  lemma EmptyBooks()
    ensures Books(NO_RECORDS, {}, {})
  {
    forall i: u32 ensures GasAt(NO_RECORDS, i) == 0 {
      ZeroAmount(seq(32, _ => 0));
    }
  }

  lemma {:induction false} ZeroAmount(s: seq<u8>)
    requires forall j :: 0 <= j < |s| ==> s[j] == 0
    ensures FromLE(s) == 0
  {
    if |s| > 0 {
      ZeroAmount(s[1..]);
    }
  }

  /** Processing a payment counts it if it is new; a payment seen before changes nothing. */
  lemma ProcessKeepsBooks(rs: Records, p: GasPayment, seen: set<GasPayment>, counted: set<GasPayment>)
    requires Books(rs, seen, counted) && Consistent(seen + {p})
    ensures var (rs', ok) := Process(rs, p);
            Books(rs', seen + {p}, if ok && p !in seen then counted + {p} else counted)
  {
    if p.meta in rs.paid {
      var q :| q in seen && q.meta == p.meta;
      assert seen + {p} == seen;
    } else {
      var (rs', ok) := Process(rs, p);
      assert p !in seen;
      if ok {
        TotalGrows(WithPaid(rs, p), p);
        forall i: u32 ensures GasAt(rs', i) == SumFor(counted + {p}, i) {
          SumWith(counted, p, i);
        }
      }
      MarkKeepsBooks(rs, p, seen, rs');
    }
  }

  lemma MarkKeepsBooks(rs: Records, p: GasPayment, seen: set<GasPayment>, rs': Records)
    requires rs'.paid == rs.paid + {p.meta}
    requires forall meta :: meta in rs.paid <==> exists q :: q in seen && q.meta == meta
    ensures forall meta :: meta in rs'.paid <==> exists q :: q in seen + {p} && q.meta == meta
  {
    forall meta ensures meta in rs'.paid <==> exists q :: q in seen + {p} && q.meta == meta {
      if meta == p.meta {
        assert p in seen + {p};
      } else if meta in rs.paid {
        var q :| q in seen && q.meta == meta;
        assert q in seen + {p};
      }
    }
  }

  /** How many payments are marked without being in a total. */
  function Missed(seen: set<GasPayment>, counted: set<GasPayment>): nat {
    |seen - counted|
  }

  lemma NewlySeen(seen: set<GasPayment>, counted: set<GasPayment>, p: GasPayment)
    requires counted <= seen && p !in seen
    ensures Missed(seen + {p}, counted + {p}) == Missed(seen, counted)
    ensures Missed(seen + {p}, counted) == Missed(seen, counted) + 1
  {
    assert (seen + {p}) - (counted + {p}) == seen - counted;
    assert (seen + {p}) - counted == (seen - counted) + {p};
  }

  function Elements(ps: seq<GasPayment>): set<GasPayment> {
    set p | p in ps
  }

  /** Processing a whole list: on success everything new in it is counted, else all but one payment. */
  ghost predicate Booked(rs: Records, ps: set<GasPayment>, seen: set<GasPayment>, counted: set<GasPayment>,
                         rs': Records, ok: bool, seen': set<GasPayment>, counted': set<GasPayment>) {
    && Books(rs', seen', counted')
    && seen <= seen' <= seen + ps
    && (ok ==> seen' == seen + ps && counted' == counted + (seen' - seen))
    && Missed(seen', counted') <= Missed(seen, counted) + (if ok then 0 else 1)
    && rs'.gasBlock == rs.gasBlock
  }

  lemma ProcessKeepsCursor(rs: Records, p: GasPayment)
    ensures Process(rs, p).0.gasBlock == rs.gasBlock
  {
  }

  function CountedAfter(seen: set<GasPayment>, counted: set<GasPayment>, p: GasPayment, ok: bool): set<GasPayment> {
    if ok && p !in seen then counted + {p} else counted
  }

  lemma ProcessMisses(seen: set<GasPayment>, counted: set<GasPayment>, p: GasPayment, ok: bool)
    requires counted <= seen
    ensures var counted' := CountedAfter(seen, counted, p, ok);
            && Missed(seen + {p}, counted') <= Missed(seen, counted) + (if ok then 0 else 1)
            && (ok ==> counted' == counted + (seen + {p} - seen))
  {
    if p in seen {
      assert seen + {p} == seen;
    } else {
      NewlySeen(seen, counted, p);
    }
  }

  lemma ProcessIsBooked(rs: Records, p: GasPayment, seen: set<GasPayment>, counted: set<GasPayment>)
    returns (seen': set<GasPayment>, counted': set<GasPayment>)
    requires Books(rs, seen, counted) && Consistent(seen + {p})
    ensures Booked(rs, {p}, seen, counted, Process(rs, p).0, Process(rs, p).1, seen', counted')
  {
    var (rs', ok) := Process(rs, p);
    ProcessKeepsBooks(rs, p, seen, counted);
    ProcessKeepsCursor(rs, p);
    ProcessMisses(seen, counted, p, ok);
    seen' := seen + {p};
    counted' := CountedAfter(seen, counted, p, ok);
  }

  /** One list after another. */
  lemma BookedTwice(rs: Records, ps: set<GasPayment>, seen: set<GasPayment>, counted: set<GasPayment>,
                    rs1: Records, seen1: set<GasPayment>, counted1: set<GasPayment>,
                    qs: set<GasPayment>, rs2: Records, ok: bool, seen2: set<GasPayment>, counted2: set<GasPayment>)
    requires counted <= seen && counted1 <= seen1
    requires Booked(rs, ps, seen, counted, rs1, true, seen1, counted1)
    requires Booked(rs1, qs, seen1, counted1, rs2, ok, seen2, counted2)
    ensures Booked(rs, ps + qs, seen, counted, rs2, ok, seen2, counted2)
  {
  }

  lemma LastOfList(rs: Records, ps: seq<GasPayment>)
    requires |ps| > 0
    ensures Elements(ps) == Elements(ps[..|ps| - 1]) + {ps[|ps| - 1]}
    ensures ProcessAll(rs, ps) == var (before, ok) := ProcessAll(rs, ps[..|ps| - 1]);
                                  if ok then Process(before, ps[|ps| - 1]) else (before, false)
  {
    assert ps == ps[..|ps| - 1] + [ps[|ps| - 1]];
  }

  lemma {:induction false} BatchIsBooked(rs: Records, ps: seq<GasPayment>, seen: set<GasPayment>,
                                         counted: set<GasPayment>)
    returns (seen': set<GasPayment>, counted': set<GasPayment>)
    requires Books(rs, seen, counted) && Consistent(seen + Elements(ps))
    ensures Booked(rs, Elements(ps), seen, counted, ProcessAll(rs, ps).0, ProcessAll(rs, ps).1, seen', counted')
  {
    seen', counted' := seen, counted;
    if |ps| > 0 {
      var init, p := ps[..|ps| - 1], ps[|ps| - 1];
      LastOfList(rs, ps);
      var seen1, counted1 := BatchIsBooked(rs, init, seen, counted);
      seen', counted' := seen1, counted1;
      var (before, ok) := ProcessAll(rs, init);
      if ok {
        seen', counted' := ProcessIsBooked(before, p, seen1, counted1);
        BookedTwice(rs, Elements(init), seen, counted, before, seen1, counted1,
                    {p}, Process(before, p).0, Process(before, p).1, seen', counted');
      }
    }
  }

  // The loop

  datatype SyncState = SyncState(from: nat, records: Records)

  function Start(configFrom: u32, records: Records): SyncState {
    SyncState(if records.gasBlock.Some? then records.gasBlock.value + 1 else configFrom, records)
  }

  /** One iteration; the answer is whether the loop goes on. */
  function Step(s: SyncState, chunk: u32, tip: Option<u32>, fetched: Option<seq<GasPayment>>): (SyncState, bool) {
    if tip.None? || tip.value <= s.from then (s, true)
    else if fetched.None? then (s, false)
    else
      var to := O.WindowEnd(s.from, tip.value, chunk);
      var (records, ok) := ProcessAll(s.records, fetched.value);
      if ok then (SyncState(to + 1, records.(gasBlock := Some(to))), true) else (s.(records := records), false)
  }

  /** The outcomes of an iteration; it ends the loop exactly when the provider fails or a total overflows. */
  lemma StepOutcome(s: SyncState, chunk: u32, tip: Option<u32>, fetched: Option<seq<GasPayment>>)
    ensures var (s', running) := Step(s, chunk, tip, fetched);
            if tip.None? || tip.value <= s.from then running && s' == s
            else if fetched.None? then !running && s' == s
            else
              var to, (records, ok) := O.WindowEnd(s.from, tip.value, chunk), ProcessAll(s.records, fetched.value);
              && running == ok
              && s'.records.(gasBlock := None) == records.(gasBlock := None)
              && (ok ==> s'.from == to + 1 && s'.records.gasBlock == Some(to))
              && (!ok ==> s'.from == s.from && s'.records.gasBlock == s.records.gasBlock)
  {
    if tip.Some? && s.from < tip.value && fetched.Some? {
      BatchKeepsCursor(s.records, fetched.value);
    }
  }

  /** After a completed window, a restart goes on with the block after it, as the loop itself does. */
  lemma ResumesAfterTheWindow(configFrom: u32, s: SyncState, chunk: u32, tip: u32, fetched: seq<GasPayment>)
    requires s.from < tip && Step(s, chunk, Some(tip), Some(fetched)).1
    ensures var s' := Step(s, chunk, Some(tip), Some(fetched)).0;
            && s'.from == O.WindowEnd(s.from, tip, chunk) + 1 && Start(configFrom, s'.records) == s'
    ensures Start(configFrom, NO_RECORDS).from == configFrom
  {
  }

  /** The gas payment indexer, on top of the database handle. */
  class GasSync {
    var from: nat
    const db: AbacusDB

    ghost function State(): SyncState
      reads this, db
    {
      SyncState(from, db.records)
    }

    constructor (configFrom: u32, db: AbacusDB)
      requires db.Valid()
      ensures this.db == db && State() == Start(configFrom, db.records)
    {
      this.db := db;
      new;
      var block := db.RetrieveGasBlock();
      var start: nat := configFrom;
      if block.Some? {
        start := block.value;
        start := start + 1;
      }
      from := start;
    }

    method Iterate(chunk: u32, tip: Option<u32>, fetched: Option<seq<GasPayment>>) returns (running: bool)
      requires db.Valid()
      modifies this, db
      ensures db.Valid() && (State(), running) == Step(old(State()), chunk, tip, fetched)
    {
      if tip.None? || tip.value <= from {
        return true;
      }
      if fetched.None? {
        return false;
      }
      var to: nat := O.WindowEnd(from, tip.value, chunk);
      running := Count(fetched.value);
      if running {
        db.StoreGasBlock(to);
        from := to + 1;
      }
    }

    method Count(payments: seq<GasPayment>) returns (ok: bool)
      requires db.Valid()
      modifies db
      ensures db.Valid() && (db.records, ok) == ProcessAll(old(db.records), payments)
    {
      ok := true;
      for i := 0 to |payments|
        invariant db.Valid() && (db.records, true) == ProcessAll(old(db.records), payments[..i])
      {
        FirstOverflow(old(db.records), payments, i);
        ok := db.ProcessGasPayment(payments[i]);
        if !ok {
          return;
        }
      }
      ok := true;
      assert payments[..|payments|] == payments;
    }
  }

  lemma FirstOverflow(rs: Records, ps: seq<GasPayment>, i: nat)
    requires i < |ps| && ProcessAll(rs, ps[..i]).1
    ensures ProcessAll(rs, ps[..i + 1]) == Process(ProcessAll(rs, ps[..i]).0, ps[i])
    ensures !ProcessAll(rs, ps[..i + 1]).1 ==> ProcessAll(rs, ps) == ProcessAll(rs, ps[..i + 1])
  {
    assert ps[..i + 1][..i] == ps[..i];
    if !ProcessAll(rs, ps[..i + 1]).1 {
      OverflowStays(rs, ps, i + 1);
    }
  }

  lemma {:induction false} OverflowStays(rs: Records, ps: seq<GasPayment>, i: nat)
    requires i <= |ps| && !ProcessAll(rs, ps[..i]).1
    ensures ProcessAll(rs, ps) == ProcessAll(rs, ps[..i])
  {
    if i == |ps| {
      assert ps[..i] == ps;
    } else {
      var init := ps[..|ps| - 1];
      assert init[..i] == ps[..i];
      OverflowStays(rs, init, i);
    }
  }

  // Runs, with restarts and crashes anywhere

  datatype Event =
    | Iterate(tip: Option<u32>, fetched: Option<seq<GasPayment>>)
    | Restart
    | CrashIn(fetched: Option<seq<GasPayment>>, done: nat, marked: bool)

  /** The state of the loop and the block windows it has completed. */
  datatype Ledger = Ledger(state: SyncState, windows: seq<(nat, nat)>)

  /** A call to the provider is made only below the tip, and answers with payments from `chain`. */
  ghost predicate Legal(chain: set<GasPayment>, s: SyncState, e: Event) {
    match e
    case Iterate(tip, fetched) =>
      && (fetched.Some? ==> tip.Some? && s.from < tip.value && Elements(fetched.value) <= chain)
    case Restart => true
    case CrashIn(fetched, done, _) => fetched.Some? ==> done <= |fetched.value| && Elements(fetched.value) <= chain
  }

  function Marked(rs: Records, p: GasPayment): Records {
    if p.meta in rs.paid then rs else WithPaid(rs, p)
  }

  /** What a crash leaves: some payments processed, perhaps the next one marked but not added. */
  function Crashed(rs: Records, ps: seq<GasPayment>, done: nat, marked: bool): Records
    requires done <= |ps|
  {
    var (before, ok) := ProcessAll(rs, ps[..done]);
    if ok && marked && done < |ps| then Marked(before, ps[done]) else before
  }

  function Apply(configFrom: u32, chunk: u32, l: Ledger, e: Event): Ledger
    requires e.CrashIn? && e.fetched.Some? ==> e.done <= |e.fetched.value|
  {
    match e
    case Iterate(tip, fetched) =>
      var (s, ok) := Step(l.state, chunk, tip, fetched);
      if ok && s.from != l.state.from
      then Ledger(s, l.windows + [(O.WindowStart(O.WindowEnd(l.state.from, tip.value, chunk), chunk),
                                   O.WindowEnd(l.state.from, tip.value, chunk))])
      else Ledger(s, l.windows)
    case Restart => l.(state := Start(configFrom, l.state.records))
    case CrashIn(fetched, done, marked) =>
      var records := if fetched.Some? then Crashed(l.state.records, fetched.value, done, marked) else l.state.records;
      l.(state := Start(configFrom, records))
  }

  ghost predicate IsRun(chain: set<GasPayment>, configFrom: u32, chunk: u32, ls: seq<Ledger>, es: seq<Event>) {
    && |ls| == |es| + 1
    && ls[0] == Ledger(Start(configFrom, NO_RECORDS), [])
    && forall i :: 0 <= i < |es| ==>
         Legal(chain, ls[i].state, es[i]) && ls[i + 1] == Apply(configFrom, chunk, ls[i], es[i])
  }

  function Fetched(es: seq<Event>): set<GasPayment> {
    if |es| == 0 then {}
    else
      var e := es[|es| - 1];
      Fetched(es[..|es| - 1]) + (if !e.Restart? && e.fetched.Some? then Elements(e.fetched.value) else {})
  }

  /** The event ran to its end: no crash, and no total beyond 256 bits. */
  ghost predicate Clean(l: Ledger, chunk: u32, e: Event) {
    !e.CrashIn? && (e.Iterate? && e.fetched.Some? ==> Step(l.state, chunk, e.tip, e.fetched).1)
  }

  /** The books after an event that fetched `ps`, with at most `lost` more payments missing from the totals. */
  ghost predicate Extended(rs: Records, ps: set<GasPayment>, seen: set<GasPayment>, counted: set<GasPayment>,
                           seen': set<GasPayment>, counted': set<GasPayment>, lost: nat) {
    && Books(rs, seen', counted') && seen <= seen' <= seen + ps
    && Missed(seen', counted') <= Missed(seen, counted) + lost
  }

  lemma MarkKeepsTotals(rs: Records, p: GasPayment)
    ensures forall i: u32 :: GasAt(WithPaid(rs, p), i) == GasAt(rs, i)
  {
  }

  lemma MarkedButNotAdded(rs: Records, p: GasPayment, seen: set<GasPayment>, counted: set<GasPayment>)
    requires Books(rs, seen, counted) && Consistent(seen + {p}) && p.meta !in rs.paid
    ensures Books(WithPaid(rs, p), seen + {p}, counted)
    ensures Missed(seen + {p}, counted) == Missed(seen, counted) + 1
  {
    assert p !in seen;
    MarkKeepsBooks(rs, p, seen, WithPaid(rs, p));
    MarkKeepsTotals(rs, p);
    NewlySeen(seen, counted, p);
  }

  lemma PartOf(ps: seq<GasPayment>, done: nat)
    requires done <= |ps|
    ensures Elements(ps[..done]) <= Elements(ps)
    ensures done < |ps| ==> ps[done] in Elements(ps)
  {
  }

  /** The crash comes after the mark of a payment that was not marked before. */
  lemma MarkMaybe(rs: Records, p: GasPayment, seen: set<GasPayment>, counted: set<GasPayment>)
    returns (seen': set<GasPayment>)
    requires Books(rs, seen, counted) && Consistent(seen + {p})
    ensures Books(Marked(rs, p), seen', counted) && Marked(rs, p).gasBlock == rs.gasBlock
    ensures seen <= seen' <= seen + {p} && Missed(seen', counted) <= Missed(seen, counted) + 1
  {
    seen' := seen;
    if p.meta !in rs.paid {
      MarkedButNotAdded(rs, p, seen, counted);
      seen' := seen + {p};
    }
  }

  lemma BookedIsExtended(rs: Records, part: set<GasPayment>, all: set<GasPayment>, seen: set<GasPayment>,
                         counted: set<GasPayment>,
                         rs': Records, ok: bool, seen': set<GasPayment>, counted': set<GasPayment>)
    requires part <= all && Booked(rs, part, seen, counted, rs', ok, seen', counted')
    ensures Extended(rs', all, seen, counted, seen', counted', if ok then 0 else 1)
  {
  }

  lemma ThenMarked(rs: Records, p: GasPayment, all: set<GasPayment>, seen: set<GasPayment>, counted: set<GasPayment>,
                   seen1: set<GasPayment>, counted1: set<GasPayment>)
    returns (seen': set<GasPayment>)
    requires Extended(rs, all, seen, counted, seen1, counted1, 0) && p in all && Consistent(seen + all)
    ensures Extended(Marked(rs, p), all, seen, counted, seen', counted1, 1)
  {
    assert Consistent(seen1 + {p});
    seen' := MarkMaybe(rs, p, seen1, counted1);
  }

  lemma CrashKeepsBooks(rs: Records, ps: seq<GasPayment>, done: nat, marked: bool, seen: set<GasPayment>,
                        counted: set<GasPayment>)
    returns (seen': set<GasPayment>, counted': set<GasPayment>)
    requires Books(rs, seen, counted) && Consistent(seen + Elements(ps)) && done <= |ps|
    ensures Extended(Crashed(rs, ps, done, marked), Elements(ps), seen, counted, seen', counted', 1)
  {
    PartOf(ps, done);
    var (before, ok) := ProcessAll(rs, ps[..done]);
    seen', counted' := BatchIsBooked(rs, ps[..done], seen, counted);
    BookedIsExtended(rs, Elements(ps[..done]), Elements(ps), seen, counted, before, ok, seen', counted');
    if ok && marked && done < |ps| {
      seen' := ThenMarked(before, ps[done], Elements(ps), seen, counted, seen', counted');
    }
  }

  lemma IterationKeepsBooks(chunk: u32, s: SyncState, tip: u32, ps: seq<GasPayment>,
                            seen: set<GasPayment>, counted: set<GasPayment>)
    returns (seen': set<GasPayment>, counted': set<GasPayment>)
    requires Books(s.records, seen, counted) && Consistent(seen + Elements(ps)) && s.from < tip
    ensures var (s', ok) := Step(s, chunk, Some(tip), Some(ps));
            && Extended(s'.records, Elements(ps), seen, counted, seen', counted', if ok then 0 else 1)
            && (ok && counted == seen ==> counted' == seen' == seen + Elements(ps))
  {
    seen', counted' := BatchIsBooked(s.records, ps, seen, counted);
    var records := ProcessAll(s.records, ps).0;
    CursorKeepsBooks(records, O.WindowEnd(s.from, tip, chunk), seen', counted');
  }

  lemma CursorKeepsBooks(rs: Records, to: u32, seen: set<GasPayment>, counted: set<GasPayment>)
    requires Books(rs, seen, counted)
    ensures Books(rs.(gasBlock := Some(to)), seen, counted)
  {
  }

  lemma QuietKeepsBooks(configFrom: u32, chunk: u32, l: Ledger, e: Event)
    requires e.Restart? || e.fetched.None?
    ensures Apply(configFrom, chunk, l, e).state.records == l.state.records
    ensures Fetched([e]) == {}
  {
    assert Fetched([e][..0]) == {};
  }

  lemma FetchedOnce(e: Event)
    requires !e.Restart? && e.fetched.Some?
    ensures Fetched([e]) == Elements(e.fetched.value)
  {
    assert Fetched([e][..0]) == {};
  }

  lemma EventKeepsBooks(chain: set<GasPayment>, configFrom: u32, chunk: u32, l: Ledger, e: Event,
                        seen: set<GasPayment>, counted: set<GasPayment>)
    returns (seen': set<GasPayment>, counted': set<GasPayment>)
    requires Consistent(chain) && Legal(chain, l.state, e) && Books(l.state.records, seen, counted) && seen <= chain
    ensures Extended(Apply(configFrom, chunk, l, e).state.records, Fetched([e]), seen, counted, seen', counted',
                     if Clean(l, chunk, e) then 0 else 1)
    ensures seen' <= chain
    ensures Clean(l, chunk, e) && counted == seen ==> counted' == seen' == seen + Fetched([e])
  {
    if e.Restart? || e.fetched.None? {
      QuietKeepsBooks(configFrom, chunk, l, e);
      return seen, counted;
    }
    var ps := e.fetched.value;
    FetchedOnce(e);
    assert Consistent(seen + Elements(ps));
    if e.CrashIn? {
      seen', counted' := CrashKeepsBooks(l.state.records, ps, e.done, e.marked, seen, counted);
    } else {
      seen', counted' := IterationKeepsBooks(chunk, l.state, e.tip.value, ps, seen, counted);
    }
  }

  /** How many events of a run crashed, or took a total past 256 bits. */
  ghost function Mishaps(chunk: u32, ls: seq<Ledger>, es: seq<Event>): nat
    requires |ls| == |es| + 1
  {
    if |es| == 0 then 0
    else
      var n := |es| - 1;
      Mishaps(chunk, ls[..n + 1], es[..n]) + (if Clean(ls[n], chunk, es[n]) then 0 else 1)
  }

  /**
   * Conservation over whole runs: the total of every leaf is the sum over the distinct payments
   * counted; with clean events only, that is every payment fetched, in whatever windows and order;
   * with crashes it is never more, and falls short by one payment for each mishap at most.
   */
  lemma {:induction false} TotalsAreConserved(chain: set<GasPayment>, configFrom: u32, chunk: u32, ls: seq<Ledger>,
                                              es: seq<Event>)
    returns (seen: set<GasPayment>, counted: set<GasPayment>)
    requires Consistent(chain) && IsRun(chain, configFrom, chunk, ls, es)
    ensures Books(ls[|es|].state.records, seen, counted) && seen <= Fetched(es) && seen <= chain
    ensures (forall i :: 0 <= i < |es| ==> Clean(ls[i], chunk, es[i])) ==> counted == seen == Fetched(es)
    ensures forall i: u32 :: GasAt(ls[|es|].state.records, i) <= SumFor(Fetched(es), i)
    ensures Missed(seen, counted) <= Mishaps(chunk, ls, es)
  {
    if |es| == 0 {
      seen, counted := {}, {};
      EmptyBooks();
    } else {
      var n := |es| - 1;
      seen, counted := TotalsAreConserved(chain, configFrom, chunk, ls[..n + 1], es[..n]);
      seen, counted := EventKeepsBooks(chain, configFrom, chunk, ls[n], es[n], seen, counted);
      FetchedSnoc(es);
    }
    NeverTooMuch(ls[|es|].state.records, seen, counted, Fetched(es));
  }

  lemma FetchedSnoc(es: seq<Event>)
    requires |es| > 0
    ensures Fetched(es) == Fetched(es[..|es| - 1]) + Fetched([es[|es| - 1]])
  {
    assert Fetched([es[|es| - 1]][..0]) == {};
  }

  lemma NeverTooMuch(rs: Records, seen: set<GasPayment>, counted: set<GasPayment>, all: set<GasPayment>)
    requires Books(rs, seen, counted) && seen <= all
    ensures forall i: u32 :: GasAt(rs, i) <= SumFor(all, i)
  {
    forall i: u32 ensures GasAt(rs, i) <= SumFor(all, i) {
      SumMonotone(counted, all, i);
    }
  }

  // No block is left out

  ghost predicate Covered(windows: seq<(nat, nat)>, b: nat) {
    exists w :: w in windows && w.0 <= b <= w.1
  }

  /** Every block from the configured start up to the position, and up to the stored cursor, was in a window. */
  ghost predicate NothingSkipped(configFrom: u32, l: Ledger) {
    && (forall b: nat :: configFrom <= b < l.state.from ==> Covered(l.windows, b))
    && (l.state.records.gasBlock.Some? ==>
          forall b: nat :: configFrom <= b <= l.state.records.gasBlock.value ==> Covered(l.windows, b))
  }

  lemma MoreWindows(windows: seq<(nat, nat)>, w: (nat, nat))
    ensures forall b: nat :: Covered(windows, b) || w.0 <= b <= w.1 ==> Covered(windows + [w], b)
  {
    forall b: nat | Covered(windows, b) || w.0 <= b <= w.1 ensures Covered(windows + [w], b) {
      if Covered(windows, b) {
        var v :| v in windows && v.0 <= b <= v.1;
        assert v in windows + [w];
      } else {
        assert w in windows + [w];
      }
    }
  }

  lemma {:induction false} BatchKeepsCursor(rs: Records, ps: seq<GasPayment>)
    ensures ProcessAll(rs, ps).0.gasBlock == rs.gasBlock
  {
    if |ps| > 0 {
      BatchKeepsCursor(rs, ps[..|ps| - 1]);
    }
  }

  lemma CrashKeepsCursor(rs: Records, ps: seq<GasPayment>, done: nat, marked: bool)
    requires done <= |ps|
    ensures Crashed(rs, ps, done, marked).gasBlock == rs.gasBlock
  {
    BatchKeepsCursor(rs, ps[..done]);
  }

  lemma EventSkipsNothing(configFrom: u32, chunk: u32, l: Ledger, e: Event, chain: set<GasPayment>)
    requires NothingSkipped(configFrom, l) && Legal(chain, l.state, e)
    ensures NothingSkipped(configFrom, Apply(configFrom, chunk, l, e))
  {
    if !e.Restart? && e.fetched.Some? {
      if e.CrashIn? {
        CrashKeepsCursor(l.state.records, e.fetched.value, e.done, e.marked);
      } else {
        BatchKeepsCursor(l.state.records, e.fetched.value);
        var to := O.WindowEnd(l.state.from, e.tip.value, chunk);
        MoreWindows(l.windows, (O.WindowStart(to, chunk), to));
      }
    }
  }

  /** Over whole runs, restarts and crashes included, the completed windows leave no gap. */
  lemma {:induction false} NoBlockIsSkipped(chain: set<GasPayment>, configFrom: u32, chunk: u32, ls: seq<Ledger>,
                                            es: seq<Event>)
    requires IsRun(chain, configFrom, chunk, ls, es)
    ensures NothingSkipped(configFrom, ls[|es|])
  {
    if |es| > 0 {
      var n := |es| - 1;
      NoBlockIsSkipped(chain, configFrom, chunk, ls[..n + 1], es[..n]);
      EventSkipsNothing(configFrom, chunk, ls[n], es[n], chain);
    }
  }

  // No payment is missed

  /** The provider answers with every payment in the window it was asked for. */
  ghost predicate Complete(chain: set<GasPayment>, blockOf: GasPayment -> u32, chunk: u32, s: SyncState, e: Event) {
    e.Iterate? && e.tip.Some? && e.fetched.Some? ==>
      var to := O.WindowEnd(s.from, e.tip.value, chunk);
      forall p :: p in chain && O.WindowStart(to, chunk) <= blockOf(p) <= to ==> p in e.fetched.value
  }

  /** Every payment in a completed window is marked as processed. */
  ghost predicate WindowsProcessed(chain: set<GasPayment>, blockOf: GasPayment -> u32, l: Ledger) {
    forall p, w :: p in chain && w in l.windows && w.0 <= blockOf(p) <= w.1 ==> p.meta in l.state.records.paid
  }

  lemma {:induction false} BatchMarks(rs: Records, ps: seq<GasPayment>)
    ensures rs.paid <= ProcessAll(rs, ps).0.paid
    ensures ProcessAll(rs, ps).1 ==> forall p :: p in ps ==> p.meta in ProcessAll(rs, ps).0.paid
  {
    if |ps| > 0 {
      BatchMarks(rs, ps[..|ps| - 1]);
    }
  }

  lemma EventProcessesWindows(chain: set<GasPayment>, blockOf: GasPayment -> u32, configFrom: u32, chunk: u32,
                              l: Ledger, e: Event)
    requires Legal(chain, l.state, e) && Complete(chain, blockOf, chunk, l.state, e)
    requires WindowsProcessed(chain, blockOf, l)
    ensures WindowsProcessed(chain, blockOf, Apply(configFrom, chunk, l, e))
  {
    if !e.Restart? && e.fetched.Some? {
      if e.CrashIn? {
        BatchMarks(l.state.records, e.fetched.value[..e.done]);
      } else {
        BatchMarks(l.state.records, e.fetched.value);
      }
    }
  }

  lemma {:induction false} RunProcessesWindows(chain: set<GasPayment>, blockOf: GasPayment -> u32, configFrom: u32,
                                               chunk: u32,
                                               ls: seq<Ledger>, es: seq<Event>)
    requires IsRun(chain, configFrom, chunk, ls, es)
    requires forall i :: 0 <= i < |es| ==> Complete(chain, blockOf, chunk, ls[i].state, es[i])
    ensures WindowsProcessed(chain, blockOf, ls[|es|])
  {
    if |es| > 0 {
      var n := |es| - 1;
      RunProcessesWindows(chain, blockOf, configFrom, chunk, ls[..n + 1], es[..n]);
      EventProcessesWindows(chain, blockOf, configFrom, chunk, ls[n], es[n]);
    }
  }

  /**
   * With a provider that answers completely, every payment in a block from the configured start up
   * to the position is marked, after any restarts and crashes; and if nothing crashed or overflowed,
   * every total is at least the sum of those payments.
   */
  lemma NoPaymentIsMissed(chain: set<GasPayment>, blockOf: GasPayment -> u32, configFrom: u32, chunk: u32,
                          ls: seq<Ledger>, es: seq<Event>, some: set<GasPayment>)
    requires Consistent(chain) && IsRun(chain, configFrom, chunk, ls, es)
    requires forall i :: 0 <= i < |es| ==> Complete(chain, blockOf, chunk, ls[i].state, es[i])
    requires some <= chain && forall p :: p in some ==> configFrom <= blockOf(p) < ls[|es|].state.from
    ensures forall p :: p in some ==> p.meta in ls[|es|].state.records.paid
    ensures (forall i :: 0 <= i < |es| ==> Clean(ls[i], chunk, es[i])) ==>
      forall i: u32 :: SumFor(some, i) <= GasAt(ls[|es|].state.records, i)
  {
    RunProcessesWindows(chain, blockOf, configFrom, chunk, ls, es);
    NoBlockIsSkipped(chain, configFrom, chunk, ls, es);
    var seen, counted := TotalsAreConserved(chain, configFrom, chunk, ls, es);
    forall p | p in some ensures p.meta in ls[|es|].state.records.paid && p in seen {
      assert Covered(ls[|es|].windows, blockOf(p));
      var w :| w in ls[|es|].windows && w.0 <= blockOf(p) <= w.1;
      var q :| q in seen && q.meta == p.meta;
    }
    forall i: u32 ensures SumFor(some, i) <= SumFor(seen, i) {
      SumMonotone(some, seen, i);
    }
  }
}
