/**
 The expired-session sweep of `auth/session-sweep.js`.

 Several processes share one table. A sweep run reads its own clock, selects up to a batch of
 expired ids, and later deletes those ids that are still expired; nothing is locked in
 between. A failure may come before the delete has changed anything, or after it committed,
 when only its reply is lost. `Do` is one atomic step of the whole system, and a `Trace` is any
 interleaving.
 */
module SessionSweep {

  type Id = nat
  type Process = nat

  datatype Phase =
    | Started
    | Selected(ids: set<Id>)
    | Finished(removed: nat, reported: nat)

  /** One call of `sweepExpiredSessions`; `now` is what its process's clock read. */
  datatype Run = Run(process: Process, now: int, phase: Phase)

  /** Which run removed a row, and what was true of the row at that moment. */
  datatype Removal = Removal(run: nat, expiry: int, at: int)

  datatype State = State(
    clock: int,                    // the true time
    table: map<Id, int>,           // session id to expiresAt
    runs: seq<Run>,
    inFlight: map<Process, nat>,   // the run each process has going, if any
    swept: map<Id, Removal>,       // rows removed by sweeps
    signedOut: set<Id>)            // rows removed by anything else

  datatype Action =
    | Tick(time: int)
    | Insert(id: Id, expiry: int)
    | Renew(id: Id, expiry: int)
    | SignOut(id: Id)
    | Begin(process: Process, reading: int)
    | Select(run: nat, ids: set<Id>)
    | Delete(run: nat)
    | Lose(run: nat)               // the delete commits and its reply is lost
    | Fail(run: nat)

  /** The rows a query with `expiresAt < now` sees. */
  function Expired(table: map<Id, int>, now: int): set<Id> {
    set id | id in table && table[id] < now
  }

  function Least(x: nat, y: nat): (m: nat)
    ensures m <= x && m <= y && (m == x || m == y)
  {
    if x < y then x else y
  }

  /** Every row that ever existed: session ids are never reused. */
  function Used(s: State): set<Id> {
    s.table.Keys + s.swept.Keys + s.signedOut
  }

  predicate Enabled(batch: nat, s: State, a: Action) {
    match a
    case Tick(time) => s.clock <= time
    case Insert(id, _) => id !in Used(s)
    case Renew(id, _) => id in s.table
    case SignOut(id) => id in s.table
    case Begin(_, _) => true
    case Select(r, ids) =>
      && r < |s.runs| && s.runs[r].phase.Started?
      && ids <= Expired(s.table, s.runs[r].now)
      && |ids| == Least(batch, |Expired(s.table, s.runs[r].now)|)
    case Delete(r) => r < |s.runs| && s.runs[r].phase.Selected?
    case Lose(r) => r < |s.runs| && s.runs[r].phase.Selected?
    case Fail(r) => r < |s.runs| && !s.runs[r].phase.Finished?
  }

  /** A run that is over: its promise resolves and its process may start another. */
  function Finish(s: State, r: nat, removed: nat, reported: nat): State
    requires r < |s.runs|
  {
    s.(runs := s.runs[r := s.runs[r].(phase := Finished(removed, reported))],
       inFlight := s.inFlight - {s.runs[r].process})
  }

  /** The rows the delete of run `r` removes: its ids that are still there and still expired. */
  function Doomed(s: State, r: nat): set<Id>
    requires r < |s.runs| && s.runs[r].phase.Selected?
  {
    s.runs[r].phase.ids * Expired(s.table, s.runs[r].now)
  }

  /** The table and the ledger after the delete of run `r`, before its promise resolves. */
  function Emptied(s: State, r: nat): State
    requires r < |s.runs| && s.runs[r].phase.Selected?
  {
    var gone := Doomed(s, r);
    s.(table := s.table - gone,
       swept := s.swept + map id | id in gone :: Removal(r, s.table[id], s.clock))
  }

  function Do(batch: nat, s: State, a: Action): State
    requires Enabled(batch, s, a)
  {
    match a
    case Tick(time) => s.(clock := time)
    case Insert(id, expiry) => s.(table := s.table[id := expiry])
    case Renew(id, expiry) => s.(table := s.table[id := expiry])
    case SignOut(id) => s.(table := s.table - {id}, signedOut := s.signedOut + {id})
    case Begin(process, reading) =>
      if process in s.inFlight then s
      else s.(runs := s.runs + [Run(process, reading, Started)],
              inFlight := s.inFlight[process := |s.runs|])
    case Select(r, ids) =>
      if ids == {} then Finish(s, r, 0, 0)
      else s.(runs := s.runs[r := s.runs[r].(phase := Selected(ids))])
    case Delete(r) => Finish(Emptied(s, r), r, |Doomed(s, r)|, |Doomed(s, r)|)
    case Lose(r) => Finish(Emptied(s, r), r, |Doomed(s, r)|, 0)
    case Fail(r) => Finish(s, r, 0, 0)
  }

  // ----- invariant -----

  /** The rows that run `r` removed. */
  function RemovedBy(s: State, r: nat): set<Id> {
    set id | id in s.swept && s.swept[id].run == r
  }

  /** What a run told its caller. */
  function Count(run: Run): nat {
    if run.phase.Finished? then run.phase.reported else 0
  }

  /** What it did to the table. */
  function Took(run: Run): nat {
    if run.phase.Finished? then run.phase.removed else 0
  }

  function Total(runs: seq<Run>): nat {
    if runs == [] then 0 else Total(runs[..|runs| - 1]) + Count(runs[|runs| - 1])
  }

  function TotalTook(runs: seq<Run>): nat {
    if runs == [] then 0 else TotalTook(runs[..|runs| - 1]) + Took(runs[|runs| - 1])
  }

  /** Rows are somewhere: in the table, swept once, or signed out, and never in two places. */
  ghost predicate Accounted(s: State) {
    && s.table.Keys !! s.swept.Keys && s.table.Keys !! s.signedOut && s.swept.Keys !! s.signedOut
    && (forall id :: id in s.swept ==>
          && s.swept[id].run < |s.runs|
          && s.swept[id].expiry < s.runs[s.swept[id].run].now
          && s.swept[id].at <= s.clock)
  }

  /** The state of one run, and the guard that keeps it the only one of its process. */
  ghost predicate RunOk(batch: nat, s: State, r: nat)
    requires r < |s.runs|
  {
    var run := s.runs[r];
    && (run.phase.Selected? ==> run.phase.ids <= Used(s) && |run.phase.ids| <= batch)
    && Took(run) <= batch
    && Took(run) == |RemovedBy(s, r)|
    && (Count(run) == Took(run) || Count(run) == 0)
    && (!run.phase.Finished? <==> run.process in s.inFlight && s.inFlight[run.process] == r)
  }

  ghost predicate Inv(batch: nat, s: State) {
    && Accounted(s)
    && (forall r :: 0 <= r < |s.runs| ==> RunOk(batch, s, r))
    && Guarded(s)
    && TotalTook(s.runs) == |s.swept|
  }

  /** What is in flight for a process is a run of that process. */
  ghost predicate Guarded(s: State) {
    forall p :: p in s.inFlight ==> s.inFlight[p] < |s.runs| && s.runs[s.inFlight[p]].process == p
  }

  ghost predicate Init(s: State) {
    s.runs == [] && s.inFlight == map[] && s.swept == map[] && s.signedOut == {}
  }

  // ----- every step keeps it -----

  lemma {:induction false} TotalUpdate(runs: seq<Run>, r: nat, run: Run)
    requires r < |runs|
    ensures TotalTook(runs[r := run]) + Took(runs[r]) == TotalTook(runs) + Took(run)
    decreases |runs|
  {
    var n := |runs| - 1;
    if r == n {
      assert runs[r := run][..n] == runs[..n];
    } else {
      assert runs[r := run][..n] == runs[..n][r := run];
      TotalUpdate(runs[..n], r, run);
    }
  }

  lemma SubsetSize<T>(a: set<T>, b: set<T>)
    requires a <= b
    ensures |a| <= |b|
  {
    if a != {} {
      var x :| x in a;
      SubsetSize(a - {x}, b - {x});
    }
  }

  lemma MapSize<K, V>(m: map<K, V>, n: map<K, V>)
    requires m.Keys !! n.Keys
    ensures |m + n| == |m| + |n|
  {
    assert (m + n).Keys == m.Keys + n.Keys;
    assert |m.Keys + n.Keys| == |m.Keys| + |n.Keys|;
  }

  /** What a run is allowed depends on itself, its rows, its guard and the rows that ever existed. */
  lemma RunOkSame(batch: nat, s: State, s': State, r: nat)
    requires r < |s.runs| && r < |s'.runs| && RunOk(batch, s, r)
    requires s'.runs[r] == s.runs[r] && s'.swept == s.swept && Used(s) <= Used(s')
    requires var p := s.runs[r].process;
             (p in s'.inFlight && s'.inFlight[p] == r) <==> (p in s.inFlight && s.inFlight[p] == r)
    ensures RunOk(batch, s', r)
  {
    hide Used, Took, Count;
    assert RemovedBy(s', r) == RemovedBy(s, r);
  }

  /** Anything that leaves runs, guard and removals alone keeps the invariant if rows stay accounted for. */
  lemma OthersKeepInv(batch: nat, s: State, s': State)
    requires Inv(batch, s) && Accounted(s') && s.clock <= s'.clock
    requires s'.runs == s.runs && s'.inFlight == s.inFlight && s'.swept == s.swept && Used(s) <= Used(s')
    ensures Inv(batch, s')
  {
    hide RunOk, Used, Accounted, TotalTook;
    forall r | 0 <= r < |s'.runs| ensures RunOk(batch, s', r) {
      RunOkSame(batch, s, s', r);
    }
  }

  lemma BeginKeepsInv(batch: nat, s: State, p: Process, reading: int)
    requires Inv(batch, s)
    ensures Inv(batch, Do(batch, s, Begin(p, reading)))
  {
    hide RunOk, TotalTook, RemovedBy, Used, Accounted, Guarded;
    var s' := Do(batch, s, Begin(p, reading));
    if p !in s.inFlight {
      assert s'.runs[..|s.runs|] == s.runs;
      forall r | 0 <= r < |s.runs| ensures RunOk(batch, s', r) {
        BegunOthers(batch, s, s', p, r);
      }
      BegunIsOk(batch, s, s', p);
      BegunTotal(s.runs, s'.runs);
      BegunAccounted(s, s');
      BegunGuarded(s, s', p);
    }
  }

  lemma BegunGuarded(s: State, s': State, p: Process)
    requires Guarded(s) && |s'.runs| == |s.runs| + 1 && s'.runs[..|s.runs|] == s.runs
    requires s'.runs[|s.runs|].process == p && s'.inFlight == s.inFlight[p := |s.runs|]
    ensures Guarded(s')
  {
    forall q | q in s'.inFlight ensures s'.inFlight[q] < |s'.runs| && s'.runs[s'.inFlight[q]].process == q {
      if q != p { assert s'.runs[s'.inFlight[q]] == s.runs[s.inFlight[q]]; }
    }
  }

  lemma BegunOthers(batch: nat, s: State, s': State, p: Process, r: nat)
    requires r < |s.runs| && RunOk(batch, s, r) && p !in s.inFlight
    requires |s'.runs| == |s.runs| + 1 && s'.runs[..|s.runs|] == s.runs && s'.inFlight == s.inFlight[p := |s.runs|]
    requires s'.table == s.table && s'.swept == s.swept && s'.signedOut == s.signedOut
    ensures RunOk(batch, s', r)
  {
    hide RunOk, RemovedBy;
    assert s'.runs[r] == s.runs[r];
    RunOkSame(batch, s, s', r);
  }

  lemma BegunIsOk(batch: nat, s: State, s': State, p: Process)
    requires Accounted(s) && |s'.runs| == |s.runs| + 1 && s'.swept == s.swept
    requires s'.runs[|s.runs|].process == p && s'.runs[|s.runs|].phase == Started && s'.inFlight == s.inFlight[p := |s.runs|]
    ensures RunOk(batch, s', |s.runs|)
  {
    assert RemovedBy(s', |s.runs|) == {};
  }

  lemma {:induction false} BegunTotal(runs: seq<Run>, runs': seq<Run>)
    requires |runs'| == |runs| + 1 && runs'[..|runs|] == runs && runs'[|runs|].phase == Started
    ensures TotalTook(runs') == TotalTook(runs)
  {
  }

  lemma BegunAccounted(s: State, s': State)
    requires Accounted(s) && |s'.runs| == |s.runs| + 1 && s'.runs[..|s.runs|] == s.runs && s'.clock == s.clock
    requires s'.table == s.table && s'.swept == s.swept && s'.signedOut == s.signedOut
    ensures Accounted(s')
  {
    forall id | id in s'.swept ensures s'.swept[id].expiry < s'.runs[s'.swept[id].run].now {
      assert s'.runs[s'.swept[id].run] == s.runs[s'.swept[id].run];
    }
  }

  /** A finished run is in order when its counts are. */
  lemma FinishedIsOk(batch: nat, s: State, r: nat)
    requires r < |s.runs| && s.runs[r].phase.Finished? && Took(s.runs[r]) == |RemovedBy(s, r)| <= batch
    requires Count(s.runs[r]) == Took(s.runs[r]) || Count(s.runs[r]) == 0
    requires s.runs[r].process !in s.inFlight
    ensures RunOk(batch, s, r)
  {
  }

  /** Finishing a run, with the count it removed or with none. */
  lemma FinishKeepsInv(batch: nat, s: State, r: nat, count: nat, reported: nat)
    requires Accounted(s) && (reported == count || reported == 0)
    requires r < |s.runs| && !s.runs[r].phase.Finished?
    requires forall k :: 0 <= k < |s.runs| && k != r ==> RunOk(batch, s, k)
    requires s.runs[r].process in s.inFlight && s.inFlight[s.runs[r].process] == r
    requires Guarded(s)
    requires count == |RemovedBy(s, r)| <= batch && TotalTook(s.runs) + count == |s.swept|
    ensures Inv(batch, Finish(s, r, count, reported))
  {
    hide RunOk, TotalTook, RemovedBy, Accounted, Guarded, Used;
    var s' := Finish(s, r, count, reported);
    RemovedBySame(s, s', r);
    forall k | 0 <= k < |s'.runs| && k != r ensures RunOk(batch, s', k) {
      FinishOthers(batch, s, r, k, count, reported);
    }
    FinishedIsOk(batch, s', r);
    TotalUpdate(s.runs, r, s'.runs[r]);
    FinishAccounted(s, s', r);
    FinishGuarded(s, s', r);
  }

  lemma FinishOthers(batch: nat, s: State, r: nat, k: nat, count: nat, reported: nat)
    requires r < |s.runs| && k < |s.runs| && k != r && RunOk(batch, s, k)
    requires s.runs[r].process in s.inFlight && s.inFlight[s.runs[r].process] == r
    ensures RunOk(batch, Finish(s, r, count, reported), k)
  {
    hide RunOk, RemovedBy;
    RunOkSame(batch, s, Finish(s, r, count, reported), k);
  }

  /** Changing the phase of a run moves no row. */
  lemma FinishAccounted(s: State, s': State, r: nat)
    requires Accounted(s) && r < |s.runs| && s'.clock == s.clock
    requires s'.table == s.table && s'.swept == s.swept && s'.signedOut == s.signedOut
    requires |s'.runs| == |s.runs| && s'.runs[r].now == s.runs[r].now
    requires forall k :: 0 <= k < |s.runs| && k != r ==> s'.runs[k] == s.runs[k]
    ensures Accounted(s')
  {
  }

  lemma FinishGuarded(s: State, s': State, r: nat)
    requires Guarded(s) && r < |s.runs| && |s'.runs| == |s.runs| && s'.runs[r].process == s.runs[r].process
    requires forall k :: 0 <= k < |s.runs| && k != r ==> s'.runs[k] == s.runs[k]
    requires forall p :: p in s'.inFlight ==> p in s.inFlight && s'.inFlight[p] == s.inFlight[p]
    ensures Guarded(s')
  {
  }

  lemma RemovedBySame(s: State, s': State, r: nat)
    requires s'.swept == s.swept
    ensures RemovedBy(s', r) == RemovedBy(s, r)
  {
  }

  lemma UnfinishedParts(batch: nat, s: State, r: nat)
    requires r < |s.runs| && RunOk(batch, s, r) && !s.runs[r].phase.Finished?
    ensures RemovedBy(s, r) == {} && Took(s.runs[r]) == 0
    ensures s.runs[r].process in s.inFlight && s.inFlight[s.runs[r].process] == r
  {
  }

  lemma SelectKeepsInv(batch: nat, s: State, r: nat, ids: set<Id>)
    requires Inv(batch, s) && Enabled(batch, s, Select(r, ids))
    ensures Inv(batch, Do(batch, s, Select(r, ids)))
  {
    hide RunOk, TotalTook, RemovedBy, Accounted, Guarded;
    UnfinishedParts(batch, s, r);
    if ids == {} {
      FinishKeepsInv(batch, s, r, 0, 0);
    } else {
      var s' := Do(batch, s, Select(r, ids));
      forall k | 0 <= k < |s'.runs| ensures RunOk(batch, s', k) {
        if k != r { RunOkSame(batch, s, s', k); } else { SelectedIsOk(batch, s, s', r, ids); }
      }
      TotalUpdate(s.runs, r, s'.runs[r]);
      FinishAccounted(s, s', r);
      FinishGuarded(s, s', r);
    }
  }

  lemma SelectedIsOk(batch: nat, s: State, s': State, r: nat, ids: set<Id>)
    requires r < |s.runs| && RunOk(batch, s, r) && !s.runs[r].phase.Finished? && ids <= s.table.Keys && |ids| <= batch
    requires s' == s.(runs := s.runs[r := s.runs[r].(phase := Selected(ids))])
    ensures RunOk(batch, s', r)
  {
    assert RemovedBy(s', r) == RemovedBy(s, r);
  }

  lemma EmptiedKeys(s: State, r: nat)
    requires r < |s.runs| && s.runs[r].phase.Selected?
    ensures Emptied(s, r).table.Keys == s.table.Keys - Doomed(s, r)
    ensures Emptied(s, r).swept.Keys == s.swept.Keys + Doomed(s, r)
    ensures Doomed(s, r) <= s.table.Keys && Doomed(s, r) <= s.runs[r].phase.ids
    ensures Used(Emptied(s, r)) == Used(s)
    ensures Emptied(s, r).runs == s.runs && Emptied(s, r).clock == s.clock && Emptied(s, r).signedOut == s.signedOut
  {
  }

  lemma EmptiedEntry(batch: nat, s: State, r: nat, id: Id)
    requires Inv(batch, s) && r < |s.runs| && s.runs[r].phase.Selected? && id in Emptied(s, r).swept
    ensures var m := Emptied(s, r).swept[id]; m.run < |s.runs| && m.expiry < s.runs[m.run].now && m.at <= s.clock
  {
    assert RunOk(batch, s, r);
  }

  lemma EmptiedAccounted(batch: nat, s: State, r: nat)
    requires Inv(batch, s) && r < |s.runs| && s.runs[r].phase.Selected?
    ensures Accounted(Emptied(s, r)) && Used(Emptied(s, r)) == Used(s)
    ensures |Emptied(s, r).swept| == |s.swept| + |Doomed(s, r)|
    ensures |Doomed(s, r)| <= batch
  {
    hide Emptied, Doomed, Used, RunOk, TotalTook;
    var mid := Emptied(s, r);
    EmptiedKeys(s, r);
    forall id | id in mid.swept
      ensures mid.swept[id].run < |s.runs| && mid.swept[id].expiry < s.runs[mid.swept[id].run].now
      ensures mid.swept[id].at <= s.clock
    {
      EmptiedEntry(batch, s, r, id);
    }
    EmptiedSize(s, r);
    SubsetSize(Doomed(s, r), s.runs[r].phase.ids);
    SelectedSize(batch, s, r);
  }

  lemma SelectedSize(batch: nat, s: State, r: nat)
    requires Inv(batch, s) && r < |s.runs| && s.runs[r].phase.Selected?
    ensures |s.runs[r].phase.ids| <= batch
  {
    assert RunOk(batch, s, r);
  }

  lemma EmptiedSize(s: State, r: nat)
    requires r < |s.runs| && s.runs[r].phase.Selected? && s.table.Keys !! s.swept.Keys
    ensures |Emptied(s, r).swept| == |s.swept| + |Doomed(s, r)|
  {
    var gone := Doomed(s, r);
    var news := map id | id in gone :: Removal(r, s.table[id], s.clock);
    assert news.Keys == gone;
    MapSize(s.swept, news);
  }

  lemma EmptiedIs(s: State, r: nat, id: Id)
    requires r < |s.runs| && s.runs[r].phase.Selected?
    ensures id in Doomed(s, r) ==> id in Emptied(s, r).swept && Emptied(s, r).swept[id].run == r
    ensures id !in Doomed(s, r) ==> (id in Emptied(s, r).swept <==> id in s.swept)
    ensures id !in Doomed(s, r) && id in s.swept ==> Emptied(s, r).swept[id] == s.swept[id]
  {
  }

  lemma RemovedByIs(s: State, k: nat, id: Id)
    ensures id in RemovedBy(s, k) <==> id in s.swept && s.swept[id].run == k
  {
  }

  lemma EmptiedRemovals(batch: nat, s: State, r: nat, k: nat)
    requires Inv(batch, s) && r < |s.runs| && s.runs[r].phase.Selected? && k < |s.runs|
    ensures RemovedBy(Emptied(s, r), k) == if k == r then Doomed(s, r) else RemovedBy(s, k)
  {
    hide *;
    var want := if k == r then Doomed(s, r) else RemovedBy(s, k);
    NothingYet(batch, s, r);
    EmptiedKeys(s, r);
    DisjointLedger(batch, s);
    forall id ensures id in RemovedBy(Emptied(s, r), k) <==> id in want {
      EmptiedIs(s, r, id);
      RemovedByIs(Emptied(s, r), k, id);
      RemovedByIs(s, k, id);
    }
  }

  lemma DisjointLedger(batch: nat, s: State)
    requires Inv(batch, s)
    ensures s.table.Keys !! s.swept.Keys
  {
  }

  lemma NothingYet(batch: nat, s: State, r: nat)
    requires Inv(batch, s) && r < |s.runs| && s.runs[r].phase.Selected?
    ensures RemovedBy(s, r) == {}
  {
    assert RunOk(batch, s, r);
  }

  lemma DeleteKeepsInv(batch: nat, s: State, r: nat, reported: nat)
    requires Inv(batch, s) && Enabled(batch, s, Delete(r)) && (reported == |Doomed(s, r)| || reported == 0)
    ensures Inv(batch, Finish(Emptied(s, r), r, |Doomed(s, r)|, reported))
  {
    EmptiedParts(batch, s, r);
    hide *;
    var mid := Emptied(s, r);
    EmptiedAccounted(batch, s, r);
    EmptiedKeys(s, r);
    EmptiedRemovals(batch, s, r, r);
    forall k | 0 <= k < |s.runs| && k != r ensures RunOk(batch, mid, k) {
      EmptiedOthers(batch, s, r, k);
    }
    FinishKeepsInv(batch, mid, r, |Doomed(s, r)|, reported);
  }

  lemma EmptiedParts(batch: nat, s: State, r: nat)
    requires Inv(batch, s) && Enabled(batch, s, Delete(r))
    ensures r < |s.runs| && s.runs[r].phase.Selected? && Guarded(Emptied(s, r)) && TotalTook(s.runs) == |s.swept|
    ensures s.runs[r].process in Emptied(s, r).inFlight && Emptied(s, r).inFlight[s.runs[r].process] == r
  {
    hide RunOk, Doomed, RemovedBy, Accounted, TotalTook;
    UnfinishedParts(batch, s, r);
  }

  lemma EmptiedOthers(batch: nat, s: State, r: nat, k: nat)
    requires Inv(batch, s) && r < |s.runs| && s.runs[r].phase.Selected? && k < |s.runs| && k != r
    ensures Emptied(s, r).runs == s.runs && RunOk(batch, Emptied(s, r), k)
  {
    hide Doomed, RemovedBy, Accounted, TotalTook, Used;
    assert RunOk(batch, s, k);
    EmptiedRemovals(batch, s, r, k);
    EmptiedKeys(s, r);
  }

  lemma StepKeepsInv(batch: nat, s: State, a: Action)
    requires Inv(batch, s) && Enabled(batch, s, a)
    ensures Inv(batch, Do(batch, s, a))
  {
    hide Inv, Emptied, Doomed, Finish;
    match a
    case Begin(p, reading) => BeginKeepsInv(batch, s, p, reading);
    case Select(r, ids) => SelectKeepsInv(batch, s, r, ids);
    case Delete(r) => DeleteKeepsInv(batch, s, r, |Doomed(s, r)|);
    case Lose(r) => DeleteKeepsInv(batch, s, r, 0);
    case Fail(r) => FailKeepsInv(batch, s, r);
    case _ => RowsKeepInv(batch, s, a);
  }

  lemma FailKeepsInv(batch: nat, s: State, r: nat)
    requires Inv(batch, s) && Enabled(batch, s, Fail(r))
    ensures Inv(batch, Do(batch, s, Fail(r)))
  {
    hide RunOk, TotalTook, RemovedBy, Accounted, Guarded;
    UnfinishedParts(batch, s, r);
    FinishKeepsInv(batch, s, r, 0, 0);
  }

  /** Ticks, inserts, renewals and sign-outs. */
  lemma RowsKeepInv(batch: nat, s: State, a: Action)
    requires Inv(batch, s) && Enabled(batch, s, a) && (a.Tick? || a.Insert? || a.Renew? || a.SignOut?)
    ensures Inv(batch, Do(batch, s, a))
  {
    hide RunOk, TotalTook, Guarded, Accounted, Used;
    RowsAccounted(batch, s, a);
    OthersKeepInv(batch, s, Do(batch, s, a));
  }

  lemma RowsAccounted(batch: nat, s: State, a: Action)
    requires Accounted(s) && Enabled(batch, s, a) && (a.Tick? || a.Insert? || a.Renew? || a.SignOut?)
    ensures Accounted(Do(batch, s, a)) && Used(s) <= Used(Do(batch, s, a)) && s.clock <= Do(batch, s, a).clock
  {
  }

  // ----- every interleaving -----

  /** `states[k]` goes to `states[k + 1]` by `acts[k]`; any process may move at any time. */
  ghost predicate Trace(batch: nat, states: seq<State>, acts: seq<Action>) {
    && |states| == |acts| + 1
    && Init(states[0])
    && (forall k :: 0 <= k < |acts| ==>
          Enabled(batch, states[k], acts[k]) && states[k + 1] == Do(batch, states[k], acts[k]))
  }

  lemma {:induction false} TraceKeepsInv(batch: nat, states: seq<State>, acts: seq<Action>, k: nat)
    requires Trace(batch, states, acts) && k < |states|
    ensures Inv(batch, states[k])
    decreases k
  {
    if k > 0 {
      TraceKeepsInv(batch, states, acts, k - 1);
      StepKeepsInv(batch, states[k - 1], acts[k - 1]);
    }
  }

  /** A run that removed rows and told nobody. */
  predicate Mute(run: Run) {
    Count(run) != Took(run)
  }

  lemma {:induction false} ReportsAdd(runs: seq<Run>)
    requires forall r :: 0 <= r < |runs| ==> Count(runs[r]) <= Took(runs[r])
    ensures Total(runs) <= TotalTook(runs)
    ensures Total(runs) == TotalTook(runs) <==> forall r :: 0 <= r < |runs| ==> !Mute(runs[r])
  {
    if runs != [] {
      var n := |runs| - 1;
      ReportsAdd(runs[..n]);
      assert forall r :: 0 <= r < n ==> runs[..n][r] == runs[r];
    }
  }

  /**
   Safety and counting, at every point of every interleaving: a swept row was expired by the
   clock of the run that removed it, no run removed more than a batch, each run reports what it
   removed or nothing, and all reports together add up to the rows swept exactly when no run
   that removed rows was left without its reply.
   */
  lemma SweepIsSafe(batch: nat, states: seq<State>, acts: seq<Action>, k: nat)
    requires Trace(batch, states, acts) && k < |states|
    ensures var s := states[k];
            && (forall id :: id in s.swept ==>
                  s.swept[id].run < |s.runs| && s.swept[id].expiry < s.runs[s.swept[id].run].now && id !in s.table)
            && (forall r :: 0 <= r < |s.runs| ==> Count(s.runs[r]) <= |RemovedBy(s, r)| <= batch)
            && Total(s.runs) <= |s.swept|
            && (Total(s.runs) == |s.swept| <==> forall r :: 0 <= r < |s.runs| ==> !Mute(s.runs[r]))
  {
    TraceKeepsInv(batch, states, acts, k);
    var s := states[k];
    forall r | 0 <= r < |s.runs| ensures Count(s.runs[r]) <= |RemovedBy(s, r)| == Took(s.runs[r]) <= batch {
      assert RunOk(batch, s, r);
    }
    hide RunOk, RemovedBy, Init;
    ReportsAdd(s.runs);
  }

  /** A run is left without its reply exactly when a step lost it after rows were removed. */
  lemma {:induction false} MuteExactly(batch: nat, states: seq<State>, acts: seq<Action>, k: nat, r: nat)
    requires Trace(batch, states, acts) && k < |states| && r < |states[k].runs|
    ensures Mute(states[k].runs[r]) <==> exists i: nat :: LosesAt(states, acts, i, r) && i < k
    decreases k
  {
    TraceShape(batch, states, acts);
    hide Trace, Mute, LosesAt, Do, Enabled, Doomed;
    if k == 0 {
      NoRunsYet(batch, states, acts);
    } else {
      var s, a := states[k - 1], acts[k - 1];
      TraceStep(batch, states, acts, k - 1);
      if r < |s.runs| {
        MuteExactly(batch, states, acts, k - 1, r);
        MuteStep(batch, s, a, r);
        LosesIs(states, acts, k - 1, r);
        LoseEnabled(batch, s, a);
      } else {
        NewRunIsNotMute(batch, s, a, r);
        forall i: nat | LosesAt(states, acts, i, r) ensures i >= k {
          LosesIs(states, acts, i, r);
          if i < k { RunsStay(batch, states, acts, i, k - 1); }
        }
      }
    }
  }

  lemma NoRunsYet(batch: nat, states: seq<State>, acts: seq<Action>)
    requires Trace(batch, states, acts)
    ensures |states| > 0 && states[0].runs == []
  {
  }

  lemma TraceStep(batch: nat, states: seq<State>, acts: seq<Action>, k: nat)
    requires Trace(batch, states, acts) && k < |acts|
    ensures |states| == |acts| + 1 && Enabled(batch, states[k], acts[k]) && states[k + 1] == Do(batch, states[k], acts[k])
  {
    hide Enabled, Do, Init;
  }

  lemma LoseEnabled(batch: nat, s: State, a: Action)
    requires Enabled(batch, s, a)
    ensures a.Lose? ==> a.run < |s.runs| && s.runs[a.run].phase.Selected?
  {
  }

  lemma LosesIs(states: seq<State>, acts: seq<Action>, i: nat, r: nat)
    ensures LosesAt(states, acts, i, r) ==> i < |states| && r < |states[i].runs|
    ensures i < |acts| && i < |states| && r < |states[i].runs| && states[i].runs[r].phase.Selected? ==>
              (LosesAt(states, acts, i, r) <==> acts[i] == Lose(r) && Doomed(states[i], r) != {})
    ensures i < |acts| && acts[i] != Lose(r) ==> !LosesAt(states, acts, i, r)
  {
    hide Doomed;
  }

  /** A run that a step adds has only just started. */
  lemma NewRunIsNotMute(batch: nat, s: State, a: Action, r: nat)
    requires Enabled(batch, s, a) && |s.runs| <= r < |Do(batch, s, a).runs|
    ensures !Mute(Do(batch, s, a).runs[r])
  {
    hide Doomed, Expired, Used, Least;
  }

  /** A table with one row that expired at 5, and the one run of process 0, which read 10. */
  function OneRow(phase: Phase): State {
    State(10, map[1 := 5], [Run(0, 10, phase)], map[0 := 0], map[], {})
  }

  function OneGone(): State {
    State(10, map[], [Run(0, 10, Finished(1, 0))], map[], map[1 := Removal(0, 5, 10)], {})
  }

  lemma OneSelected()
    ensures Enabled(1, OneRow(Started), Select(0, {1}))
    ensures Do(1, OneRow(Started), Select(0, {1})) == OneRow(Selected({1}))
  {
    assert Expired(OneRow(Started).table, 10) == {1};
  }

  lemma OneLost()
    ensures Enabled(1, OneRow(Selected({1})), Lose(0))
    ensures Do(1, OneRow(Selected({1})), Lose(0)) == OneGone()
  {
    var s := OneRow(Selected({1}));
    assert Doomed(s, 0) == {1};
    assert Emptied(s, 0).table == map[];
    assert Emptied(s, 0).swept == map[1 := Removal(0, 5, 10)];
    assert s.inFlight - {0} == map[];
  }

  /** One row, one run, one reply lost: a row is gone and nobody reported it. */
  lemma LostReplyUncounted() returns (states: seq<State>, acts: seq<Action>)
    ensures Trace(1, states, acts) && |states| == |acts| + 1
    ensures |states[|acts|].swept| == 1 && Total(states[|acts|].runs) == 0
  {
    var s0 := State(10, map[], [], map[], map[], {});
    var s1 := State(10, map[1 := 5], [], map[], map[], {});
    assert Trace(1, [s0], []);
    assert Do(1, s0, Insert(1, 5)) == s1;
    assert Do(1, s1, Begin(0, 10)) == OneRow(Started);
    FirstSteps(s0, s1);
    OneSelected();
    OneLost();
    hide Do, Enabled, Trace;
    states, acts := Extend(1, [s0], [], Insert(1, 5), s1);
    states, acts := Extend(1, states, acts, Begin(0, 10), OneRow(Started));
    states, acts := Extend(1, states, acts, Select(0, {1}), OneRow(Selected({1})));
    states, acts := Extend(1, states, acts, Lose(0), OneGone());
    assert OneGone().runs[..0] == [];
  }

  lemma Extend(batch: nat, states: seq<State>, acts: seq<Action>, a: Action, s: State)
    returns (states': seq<State>, acts': seq<Action>)
    requires Trace(batch, states, acts) && |states| == |acts| + 1
    requires Enabled(batch, states[|acts|], a) && s == Do(batch, states[|acts|], a)
    ensures Trace(batch, states', acts') && |states'| == |acts'| + 1 && states'[|acts'|] == s
  {
    hide Do, Enabled, Init;
    states', acts' := states + [s], acts + [a];
  }

  lemma FirstSteps(s: State, s': State)
    requires 1 !in Used(s)
    ensures Enabled(1, s, Insert(1, 5)) && Enabled(1, s', Begin(0, 10))
  {
  }

  ghost predicate LosesAt(states: seq<State>, acts: seq<Action>, i: nat, r: nat) {
    && i < |acts| && i < |states| && acts[i] == Lose(r)
    && r < |states[i].runs| && states[i].runs[r].phase.Selected? && Doomed(states[i], r) != {}
  }

  lemma MuteStep(batch: nat, s: State, a: Action, r: nat)
    requires Enabled(batch, s, a) && r < |s.runs|
    ensures r < |Do(batch, s, a).runs|
    ensures Mute(Do(batch, s, a).runs[r]) <==> Mute(s.runs[r]) || (a == Lose(r) && Doomed(s, r) != {})
  {
    hide Doomed;
    if a == Lose(r) { SizeOfNone(Doomed(s, r)); }
  }

  lemma SizeOfNone<T>(a: set<T>)
    ensures |a| == 0 <==> a == {}
  {
  }

  lemma {:induction false} RunsStay(batch: nat, states: seq<State>, acts: seq<Action>, i: nat, k: nat)
    requires Trace(batch, states, acts) && i <= k < |states|
    ensures |states[i].runs| <= |states[k].runs|
    decreases k
  {
    if i < k {
      RunsStay(batch, states, acts, i, k - 1);
      assert states[k] == Do(batch, states[k - 1], acts[k - 1]);
    }
  }

  /** No process's clock ever reads more than `skew` ahead of the true time. */
  ghost predicate Punctual(states: seq<State>, acts: seq<Action>, skew: int)
    requires |states| == |acts| + 1
  {
    forall k :: 0 <= k < |acts| && acts[k].Begin? ==> acts[k].reading <= states[k].clock + skew
  }

  ghost predicate SkewOk(s: State, skew: int) {
    && (forall r :: 0 <= r < |s.runs| ==> s.runs[r].now <= s.clock + skew)
    && (forall id :: id in s.swept ==> s.swept[id].expiry < s.swept[id].at + skew)
  }

  lemma {:induction false} StaysPunctual(batch: nat, states: seq<State>, acts: seq<Action>, skew: int, k: nat)
    requires Trace(batch, states, acts) && Punctual(states, acts, skew) && k < |states|
    ensures SkewOk(states[k], skew)
    decreases k
  {
    if k > 0 {
      StaysPunctual(batch, states, acts, skew, k - 1);
      SkewStep(batch, states[k - 1], acts[k - 1], skew);
    }
  }

  lemma SkewStep(batch: nat, s: State, a: Action, skew: int)
    requires Enabled(batch, s, a) && SkewOk(s, skew) && (a.Begin? ==> a.reading <= s.clock + skew)
    ensures SkewOk(Do(batch, s, a), skew)
  {
    hide Emptied, Doomed, Expired, Used, Least, Finish, SkewOk;
    if a.Delete? || a.Lose? {
      EmptiedKeys(s, a.run);
      EmptiedSkew(s, a.run, skew);
      FinishSkew(Emptied(s, a.run), a.run, |Doomed(s, a.run)|, if a.Lose? then 0 else |Doomed(s, a.run)|, skew);
    } else if a.Fail? || (a.Select? && a.ids == {}) {
      FinishSkew(s, a.run, 0, 0, skew);
    } else {
      OtherSkew(batch, s, a, skew);
    }
  }

  lemma FinishSkew(s: State, r: nat, removed: nat, reported: nat, skew: int)
    requires r < |s.runs| && SkewOk(s, skew)
    ensures SkewOk(Finish(s, r, removed, reported), skew)
  {
  }

  lemma OtherSkew(batch: nat, s: State, a: Action, skew: int)
    requires Enabled(batch, s, a) && SkewOk(s, skew) && (a.Begin? ==> a.reading <= s.clock + skew)
    requires !a.Delete? && !a.Lose? && !a.Fail? && (a.Select? ==> a.ids != {})
    ensures SkewOk(Do(batch, s, a), skew)
  {
    hide Expired, Used, Least, Doomed, Emptied;
  }

  lemma EmptiedSkew(s: State, r: nat, skew: int)
    requires r < |s.runs| && s.runs[r].phase.Selected? && SkewOk(s, skew)
    ensures SkewOk(Emptied(s, r), skew)
  {
  }

  /** With clocks at most `skew` ahead, nothing is removed more than `skew` before it expires; with true clocks, only what is expired. */
  lemma RemovedOnlyWhenExpired(batch: nat, states: seq<State>, acts: seq<Action>, skew: int, k: nat, id: Id)
    requires Trace(batch, states, acts) && Punctual(states, acts, skew) && k < |states| && id in states[k].swept
    ensures states[k].swept[id].expiry < states[k].swept[id].at + skew
  {
    StaysPunctual(batch, states, acts, skew, k);
  }

  /** A delete takes only rows that are expired by its run's clock, and only rows still in the table. */
  lemma DeleteTakesExpired(batch: nat, states: seq<State>, acts: seq<Action>, k: nat, id: Id)
    requires Trace(batch, states, acts) && k < |acts| && (acts[k].Delete? || acts[k].Lose?)
    requires id in states[k].table && id !in states[k + 1].table
    ensures acts[k].run < |states[k].runs| && states[k].table[id] < states[k].runs[acts[k].run].now
    ensures id !in states[k].swept && id in states[k + 1].swept && states[k + 1].swept[id].run == acts[k].run
  {
    TraceKeepsInv(batch, states, acts, k);
    assert RunOk(batch, states[k], acts[k].run);
  }

  /** The in-flight guard: a process never has two unfinished runs. */
  lemma OneRunPerProcess(batch: nat, states: seq<State>, acts: seq<Action>, k: nat, r: nat, q: nat)
    requires Trace(batch, states, acts) && k < |states|
    requires r < |states[k].runs| && q < |states[k].runs|
    requires !states[k].runs[r].phase.Finished? && !states[k].runs[q].phase.Finished?
    requires states[k].runs[r].process == states[k].runs[q].process
    ensures r == q
  {
    TraceKeepsInv(batch, states, acts, k);
    assert RunOk(batch, states[k], r);
    assert RunOk(batch, states[k], q);
  }

  // ----- progress -----

  /** From step `i` to step `j` nobody renews a session that had expired by `now`. */
  ghost predicate NoRevival(states: seq<State>, acts: seq<Action>, i: nat, j: nat, now: int)
    requires |states| == |acts| + 1 && i <= j <= |acts|
  {
    forall k :: i <= k < j && acts[k].Renew? && acts[k].id in states[k].table ==>
      states[k].table[acts[k].id] >= now
  }

  /** Gone for good, or still there and expired for a run that read the clock at `now`. */
  predicate Dead(s: State, id: Id, now: int) {
    id in Used(s) && (id in s.table ==> s.table[id] < now)
  }

  lemma StepKeepsDead(batch: nat, s: State, a: Action, id: Id, now: int)
    requires Enabled(batch, s, a) && Dead(s, id, now)
    requires a.Renew? && a.id in s.table ==> s.table[a.id] >= now
    ensures Dead(Do(batch, s, a), id, now)
  {
    var s' := Do(batch, s, a);
    if a.Delete? || a.Lose? {
      assert id in s.table && id !in s'.table ==> id in s'.swept;
    }
  }

  lemma StepKeepsRun(batch: nat, s: State, a: Action, r: nat)
    requires Enabled(batch, s, a) && r < |s.runs|
    ensures r < |Do(batch, s, a).runs|
    ensures var run, run' := s.runs[r], Do(batch, s, a).runs[r];
            && run'.process == run.process && run'.now == run.now
            && (run.phase.Selected? ==> run' == run || run'.phase.Finished?)
            && (run.phase.Finished? ==> run' == run)
  {
    hide Emptied, Doomed, Expired, Used, Least, Finish;
    if a.Delete? || a.Lose? {
      EmptiedKeys(s, a.run);
      FinishKeepsRun(Emptied(s, a.run), a.run, |Doomed(s, a.run)|, if a.Lose? then 0 else |Doomed(s, a.run)|, r);
    } else if a.Select? || a.Fail? {
      FinishKeepsRun(s, a.run, 0, 0, r);
    }
  }

  lemma FinishKeepsRun(s: State, q: nat, removed: nat, reported: nat, r: nat)
    requires q < |s.runs| && r < |s.runs|
    ensures r < |Finish(s, q, removed, reported).runs|
    ensures var run, run' := s.runs[r], Finish(s, q, removed, reported).runs[r];
            run' == run || (r == q && run'.process == run.process && run'.now == run.now && run'.phase.Finished?)
  {
  }

  /** What a run selected stays selected, and dead, until it deletes. */
  lemma {:induction false} SelectionHolds(batch: nat, states: seq<State>, acts: seq<Action>, i: nat, k: nat, id: Id)
    requires Trace(batch, states, acts) && i < k <= |acts| && acts[i].Select? && id in acts[i].ids
    requires Enabled(batch, states[i], acts[i]) && NoRevival(states, acts, i, k, states[i].runs[acts[i].run].now)
    ensures var r, now := acts[i].run, states[i].runs[acts[i].run].now;
            && r < |states[k].runs| && states[k].runs[r].now == now
            && (states[k].runs[r].phase == Selected(acts[i].ids) || states[k].runs[r].phase.Finished?)
            && Dead(states[k], id, now)
    decreases k
  {
    var r, now := acts[i].run, states[i].runs[acts[i].run].now;
    TraceKeepsInv(batch, states, acts, i);
    if k == i + 1 {
      assert RunOk(batch, states[i], r);
    } else {
      SelectionHolds(batch, states, acts, i, k - 1, id);
      StepKeepsRun(batch, states[k - 1], acts[k - 1], r);
      StepKeepsDead(batch, states[k - 1], acts[k - 1], id, now);
    }
  }

  /**
   Progress, even when overlapping runs picked the same ids. If no session expired for the run is
   renewed, then by the time its delete commits (reply or no reply) every row it selected is
   gone, so at least one batch (or the whole backlog it saw, if smaller) has left the table.
   */
  lemma DeleteMakesProgress(batch: nat, states: seq<State>, acts: seq<Action>, i: nat, j: nat)
    requires Trace(batch, states, acts) && i < j < |acts| && acts[i].Select? && Enabled(batch, states[i], acts[i])
    requires NoRevival(states, acts, i, j, states[i].runs[acts[i].run].now)
    requires acts[j] == Delete(acts[i].run) || acts[j] == Lose(acts[i].run)
    ensures acts[i].ids !! states[j + 1].table.Keys
    ensures |states[i].table.Keys - states[j + 1].table.Keys|
         >= Least(batch, |Expired(states[i].table, states[i].runs[acts[i].run].now)|)
    ensures || |states[i].table.Keys - states[j + 1].table.Keys| >= batch
            || forall id :: id in states[i].table && states[i].table[id] < states[i].runs[acts[i].run].now ==>
                 id !in states[j + 1].table
  {
    hide *;
    var ids := acts[i].ids;
    TraceShape(batch, states, acts);
    SelectParts(batch, states[i], acts[i].run, ids);
    SelectedAll(states[i].table, states[i].runs[acts[i].run].now, ids, batch);
    forall id | id in ids ensures id !in states[j + 1].table {
      SelectedIsGone(batch, states, acts, i, j, id);
    }
    SubsetSize(ids, states[i].table.Keys - states[j + 1].table.Keys);
  }

  lemma TraceShape(batch: nat, states: seq<State>, acts: seq<Action>)
    requires Trace(batch, states, acts)
    ensures |states| == |acts| + 1
  {
  }

  lemma SelectParts(batch: nat, s: State, r: nat, ids: set<Id>)
    requires Enabled(batch, s, Select(r, ids))
    ensures r < |s.runs| && ids <= s.table.Keys && |ids| == Least(batch, |Expired(s.table, s.runs[r].now)|)
    ensures ids <= Expired(s.table, s.runs[r].now)
  {
  }

  /** A selection is a full batch, or every expired row. */
  lemma SelectedAll(table: map<Id, int>, now: int, ids: set<Id>, batch: nat)
    requires ids <= Expired(table, now) && |ids| == Least(batch, |Expired(table, now)|)
    ensures forall id :: id in ids ==> id in table && table[id] < now
    ensures |ids| == batch || (|ids| < batch && forall id :: id in table && table[id] < now ==> id in ids)
  {
    var all := Expired(table, now);
    if |ids| < batch {
      assert |all - ids| == |all| - |ids|;
      assert ids == all;
    }
  }

  lemma SelectedIsGone(batch: nat, states: seq<State>, acts: seq<Action>, i: nat, j: nat, id: Id)
    requires Trace(batch, states, acts) && i < j < |acts| && acts[i].Select? && Enabled(batch, states[i], acts[i])
    requires NoRevival(states, acts, i, j, states[i].runs[acts[i].run].now)
    requires (acts[j] == Delete(acts[i].run) || acts[j] == Lose(acts[i].run)) && id in acts[i].ids
    ensures id !in states[j + 1].table
  {
    SelectionHolds(batch, states, acts, i, j, id);
    assert Enabled(batch, states[j], acts[j]) && states[j + 1] == Do(batch, states[j], acts[j]);
    EmptiedKeys(states[j], acts[i].run);
  }

  /** A run that fails before its delete commits costs nothing but itself: no row changes and its process may start again. */
  lemma FailureChangesNoRow(batch: nat, s: State, r: nat)
    requires Inv(batch, s) && Enabled(batch, s, Fail(r))
    ensures var failed := Do(batch, s, Fail(r));
            && failed.table == s.table && failed.swept == s.swept && failed.clock == s.clock
            && s.runs[r].process !in failed.inFlight && Inv(batch, failed)
  {
    StepKeepsInv(batch, s, Fail(r));
  }

  /** The state after process `p`, with no run in flight, starts one and selects `ids`. */
  function Picked(s: State, p: Process, now: int, ids: set<Id>): State {
    s.(runs := s.runs + [Run(p, now, Selected(ids))], inFlight := s.inFlight[p := |s.runs|])
  }

  /**
   A process with nothing in flight (after a failure, say) can always make progress: its next
   run removes exactly one batch, or the whole backlog if that is smaller, and says so.
   */
  lemma NextRunMakesProgress(batch: nat, s: State, p: Process, now: int, ids: set<Id>)
    requires p !in s.inFlight && ids != {}
    requires ids <= Expired(s.table, now) && |ids| == Least(batch, |Expired(s.table, now)|)
    ensures var begun := Do(batch, s, Begin(p, now));
            && Enabled(batch, begun, Select(|s.runs|, ids))
            && Do(batch, begun, Select(|s.runs|, ids)) == Picked(s, p, now, ids)
    ensures var done := Do(batch, Picked(s, p, now, ids), Delete(|s.runs|));
            && done.table == s.table - ids
            && Count(done.runs[|s.runs|]) == Least(batch, |Expired(s.table, now)|)
  {
    var r := |s.runs|;
    var begun := Do(batch, s, Begin(p, now));
    assert begun.runs[r] == Run(p, now, Started);
    assert begun.runs[r := Run(p, now, Selected(ids))] == Picked(s, p, now, ids).runs;
    assert Doomed(Picked(s, p, now, ids), r) == ids;
  }

  // ----- the statements as they run -----

  lemma RemoveOne(table: map<Id, int>, ids: set<Id>, left: set<Id>, id: Id, now: int, gone: set<Id>)
    requires id in left && left <= ids && gone == (ids - left) * Expired(table, now)
    ensures var kept, next := table - gone, (ids - (left - {id})) * Expired(table, now);
            if id in kept && kept[id] < now
            then next == gone + {id} && kept - {id} == table - next && |next| == |gone| + 1
            else next == gone
  {
    var next := (ids - (left - {id})) * Expired(table, now);
    if id in table && table[id] < now {
      assert next == gone + {id};
    } else {
      assert next == gone;
    }
  }

  /** `DELETE ... WHERE id IN ids AND expiresAt < now`, id by id. */
  method WithoutExpired(table: map<Id, int>, ids: set<Id>, now: int) returns (kept: map<Id, int>, count: nat)
    ensures kept == table - ids * Expired(table, now)
    ensures count == |ids * Expired(table, now)|
  {
    hide Expired;
    ghost var expired := Expired(table, now);
    var left := ids;
    kept, count := table, 0;
    ghost var gone: set<Id> := {};
    while left != {}
      invariant left <= ids && gone == (ids - left) * expired
      invariant kept == table - gone && count == |gone|
      decreases |left|
    {
      var id :| id in left;
      RemoveOne(table, ids, left, id, now, gone);
      left := left - {id};
      if id in kept && kept[id] < now {
        kept := kept - {id};
        gone := gone + {id};
        count := count + 1;
      }
    }
    assert ids - left == ids;
  }

  class SessionTable {
    var rows: map<Id, int>

    /** The select: up to `limit` ids whose `expiresAt` is before `now`. */
    method FindMany(now: int, limit: nat) returns (ids: set<Id>)
      ensures ids <= Expired(rows, now) && |ids| == Least(limit, |Expired(rows, now)|)
      ensures forall id :: id in ids ==> id in rows && rows[id] < now
      ensures |ids| == limit || (|ids| < limit && forall id :: id in rows && rows[id] < now ==> id in ids)
    {
      ids := {};
      var left := rows.Keys;
      while left != {} && |ids| < limit
        invariant left <= rows.Keys && ids !! left && |ids| <= limit
        invariant ids <= Expired(rows, now) <= ids + left
        decreases |left|
      {
        var id :| id in left;
        left := left - {id};
        if rows[id] < now {
          ids := ids + {id};
        }
      }
      if left == {} {
        assert ids == Expired(rows, now);
      } else {
        SubsetSize(ids, Expired(rows, now));
      }
      SelectedAll(rows, now, ids, limit);
    }

    /** The delete: the given ids, but only where `expiresAt` is still before `now`. */
    method DeleteMany(ids: set<Id>, now: int) returns (count: nat)
      modifies this
      ensures var gone := ids * Expired(old(rows), now);
              rows == old(rows) - gone && count == |gone|
      ensures forall id :: id in rows <==> id in old(rows) && !(id in ids && old(rows)[id] < now)
      ensures forall id :: id in rows ==> rows[id] == old(rows)[id]
    {
      var kept;
      kept, count := WithoutExpired(rows, ids, now);
      rows := kept;
    }

    /** `sweepExpiredSessions` with nothing interfering: one batch, or the whole backlog. */
    method Sweep(now: int, batch: nat) returns (count: nat)
      modifies this
      ensures count == Least(batch, |Expired(old(rows), now)|)
      ensures exists ids :: ids <= Expired(old(rows), now) && |ids| == count && rows == old(rows) - ids
    {
      var ids := FindMany(now, batch);
      assert ids * Expired(rows, now) == ids;
      if ids == {} {
        assert rows == rows - ids;
        return 0;
      }
      count := DeleteMany(ids, now);
    }
  }
}
