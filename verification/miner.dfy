/**
 * The main loop of the miner (src/main.rs:83-141), seen from the main thread: one
 * batch of attempts is mapped in parallel and collected in order, the found counter
 * is bumped once per match, every match is written to the output file, and the loop
 * ends when a limit is set and the found counter has reached it.
 *
 * The parallel map itself is `MineBatch`; since an attempt does not depend on the
 * worker's scratch state, the collected batch does not depend on the schedule.
 */
module Miner {
  import opened Wrappers
  import opened Records
  import Generator

  // ---------------------------------------------------------------------------
  // Progress reports (src/main.rs:87-98).

  const ReportInterval: nat := 500000

  /** `fetch_add` hands each attempt the count BEFORE its increment; the attempt
      prints a progress line when that count is a positive multiple of 500000. */
  predicate ReportsAt(preCount: nat)
  {
    preCount > 0 && preCount % ReportInterval == 0
  }

  /** Progress lines printed by the attempts that see counts `from .. from + n - 1`. */
  function ReportsIn(from: nat, n: nat): nat
    decreases n
  {
    if n == 0 then 0 else ReportsIn(from, n - 1) + (if ReportsAt(from + n - 1) then 1 else 0)
  }

  lemma ReportStep(x: nat)
    requires x >= 1
    ensures x / ReportInterval == (x - 1) / ReportInterval + (if x % ReportInterval == 0 then 1 else 0)
  {
  }

  /** After `n` attempts, `(n - 1) / 500000` progress lines have been printed: the
      first one comes with the 500001st attempt. */
  lemma {:induction false} ReportsClosedForm(n: nat)
    ensures ReportsIn(0, n) == if n == 0 then 0 else (n - 1) / ReportInterval
  {
    if n >= 2 {
      ReportsClosedForm(n - 1);
      ReportStep(n - 1);
    }
  }

  /** The reports of consecutive ranges of counts add up. */
  lemma {:induction false} ReportsSplit(a: nat, n: nat, k: nat)
    ensures ReportsIn(a, n + k) == ReportsIn(a, n) + ReportsIn(a + n, k)
    decreases k
  {
    if k > 0 {
      ReportsSplit(a, n, k - 1);
    }
  }

  // ---------------------------------------------------------------------------
  // Collected results of one batch.

  /** The `Some` results of a batch, in collection order (`batch_results`). */
  function Matches(batch: seq<Option<Record>>): seq<Record>
  {
    if |batch| == 0 then []
    else (match batch[0] case Some(r) => [r] case None => []) + Matches(batch[1..])
  }

  lemma {:induction false} MatchesAppend(a: seq<Option<Record>>, b: seq<Option<Record>>)
    ensures Matches(a + b) == Matches(a) + Matches(b)
  {
    if |a| == 0 {
      assert a + b == b;
    } else {
      assert (a + b)[1..] == a[1..] + b;
      MatchesAppend(a[1..], b);
    }
  }

  /** A record is collected exactly when the batch holds it as a result. */
  lemma {:induction false} MatchesMembership(batch: seq<Option<Record>>, r: Record)
    ensures r in Matches(batch) <==> Some(r) in batch
  {
    if |batch| > 0 {
      MatchesMembership(batch[1..], r);
      assert batch == [batch[0]] + batch[1..];
    }
  }

  /** The number collected is the number of results that are not `None`. */
  lemma {:induction false} MatchesCount(batch: seq<Option<Record>>)
    ensures |Matches(batch)| == |batch| - multiset(batch)[None]
    ensures |Matches(batch)| > 0 <==> exists i | 0 <= i < |batch| :: batch[i].Some?
  {
    if |batch| > 0 {
      MatchesCount(batch[1..]);
      assert batch == [batch[0]] + batch[1..];
      assert multiset(batch) == multiset{batch[0]} + multiset(batch[1..]);
      if batch[0].None? {
        assert forall i | 1 <= i < |batch| :: batch[i] == batch[1..][i - 1];
      }
    }
  }

  /** Every result of a batch is a record the filter accepted. */
  predicate BatchWellFormed(batch: seq<Option<Record>>, minSameChars: nat)
  {
    forall i | 0 <= i < |batch| :: batch[i].Some? ==> Generator.WellFormed(batch[i].value, minSameChars)
  }

  /** The records collected from a batch of accepted results passed the filter. */
  lemma {:induction false} MatchesWellFormed(batch: seq<Option<Record>>, minSameChars: nat)
    requires BatchWellFormed(batch, minSameChars)
    ensures forall i | 0 <= i < |Matches(batch)| :: Generator.WellFormed(Matches(batch)[i], minSameChars)
  {
    if |batch| > 0 {
      assert BatchWellFormed(batch[1..], minSameChars) by {
        forall i | 0 <= i < |batch[1..]| ensures batch[1..][i] == batch[i + 1] {}
      }
      MatchesWellFormed(batch[1..], minSameChars);
    }
  }

  /** The parallel map of one batch (src/main.rs:84-102): task `i` runs an attempt on
      key `i` with whatever scratch state its worker thread holds. */
  function MineBatch(p: Generator.Primitives, minSameChars: nat,
                     scratches: seq<Generator.Scratch>, keys: seq<Generator.PrivateKey>): (batch: seq<Option<Record>>)
    requires |scratches| == |keys|
    ensures |batch| == |keys|
    ensures forall i | 0 <= i < |keys| ::
              batch[i] == Generator.Attempt(p, Generator.Scratch(Generator.Fresh, Generator.Fresh), keys[i], minSameChars).0
    ensures BatchWellFormed(batch, minSameChars)
  {
    seq(|keys|, i requires 0 <= i < |keys| => Generator.Attempt(p, scratches[i], keys[i], minSameChars).0)
  }

  // ---------------------------------------------------------------------------
  // The loop state.

  /** `attempts` and `found` are the two atomic counters, `reports` the progress
      lines printed, `written` the records this run appended to the output file, `announced` the
      records printed on the console, `stopped` that `main` has returned. */
  datatype Miner = Miner(attempts: nat, reports: nat, found: nat,
                         written: seq<Record>, announced: seq<Record>, stopped: bool)

  const Initial := Miner(0, 0, 0, [], [], false)

  /** The text this run appends to the output file, which is opened in append mode. */
  function Output(m: Miner): string
  {
    RenderAll(m.written)
  }

  /** One iteration of the loop. The found counter is bumped for every match while
      the results are collected (lines 105-111), all matches are written and flushed
      (114-122), then announced one by one; the limit test after the first
      announcement already sees the whole batch counted, so it either returns there
      or never fires for this batch (126-138). */
  function Step(limit: nat, m: Miner, batch: seq<Option<Record>>): (m': Miner)
    requires !m.stopped
    ensures m'.attempts == m.attempts + |batch|
    ensures m'.found == m.found + (|batch| - multiset(batch)[None])
    ensures m'.written == m.written + Matches(batch)
    ensures m'.stopped <==>
              (exists i | 0 <= i < |batch| :: batch[i].Some?) && limit > 0 && m'.found >= limit
    ensures (forall i | 0 <= i < |batch| :: batch[i].None?) ==>
              m'.found == m.found && m'.written == m.written && m'.announced == m.announced
  {
    MatchesCount(batch);
    var hits := Matches(batch);
    var attempts := m.attempts + |batch|;
    var reports := m.reports + ReportsIn(m.attempts, |batch|);
    var found := m.found + |hits|;
    if |hits| == 0 then
      m.(attempts := attempts, reports := reports)
    else
      var stop := limit > 0 && found >= limit;
      var shown := if stop then hits[..1] else hits;
      Miner(attempts, reports, found, m.written + hits, m.announced + shown, stop)
  }

  /** A batch appends its matches' text to the output file and nothing else. */
  lemma StepOutput(limit: nat, m: Miner, batch: seq<Option<Record>>)
    requires !m.stopped
    ensures Output(Step(limit, m, batch)) == Output(m) + RenderAll(Matches(batch))
  {
    RenderAllAppend(m.written, Matches(batch));
  }

  /** What holds of every state the loop reaches. */
  ghost predicate Invariant(limit: nat, minSameChars: nat, m: Miner)
  {
    && m.found == |m.written|
    && m.reports == ReportsIn(0, m.attempts)
    && (m.stopped <==> limit > 0 && m.found >= limit)
    && m.announced <= m.written
    && (!m.stopped ==> m.announced == m.written)
    && (forall i | 0 <= i < |m.written| :: Generator.WellFormed(m.written[i], minSameChars))
  }

  lemma InitialInvariant(limit: nat, minSameChars: nat)
    ensures Invariant(limit, minSameChars, Initial)
  {
  }

  lemma StepInvariant(limit: nat, minSameChars: nat, m: Miner, batch: seq<Option<Record>>)
    requires Invariant(limit, minSameChars, m) && !m.stopped
    requires BatchWellFormed(batch, minSameChars)
    ensures Invariant(limit, minSameChars, Step(limit, m, batch))
  {
    var m' := Step(limit, m, batch);
    MatchesCount(batch);
    ReportsSplit(0, m.attempts, |batch|);
    MatchesWellFormed(batch, minSameChars);
    assert m'.written == m.written + Matches(batch);
  }

  /** Overshoot: a batch that stops the loop leaves the found counter at or above the
      limit by less than that batch's number of matches. */
  lemma Overshoot(limit: nat, minSameChars: nat, m: Miner, batch: seq<Option<Record>>)
    requires Invariant(limit, minSameChars, m) && !m.stopped
    requires Step(limit, m, batch).stopped
    ensures limit <= Step(limit, m, batch).found < limit + |Matches(batch)|
    ensures |Step(limit, m, batch).written| < limit + |Matches(batch)|
  {
    MatchesCount(batch);
  }

  /** The batch that stops the loop is written in full, but only its first match
      is printed on the console before `main` returns. */
  lemma StopAnnouncesFirstOnly(limit: nat, minSameChars: nat, m: Miner, batch: seq<Option<Record>>)
    requires Invariant(limit, minSameChars, m) && !m.stopped
    requires Step(limit, m, batch).stopped
    ensures Step(limit, m, batch).written == m.written + Matches(batch)
    ensures Step(limit, m, batch).announced == m.written + Matches(batch)[..1]
  {
  }

  // ---------------------------------------------------------------------------
  // Running the loop over a sequence of batches.

  /** Steps through `batches` until the loop stops; also returns how many batches
      were consumed. */
  function Run(limit: nat, m: Miner, batches: seq<seq<Option<Record>>>): (r: (Miner, nat))
    ensures r.1 <= |batches|
    ensures r.1 < |batches| ==> r.0.stopped
    ensures m.stopped ==> r.1 == 0 && r.0 == m
    decreases |batches|
  {
    if m.stopped || |batches| == 0 then (m, 0)
    else
      var (final, k) := Run(limit, Step(limit, m, batches[0]), batches[1..]);
      (final, k + 1)
  }

  /** All matches of a sequence of batches, in order. */
  function AllMatches(batches: seq<seq<Option<Record>>>): seq<Record>
  {
    if |batches| == 0 then [] else Matches(batches[0]) + AllMatches(batches[1..])
  }

  /** The file holds exactly the matches of the consumed batches, in order. */
  lemma {:induction false} RunWritten(limit: nat, m: Miner, batches: seq<seq<Option<Record>>>)
    ensures Run(limit, m, batches).0.written == m.written + AllMatches(batches[..Run(limit, m, batches).1])
    decreases |batches|
  {
    if !m.stopped && |batches| > 0 {
      var m1 := Step(limit, m, batches[0]);
      RunWritten(limit, m1, batches[1..]);
      var k := Run(limit, m1, batches[1..]).1;
      assert batches[..k + 1][1..] == batches[1..][..k];
    } else {
      assert batches[..0] == [];
    }
  }

  lemma {:induction false} RunInvariant(limit: nat, minSameChars: nat, m: Miner, batches: seq<seq<Option<Record>>>)
    requires Invariant(limit, minSameChars, m)
    requires forall j | 0 <= j < |batches| :: BatchWellFormed(batches[j], minSameChars)
    ensures Invariant(limit, minSameChars, Run(limit, m, batches).0)
    decreases |batches|
  {
    if !m.stopped && |batches| > 0 {
      StepInvariant(limit, minSameChars, m, batches[0]);
      RunInvariant(limit, minSameChars, Step(limit, m, batches[0]), batches[1..]);
    }
  }

  /** With no limit the loop never stops and consumes every batch. */
  lemma {:induction false} NoLimitNeverStops(m: Miner, batches: seq<seq<Option<Record>>>)
    requires !m.stopped
    ensures !Run(0, m, batches).0.stopped
    ensures Run(0, m, batches).1 == |batches|
    decreases |batches|
  {
    if |batches| > 0 {
      NoLimitNeverStops(Step(0, m, batches[0]), batches[1..]);
    }
  }

  /** Limit 5 with batches of 100 attempts holding 3, 2 and 2 matches: the first two
      batches are consumed, their five records written, and the third never starts. */
  lemma LimitScenario(b1: seq<Option<Record>>, b2: seq<Option<Record>>, b3: seq<Option<Record>>)
    requires |b1| == 100 && |b2| == 100 && |b3| == 100
    requires |Matches(b1)| == 3 && |Matches(b2)| == 2 && |Matches(b3)| == 2
    ensures Run(5, Initial, [b1, b2, b3]).1 == 2
    ensures Run(5, Initial, [b1, b2, b3]).0.stopped
    ensures Run(5, Initial, [b1, b2, b3]).0.found == 5
    ensures Run(5, Initial, [b1, b2, b3]).0.attempts == 200
    ensures Run(5, Initial, [b1, b2, b3]).0.written == Matches(b1) + Matches(b2)
  {
    MatchesCount(b1);
    MatchesCount(b2);
    var m1 := Step(5, Initial, b1);
    assert !m1.stopped && m1.found == 3 && m1.attempts == 100;
    var m2 := Step(5, m1, b2);
    assert m2.stopped && m2.found == 5 && m2.attempts == 200;
    assert m2.written == Matches(b1) + Matches(b2);
    assert [b1, b2, b3][1..] == [b2, b3];
    assert [b2, b3][1..] == [b3];
    assert Run(5, m2, [b3]) == (m2, 0);
    assert Run(5, m1, [b2, b3]) == (m2, 1);
  }
}
