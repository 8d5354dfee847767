/** Chronological train, validation and test partitions of the feature rows. */
module ChronologicalSplit {
  import opened Results

  const MINIMUM_PARTITION_ROWS := 100
  const LOOKBACK_EVENTS := 25

  /** A maximal run of rows of one session. */
  datatype Run = Run(session: int, start: nat, stop: nat)

  /** Rows start..stop-1; none when stop is not greater than start. */
  datatype Interval = Interval(start: nat, stop: nat)

  datatype Mode = WholeSession | PurgedFallback

  datatype Split = Split(
    train: Interval, validation: Interval, test: Interval, mode: Mode,
    trainSessions: set<int>, validationSessions: set<int>, testSessions: set<int>, purge: nat)

  datatype SplitError = NegativePurge | TooShort

  function Rows(i: Interval): nat { if i.stop > i.start then i.stop - i.start else 0 }

  function SessionsIn(sessions: seq<int>, i: Interval): set<int> {
    set k | i.start <= k < i.stop && k < |sessions| :: sessions[k]
  }

  // ----- runs of sessions

  ghost predicate RunsTile(runs: seq<Run>, sessions: seq<int>, upTo: nat) {
    && upTo <= |sessions|
    && (forall i | 0 <= i < |runs| :: runs[i].start < runs[i].stop <= upTo)
    && (runs != [] ==> runs[0].start == 0)
    && (forall i | 0 < i < |runs| :: runs[i].start == runs[i - 1].stop)
    && upTo == (if runs == [] then 0 else runs[|runs| - 1].stop)
    && (forall i, k | 0 <= i < |runs| && runs[i].start <= k < runs[i].stop :: sessions[k] == runs[i].session)
    && (forall i | 0 < i < |runs| :: runs[i - 1].session != runs[i].session)
  }

  lemma NextRunTiles(runs: seq<Run>, sessions: seq<int>, start: nat, stop: nat)
    requires RunsTile(runs, sessions, start) && start < stop <= |sessions|
    requires forall j | start <= j < stop :: sessions[j] == sessions[start]
    requires runs != [] ==> runs[|runs| - 1].session != sessions[start]
    ensures RunsTile(runs + [Run(sessions[start], start, stop)], sessions, stop)
  {
    var all := runs + [Run(sessions[start], start, stop)];
    assert forall i | 0 <= i < |runs| :: all[i] == runs[i];
    forall i | 0 < i < |all| ensures all[i].start == all[i - 1].stop && all[i - 1].session != all[i].session {
      assert all[i - 1] == runs[i - 1];
      assert i < |runs| ==> all[i] == runs[i];
    }
  }

  method SessionRowRanges(sessions: seq<int>) returns (runs: seq<Run>)
    ensures RunsTile(runs, sessions, |sessions|)
  {
    runs := [];
    assert RunsTile([], sessions, 0);
    hide RunsTile;
    if sessions == [] {
      return;
    }
    var start: nat := 0;
    for k := 1 to |sessions|
      invariant start < k && RunsTile(runs, sessions, start)
      invariant forall j | start <= j < k :: sessions[j] == sessions[start]
      invariant runs != [] ==> runs[|runs| - 1].session != sessions[start]
    {
      if sessions[k] != sessions[k - 1] {
        NextRunTiles(runs, sessions, start, k);
        runs := runs + [Run(sessions[start], start, k)];
        start := k;
      }
    }
    NextRunTiles(runs, sessions, start, |sessions|);
    runs := runs + [Run(sessions[start], start, |sessions|)];
  }

  // ----- whole-session candidates

  datatype Candidate = Candidate(score: real, trainRuns: nat, validationRuns: nat)

  function Distance(x: nat, target: real): real {
    if x as real >= target then x as real - target else target - x as real
  }

  function Score(trainStop: nat, validationStop: nat, size: nat): real {
    Distance(trainStop, size as real * 0.6) + Distance(validationStop, size as real * 0.8)
  }

  predicate Boundaries(runs: seq<Run>, t: nat, v: nat) { 1 <= t < v < |runs| }

  /** Both boundaries fall between runs and every part has enough rows. */
  predicate Admissible(runs: seq<Run>, size: nat, t: nat, v: nat) {
    && Boundaries(runs, t, v)
    && runs[t - 1].stop >= MINIMUM_PARTITION_ROWS
    && runs[v - 1].stop - runs[t - 1].stop >= MINIMUM_PARTITION_ROWS
    && size - runs[v - 1].stop >= MINIMUM_PARTITION_ROWS
  }

  function CandidateAt(runs: seq<Run>, size: nat, t: nat, v: nat): Candidate
    requires Boundaries(runs, t, v)
  {
    Candidate(Score(runs[t - 1].stop, runs[v - 1].stop, size), t, v)
  }

  /** Tuples compare lexicographically. */
  predicate NotAfter(a: Candidate, b: Candidate) {
    a.score < b.score ||
    (a.score == b.score &&
     (a.trainRuns < b.trainRuns || (a.trainRuns == b.trainRuns && a.validationRuns <= b.validationRuns)))
  }

  predicate IsCandidate(runs: seq<Run>, size: nat, c: Candidate) {
    Admissible(runs, size, c.trainRuns, c.validationRuns) && c == CandidateAt(runs, size, c.trainRuns, c.validationRuns)
  }

  method Candidates(runs: seq<Run>, size: nat) returns (candidates: seq<Candidate>)
    requires |runs| >= 3
    ensures forall c | c in candidates :: IsCandidate(runs, size, c)
    ensures forall t: nat, v: nat | Admissible(runs, size, t, v) :: CandidateAt(runs, size, t, v) in candidates
  {
    candidates := [];
    for t := 1 to |runs| - 1
      invariant forall c | c in candidates :: IsCandidate(runs, size, c)
      invariant forall s: nat, v: nat | s < t && Admissible(runs, size, s, v) :: CandidateAt(runs, size, s, v) in candidates
    {
      for v := t + 1 to |runs|
        invariant forall c | c in candidates :: IsCandidate(runs, size, c)
        invariant forall s: nat, w: nat | s < t && Admissible(runs, size, s, w) :: CandidateAt(runs, size, s, w) in candidates
        invariant forall w: nat | w < v && Admissible(runs, size, t, w) :: CandidateAt(runs, size, t, w) in candidates
      {
        if Admissible(runs, size, t, v) {
          candidates := candidates + [CandidateAt(runs, size, t, v)];
        }
      }
    }
  }

  method Least(candidates: seq<Candidate>) returns (best: Candidate)
    requires candidates != []
    ensures best in candidates && forall c | c in candidates :: NotAfter(best, c)
  {
    best := candidates[0];
    for i := 1 to |candidates|
      invariant best in candidates && forall j | 0 <= j < i :: NotAfter(best, candidates[j])
    {
      if !NotAfter(best, candidates[i]) {
        best := candidates[i];
      }
    }
  }

  method SessionsOfRuns(runs: seq<Run>) returns (named: set<int>)
    ensures named == set r | r in runs :: r.session
  {
    named := {};
    for i := 0 to |runs|
      invariant named == set r | r in runs[..i] :: r.session
    {
      assert runs[..i + 1] == runs[..i] + [runs[i]];
      named := named + {runs[i].session};
    }
    assert runs[..|runs|] == runs;
  }

  /** Consecutive runs cover consecutive rows and name exactly their sessions. */
  lemma RunsNameSessions(runs: seq<Run>, sessions: seq<int>, lo: nat, hi: nat)
    requires RunsTile(runs, sessions, |sessions|) && lo < hi <= |runs|
    ensures (set r | r in runs[lo..hi] :: r.session) ==
            SessionsIn(sessions, Interval(runs[lo].start, runs[hi - 1].stop))
  {
    var i := Interval(runs[lo].start, runs[hi - 1].stop);
    forall s | s in SessionsIn(sessions, i) ensures s in set r | r in runs[lo..hi] :: r.session {
      var k :| i.start <= k < i.stop && k < |sessions| && sessions[k] == s;
      var j := RunHolding(runs, sessions, lo, hi, k);
      assert runs[j] in runs[lo..hi];
    }
    forall r | r in runs[lo..hi] ensures r.session in SessionsIn(sessions, i) {
      var j :| lo <= j < hi && runs[j] == r;
      StartsGrow(runs, sessions, lo, j);
      StartsGrow(runs, sessions, j, hi - 1);
      assert sessions[r.start] == r.session;
    }
  }

  lemma {:induction false} StartsGrow(runs: seq<Run>, sessions: seq<int>, i: nat, j: nat)
    requires RunsTile(runs, sessions, |sessions|) && i <= j < |runs|
    ensures runs[i].start <= runs[j].start && runs[i].stop <= runs[j].stop
    decreases j - i
  {
    if i < j {
      StartsGrow(runs, sessions, i, j - 1);
    }
  }

  lemma {:induction false} RunHolding(runs: seq<Run>, sessions: seq<int>, lo: nat, hi: nat, k: nat) returns (j: nat)
    requires RunsTile(runs, sessions, |sessions|) && lo < hi <= |runs|
    requires runs[lo].start <= k < runs[hi - 1].stop
    ensures lo <= j < hi && runs[j].start <= k < runs[j].stop
    decreases hi - lo
  {
    if k < runs[lo].stop {
      j := lo;
    } else {
      assert lo + 1 < hi;
      j := RunHolding(runs, sessions, lo + 1, hi, k);
    }
  }

  // ----- the split

  /** Ordered, disjoint, inside the data and large enough. */
  predicate Partitions(s: Split, size: nat) {
    && s.train.stop <= s.validation.start && s.validation.stop <= s.test.start && s.test.stop <= size
    && Rows(s.train) >= MINIMUM_PARTITION_ROWS && Rows(s.validation) >= MINIMUM_PARTITION_ROWS
    && Rows(s.test) >= MINIMUM_PARTITION_ROWS
  }

  predicate NamesItsSessions(s: Split, sessions: seq<int>) {
    && s.trainSessions == SessionsIn(sessions, s.train)
    && s.validationSessions == SessionsIn(sessions, s.validation)
    && s.testSessions == SessionsIn(sessions, s.test)
  }

  /** All rows, cut between runs at the admissible boundaries of least score, earliest on ties. */
  ghost predicate BestWholeSessions(s: Split, runs: seq<Run>, size: nat) {
    && s.mode == WholeSession && s.purge == 0
    && exists t, v ::
      && Admissible(runs, size, t, v)
      && s.train == Interval(0, runs[t - 1].stop)
      && s.validation == Interval(runs[t - 1].stop, runs[v - 1].stop)
      && s.test == Interval(runs[v - 1].stop, size)
      && forall x: nat, y: nat | Admissible(runs, size, x, y) ::
           NotAfter(CandidateAt(runs, size, t, v), CandidateAt(runs, size, x, y))
  }

  ghost predicate WholeSessionsPossible(runs: seq<Run>, size: nat) {
    exists t: nat, v: nat :: Admissible(runs, size, t, v)
  }

  function Share(size: nat, fraction: real): nat
    requires 0.0 <= fraction
  {
    var share := size as real * fraction;
    if share >= 0.0 then share.Floor else 0
  }

  function FallbackTrain(size: nat): Interval { Interval(0, Share(size, 0.6)) }

  function FallbackValidation(size: nat, purge: nat): Interval { Interval(Share(size, 0.6) + purge, Share(size, 0.8)) }

  function FallbackTest(size: nat, purge: nat): Interval { Interval(Share(size, 0.8) + purge, size) }

  predicate FallbackFits(size: nat, purge: nat) {
    && Rows(FallbackTrain(size)) >= MINIMUM_PARTITION_ROWS
    && Rows(FallbackValidation(size, purge)) >= MINIMUM_PARTITION_ROWS
    && Rows(FallbackTest(size, purge)) >= MINIMUM_PARTITION_ROWS
  }

  method UniqueSessions(sessions: seq<int>, i: Interval) returns (named: set<int>)
    ensures named == SessionsIn(sessions, i)
  {
    named := {};
    var k := i.start;
    while k < i.stop && k < |sessions|
      invariant i.start <= k
      invariant k <= i.stop || k == i.start
      invariant named == set j | i.start <= j < k && j < |sessions| :: sessions[j]
    {
      named := named + {sessions[k]};
      k := k + 1;
    }
    assert named == SessionsIn(sessions, i);
  }

  method MakeChronologicalSplit(sessions: seq<int>, purge: int) returns (r: Result<Split, SplitError>, ghost runs: seq<Run>)
    ensures RunsTile(runs, sessions, |sessions|)
    ensures r == Err(NegativePurge) <==> purge < 0
    ensures r == Err(TooShort) <==>
      purge >= 0 && !WholeSessionsPossible(runs, |sessions|) && !FallbackFits(|sessions|, purge)
    ensures r.Ok? ==> Partitions(r.value, |sessions|) && NamesItsSessions(r.value, sessions)
    ensures r.Ok? && WholeSessionsPossible(runs, |sessions|) ==> BestWholeSessions(r.value, runs, |sessions|)
    ensures r.Ok? && !WholeSessionsPossible(runs, |sessions|) ==>
      && r.value.mode == PurgedFallback && r.value.purge == purge
      && r.value.train == FallbackTrain(|sessions|)
      && r.value.validation == FallbackValidation(|sessions|, purge)
      && r.value.test == FallbackTest(|sessions|, purge)
  {
    hide RunsTile;
    var size := |sessions|;
    var found := SessionRowRanges(sessions);
    runs := found;
    if purge < 0 {
      return Err(NegativePurge), runs;
    }
    if |found| >= 3 {
      var candidates := Candidates(found, size);
      if candidates != [] {
        var best := Least(candidates);
        var split := WholeSessionSplit(sessions, found, best);
        return Ok(split), runs;
      }
    }
    var train, validation, test := FallbackTrain(size), FallbackValidation(size, purge), FallbackTest(size, purge);
    if !FallbackFits(size, purge) {
      return Err(TooShort), runs;
    }
    var a := UniqueSessions(sessions, train);
    var b := UniqueSessions(sessions, validation);
    var c := UniqueSessions(sessions, test);
    return Ok(Split(train, validation, test, PurgedFallback, a, b, c, purge)), runs;
  }

  method WholeSessionSplit(sessions: seq<int>, runs: seq<Run>, best: Candidate) returns (split: Split)
    requires RunsTile(runs, sessions, |sessions|) && IsCandidate(runs, |sessions|, best)
    requires forall x: nat, y: nat | Admissible(runs, |sessions|, x, y) ::
               NotAfter(best, CandidateAt(runs, |sessions|, x, y))
    ensures Partitions(split, |sessions|) && NamesItsSessions(split, sessions)
    ensures BestWholeSessions(split, runs, |sessions|)
  {
    var size, t, v := |sessions|, best.trainRuns, best.validationRuns;
    var trainStop, validationStop := runs[t - 1].stop, runs[v - 1].stop;
    var a := SessionsOfRuns(runs[..t]);
    var b := SessionsOfRuns(runs[t..v]);
    var c := SessionsOfRuns(runs[v..]);
    RunsNameSessions(runs, sessions, 0, t);
    RunsNameSessions(runs, sessions, t, v);
    RunsNameSessions(runs, sessions, v, |runs|);
    assert runs[0..t] == runs[..t] && runs[v..|runs|] == runs[v..];
    assert runs[0].start == 0 && runs[t].start == trainStop && runs[v].start == validationStop;
    split := Split(Interval(0, trainStop), Interval(trainStop, validationStop), Interval(validationStop, size),
                   WholeSession, a, b, c, 0);
  }

  // ----- the targets in whole numbers

  function Apart(x: int, y: int): nat { if x >= y then x - y else y - x }

  /** Five times the distance of the two boundaries from three and four fifths of the rows. */
  function FifthsOff(trainStop: nat, validationStop: nat, size: nat): nat {
    Apart(5 * trainStop, 3 * size) + Apart(5 * validationStop, 4 * size)
  }

  lemma ScoreInFifths(trainStop: nat, validationStop: nat, size: nat)
    ensures 5.0 * Score(trainStop, validationStop, size) == FifthsOff(trainStop, validationStop, size) as real
  {
    DistanceInFifths(trainStop, size, 3, 0.6);
    DistanceInFifths(validationStop, size, 4, 0.8);
  }

  lemma DistanceInFifths(x: nat, size: nat, fifths: nat, share: real)
    requires (fifths == 3 && share == 0.6) || (fifths == 4 && share == 0.8)
    ensures 5.0 * Distance(x, size as real * share) == Apart(5 * x, fifths * size) as real
  {
    var difference: int := 5 * x - fifths * size;
    assert difference as real == 5.0 * x as real - 5.0 * (size as real * share);
  }

  /** A new session starts at the row. */
  predicate Cut(sessions: seq<int>, row: nat) {
    0 < row < |sessions| && sessions[row - 1] != sessions[row]
  }

  /** Two rows at which sessions start and that leave a hundred rows before, between and after them. */
  predicate CutsApart(sessions: seq<int>, a: nat, b: nat) {
    Cut(sessions, a) && Cut(sessions, b) && a >= 100 && b - a >= 100 && |sessions| - b >= 100
  }

  /** Rows at which a session starts are the ends of runs but the last. */
  lemma CutEndsRun(runs: seq<Run>, sessions: seq<int>, row: nat) returns (t: nat)
    requires RunsTile(runs, sessions, |sessions|) && Cut(sessions, row)
    ensures 1 <= t < |runs| && runs[t - 1].stop == row
  {
    t := RunHolding(runs, sessions, 0, |runs|, row);
    assert sessions[row] == runs[t].session;
    assert runs[0].start == 0;
  }

  lemma RunEndIsCut(runs: seq<Run>, sessions: seq<int>, t: nat)
    requires RunsTile(runs, sessions, |sessions|) && 1 <= t < |runs|
    ensures Cut(sessions, runs[t - 1].stop)
  {
    var row := runs[t - 1].stop;
    assert runs[t].start == row && runs[t].start < runs[t].stop;
    assert sessions[row - 1] == runs[t - 1].session && sessions[row] == runs[t].session;
  }

  lemma AdmissibleCuts(runs: seq<Run>, sessions: seq<int>, t: nat, v: nat)
    requires RunsTile(runs, sessions, |sessions|) && Admissible(runs, |sessions|, t, v)
    ensures CutsApart(sessions, runs[t - 1].stop, runs[v - 1].stop)
  {
    RunEndIsCut(runs, sessions, t);
    RunEndIsCut(runs, sessions, v);
  }

  lemma CutsAdmissible(runs: seq<Run>, sessions: seq<int>, a: nat, b: nat) returns (t: nat, v: nat)
    requires RunsTile(runs, sessions, |sessions|) && CutsApart(sessions, a, b)
    ensures Admissible(runs, |sessions|, t, v) && runs[t - 1].stop == a && runs[v - 1].stop == b
  {
    t := CutEndsRun(runs, sessions, a);
    v := CutEndsRun(runs, sessions, b);
    if v <= t {
      StartsGrow(runs, sessions, v - 1, t - 1);
      assert false;
    }
  }

  /** Whole sessions are possible exactly when two session starts leave a hundred rows to each part. */
  lemma WholeSessionsIff(runs: seq<Run>, sessions: seq<int>)
    requires RunsTile(runs, sessions, |sessions|)
    ensures WholeSessionsPossible(runs, |sessions|) <==> exists a: nat, b: nat :: CutsApart(sessions, a, b)
  {
    hide RunsTile, Admissible, CutsApart;
    if WholeSessionsPossible(runs, |sessions|) {
      var t: nat, v: nat :| Admissible(runs, |sessions|, t, v);
      AdmissibleCuts(runs, sessions, t, v);
      AdmissibleInside(runs, |sessions|, t, v);
      assert CutsApart(sessions, runs[t - 1].stop, runs[v - 1].stop);
    }
    if a: nat, b: nat :| CutsApart(sessions, a, b) {
      var t, v := CutsAdmissible(runs, sessions, a, b);
    }
  }

  lemma AdmissibleInside(runs: seq<Run>, size: nat, t: nat, v: nat)
    requires Admissible(runs, size, t, v)
    ensures 1 <= t < v < |runs|
  {
  }

  /**
   A whole-session split cuts where sessions start, as near to three and four fifths of the rows as any
   two admissible cuts, and of equally near ones at the first.
   */
  lemma BestIsNearest(s: Split, runs: seq<Run>, sessions: seq<int>, a: nat, b: nat)
    requires RunsTile(runs, sessions, |sessions|) && BestWholeSessions(s, runs, |sessions|)
    requires CutsApart(sessions, a, b)
    ensures CutsApart(sessions, s.train.stop, s.validation.stop)
    ensures var best, other := FifthsOff(s.train.stop, s.validation.stop, |sessions|), FifthsOff(a, b, |sessions|);
            && best <= other
            && (best == other ==> s.train.stop < a || (s.train.stop == a && s.validation.stop <= b))
  {
    hide Score, FifthsOff, CutsApart;
    var size := |sessions|;
    var x, y := CutsAdmissible(runs, sessions, a, b);
    var t: nat, v: nat :| Admissible(runs, size, t, v)
      && s.train == Interval(0, runs[t - 1].stop)
      && s.validation == Interval(runs[t - 1].stop, runs[v - 1].stop)
      && NotAfter(CandidateAt(runs, size, t, v), CandidateAt(runs, size, x, y));
    AdmissibleCuts(runs, sessions, t, v);
    ScoreInFifths(runs[t - 1].stop, runs[v - 1].stop, size);
    ScoreInFifths(a, b, size);
    if t < x {
      EndsIncrease(runs, sessions, t - 1, x - 1);
    } else if t == x && v < y {
      EndsIncrease(runs, sessions, v - 1, y - 1);
    }
  }

  lemma EndsIncrease(runs: seq<Run>, sessions: seq<int>, i: nat, j: nat)
    requires RunsTile(runs, sessions, |sessions|) && i < j < |runs|
    ensures runs[i].stop < runs[j].stop
  {
    StartsGrow(runs, sessions, i, j - 1);
    assert runs[j].start == runs[j - 1].stop && runs[j].start < runs[j].stop;
  }

  lemma ShareIs(size: nat)
    ensures Share(size, 0.6) == 3 * size / 5 && Share(size, 0.8) == 4 * size / 5
  {
    FloorOfFifths(3 * size, size as real * 0.6);
    FloorOfFifths(4 * size, size as real * 0.8);
  }

  lemma FloorOfFifths(fifths: nat, share: real)
    requires 5.0 * share == fifths as real
    ensures share >= 0.0 && share.Floor == fifths / 5
  {
    var whole := fifths / 5;
    assert fifths as real == 5.0 * whole as real + (fifths % 5) as real;
  }

  /**
   The fallback trains on the first three fifths of the rows, validates on the next fifth and tests on
   the last, both less the purge; it exists exactly when each part has a hundred rows.
   */
  lemma FallbackIs(size: nat, purge: nat)
    ensures FallbackTrain(size) == Interval(0, 3 * size / 5)
    ensures FallbackValidation(size, purge) == Interval(3 * size / 5 + purge, 4 * size / 5)
    ensures FallbackTest(size, purge) == Interval(4 * size / 5 + purge, size)
    ensures FallbackFits(size, purge) <==>
            && 3 * size / 5 >= 100
            && 4 * size / 5 - 3 * size / 5 >= purge + 100
            && size - 4 * size / 5 >= purge + 100
  {
    hide Share;
    ShareIs(size);
  }

  // ----- what the partitions keep apart

  /** Rows of one session are consecutive, as concatenating the recordings makes them. */
  ghost predicate SessionsContiguous(sessions: seq<int>) {
    forall i, j, k | 0 <= i <= j <= k < |sessions| && sessions[i] == sessions[k] :: sessions[j] == sessions[i]
  }

  ghost predicate Disjoint(a: Interval, b: Interval, sessions: seq<int>) {
    SessionsIn(sessions, a) !! SessionsIn(sessions, b)
  }

  lemma CutSeparatesSessions(sessions: seq<int>, runs: seq<Run>, t: nat, a: Interval, b: Interval)
    requires RunsTile(runs, sessions, |sessions|) && SessionsContiguous(sessions) && 0 < t < |runs|
    requires a.stop <= runs[t - 1].stop <= b.start
    ensures Disjoint(a, b, sessions)
  {
    var cut := runs[t - 1].stop;
    assert runs[t].start == cut && cut < runs[t].stop <= |sessions|;
    assert runs[t - 1].start <= cut - 1;
    assert sessions[cut - 1] == runs[t - 1].session && sessions[cut] == runs[t].session;
    forall i, j | a.start <= i < a.stop && b.start <= j < b.stop && j < |sessions| ensures sessions[i] != sessions[j] {
      assert i <= cut - 1 <= j && i <= cut <= j;
    }
  }

  /** A whole-session split covers every row and no session appears in two parts. */
  lemma WholeSessionsShareNothing(split: Split, runs: seq<Run>, sessions: seq<int>)
    requires RunsTile(runs, sessions, |sessions|) && SessionsContiguous(sessions)
    requires BestWholeSessions(split, runs, |sessions|)
    ensures Rows(split.train) + Rows(split.validation) + Rows(split.test) == |sessions|
    ensures Disjoint(split.train, split.validation, sessions) && Disjoint(split.validation, split.test, sessions)
    ensures Disjoint(split.train, split.test, sessions)
  {
    var t: nat, v: nat :| Admissible(runs, |sessions|, t, v)
      && split.train == Interval(0, runs[t - 1].stop)
      && split.validation == Interval(runs[t - 1].stop, runs[v - 1].stop)
      && split.test == Interval(runs[v - 1].stop, |sessions|);
    CutSeparatesSessions(sessions, runs, t, split.train, split.validation);
    CutSeparatesSessions(sessions, runs, t, split.train, split.test);
    CutSeparatesSessions(sessions, runs, v, split.validation, split.test);
  }

  ghost predicate EventsIncrease(sessions: seq<int>, events: seq<int>)
    requires |events| == |sessions|
  {
    forall k | 0 < k < |sessions| && sessions[k - 1] == sessions[k] :: events[k - 1] < events[k]
  }

  lemma {:induction false} EventsAtLeastRowsApart(sessions: seq<int>, events: seq<int>, i: nat, j: nat)
    requires |events| == |sessions| && SessionsContiguous(sessions) && EventsIncrease(sessions, events)
    requires i <= j < |sessions| && sessions[i] == sessions[j]
    ensures events[j] - events[i] >= j - i
    decreases j - i
  {
    if i < j {
      assert sessions[j - 1] == sessions[i];
      EventsAtLeastRowsApart(sessions, events, i, j - 1);
    }
  }

  lemma SharesGrow(size: nat)
    ensures Share(size, 0.6) <= Share(size, 0.8) <= size
  {
  }

  /** A row of an earlier part and one of a later part of the same split. */
  predicate Crosses(s: Split, i: nat, j: nat) {
    || (s.train.start <= i < s.train.stop && s.validation.start <= j < s.validation.stop)
    || (s.validation.start <= i < s.validation.stop && s.test.start <= j < s.test.stop)
    || (s.train.start <= i < s.train.stop && s.test.start <= j < s.test.stop)
  }

  /**
   With the purge of max(horizon, 25), the label window of an earlier part ends before the events of
   a later part of the same session, and no lookback of the later part reaches the earlier one.
   */
  lemma PurgeSeparates(split: Split, sessions: seq<int>, events: seq<int>, horizon: nat, i: nat, j: nat)
    requires |events| == |sessions| && SessionsContiguous(sessions) && EventsIncrease(sessions, events)
    requires split.purge == (if horizon > LOOKBACK_EVENTS then horizon else LOOKBACK_EVENTS)
    requires split.train == FallbackTrain(|sessions|)
    requires split.validation == FallbackValidation(|sessions|, split.purge)
    requires split.test == FallbackTest(|sessions|, split.purge)
    requires Crosses(split, i, j) && sessions[i] == sessions[j]
    ensures events[i] + horizon < events[j]
    ensures events[i] < events[j] - LOOKBACK_EVENTS
  {
    SharesGrow(|sessions|);
    hide Share;
    EventsAtLeastRowsApart(sessions, events, i, j);
  }
}
