/** The classification of a curve's facts, and of a whole history of them. */
module RegimeVerdict {
  import opened Drawdown
  import opened RegimeFacts
  import opened RegimeReplay
  import opened Wrappers

  datatype Direction = Up | Down | Flat | Mixed

  /** Trend and endpoint change of one window, both per 30 days. */
  datatype Metric = Metric(trend: real, endpoint: real)

  datatype Windows = Windows(w28: Metric, w14: Metric, w7: Metric, pre: Option<Metric>)

  function Near(x: real, epsilon: real): bool {
    -epsilon <= x <= epsilon
  }

  function DirectionOf(m: Metric, epsilon: real): Direction {
    if m.trend > epsilon && m.endpoint > epsilon then Up
    else if m.trend < -epsilon && m.endpoint < -epsilon then Down
    else if Near(m.trend, epsilon) && Near(m.endpoint, epsilon) then Flat
    else Mixed
  }

  datatype Family = Absolute | Relative | Unknown

  datatype Settings = Settings(epsilon: real, family: Family, tolerance: real)

  datatype Status = Unrated | Declining | Unresolved | Resumed | Weakening | Growing | Stalled

  datatype Cause = NotReady | RecentFall | RecentFallUnproven | NotUp28 | DownBefore28 | ProvedResumption | AllUpStaged
    | ResumptionUnproven | Paused

  datatype Verdict = Verdict(status: Status, pass: bool, cause: Cause)

  datatype UnknownFamily = UnknownFamily

  function Slow(w: Windows, s: Settings): bool
    requires !s.family.Unknown?
  {
    if s.family.Absolute? then w.w28.trend - w.w14.trend > s.tolerance && w.w28.trend - w.w7.trend > s.tolerance
    else w.w14.trend < w.w28.trend * (1.0 - s.tolerance) && w.w7.trend < w.w28.trend * (1.0 - s.tolerance)
  }

  predicate AllStages(f: Facts)
    requires f.Ready?
  {
    f.stages.from28.count > 0 && f.stages.from14.count > 0 && f.stages.from7.count > 0
  }

  predicate Weekly(f: Facts, w: Windows, s: Settings)
    requires f.Ready?
  {
    DirectionOf(w.w7, s.epsilon) == Up && f.held
  }

  predicate Growth(f: Facts, w: Windows, s: Settings)
    requires f.Ready?
  {
    && DirectionOf(w.w28, s.epsilon) == Up && DirectionOf(w.w14, s.epsilon) == Up && Weekly(f, w, s)
    && (w.pre == None || DirectionOf(w.pre.value, s.epsilon) == Up) && AllStages(f)
  }

  /** `classify`; `prior` holds the statuses of the earlier snapshots. */
  function Classify(f: Facts, w: Windows, s: Settings, prior: seq<Status>): Result<Verdict, UnknownFamily>
    requires f.Ready? ==> f.dd14.Some? && f.dd7.Some?
  {
    if !f.Ready? then Ok(Verdict(Unrated, false, NotReady))
    else
      var fall := Max(f.dd14.value, f.dd7.value);
      var stalled, resumed := Stalled in prior, Resumed in prior;
      if fall >= 23.0 && f.severe then Ok(Verdict(Declining, false, RecentFall))
      else if fall >= 23.0 then Ok(Verdict(Unresolved, false, RecentFallUnproven))
      else if DirectionOf(w.w28, s.epsilon) != Up then Ok(Verdict(Unresolved, false, NotUp28))
      else if w.pre.Some? && DirectionOf(w.pre.value, s.epsilon) == Down
      then Ok(Verdict(Unresolved, false, DownBefore28))
      else if Weekly(f, w, s) && stalled && (!resumed || !Growth(f, w, s))
      then Ok(Verdict(Resumed, true, ProvedResumption))
      else if Growth(f, w, s) && (!stalled || resumed) then
        if s.family.Unknown? then Err(UnknownFamily)
        else Ok(Verdict(if Slow(w, s) then Weakening else Growing, true, AllUpStaged))
      else if Weekly(f, w, s) && (!stalled || resumed) then Ok(Verdict(Unresolved, false, ResumptionUnproven))
      else Ok(Verdict(Stalled, true, Paused))
  }

  // ----- The same by conditions, whatever the order of the branches

  /** The four directions exclude each other for any tolerance that is not negative. */
  lemma DirectionMeans(m: Metric, epsilon: real)
    requires epsilon >= 0.0
    ensures DirectionOf(m, epsilon) == Up <==> m.trend > epsilon && m.endpoint > epsilon
    ensures DirectionOf(m, epsilon) == Down <==> m.trend < -epsilon && m.endpoint < -epsilon
    ensures (DirectionOf(m, epsilon) == Flat <==>
        -epsilon <= m.trend <= epsilon && -epsilon <= m.endpoint <= epsilon)
  {
  }

  ghost predicate GoesUp(m: Metric, s: Settings) {
    m.trend > s.epsilon && m.endpoint > s.epsilon
  }

  /** A tolerance below zero could satisfy both; rising comes first. */
  ghost predicate GoesDown(m: Metric, s: Settings) {
    m.trend < -s.epsilon && m.endpoint < -s.epsilon && !GoesUp(m, s)
  }

  /** Neither a recent fall nor a direction stands against the curve. */
  ghost predicate Clear(f: Facts, w: Windows, s: Settings)
    requires f.Ready? && f.dd14.Some? && f.dd7.Some?
  {
    && f.dd14.value < 23.0 && f.dd7.value < 23.0
    && GoesUp(w.w28, s) && (w.pre.Some? ==> !GoesDown(w.pre.value, s))
  }

  ghost predicate BreaksOut(f: Facts, w: Windows, s: Settings)
    requires f.Ready?
  {
    GoesUp(w.w7, s) && f.held
  }

  ghost predicate Grows(f: Facts, w: Windows, s: Settings)
    requires f.Ready?
  {
    && GoesUp(w.w28, s) && GoesUp(w.w14, s) && GoesUp(w.w7, s) && (w.pre.Some? ==> GoesUp(w.pre.value, s)) && f.held
    && f.stages.from28.count > 0 && f.stages.from14.count > 0 && f.stages.from7.count > 0
  }

  ghost predicate SlowsDown(w: Windows, s: Settings) {
    if s.family == Absolute then w.w14.trend + s.tolerance < w.w28.trend && w.w7.trend + s.tolerance < w.w28.trend
    else w.w14.trend < w.w28.trend * (1.0 - s.tolerance) && w.w7.trend < w.w28.trend * (1.0 - s.tolerance)
  }

  /** When each verdict is given: a clear curve counts as paused exactly when it does not break out, as resumed when
      it does after a stall that growth has not overcome since, and growth counts only without an open stall. */
  lemma ClassifyMeans(f: Facts, w: Windows, s: Settings, prior: seq<Status>)
    requires f.Ready? && f.dd14.Some? && f.dd7.Some?
    ensures var r := Classify(f, w, s, prior); var fell := f.dd14.value >= 23.0 || f.dd7.value >= 23.0;
      var open := Stalled in prior && Resumed !in prior;
      && (r == Ok(Verdict(Declining, false, RecentFall)) <==> fell && f.severe)
      && (r == Ok(Verdict(Unresolved, false, RecentFallUnproven)) <==> fell && !f.severe)
      && (r == Ok(Verdict(Unresolved, false, NotUp28)) <==> !fell && !GoesUp(w.w28, s))
      && (r == Ok(Verdict(Unresolved, false, DownBefore28)) <==>
            !fell && GoesUp(w.w28, s) && w.pre.Some? && GoesDown(w.pre.value, s))
      && (r == Ok(Verdict(Stalled, true, Paused)) <==> Clear(f, w, s) && !BreaksOut(f, w, s))
      && (r == Ok(Verdict(Resumed, true, ProvedResumption)) <==>
            Clear(f, w, s) && BreaksOut(f, w, s) && (open || (Stalled in prior && !Grows(f, w, s))))
      && (r == Ok(Verdict(Unresolved, false, ResumptionUnproven)) <==>
            Clear(f, w, s) && BreaksOut(f, w, s) && !Grows(f, w, s) && Stalled !in prior)
      && (r == Ok(Verdict(Weakening, true, AllUpStaged)) <==>
            Clear(f, w, s) && Grows(f, w, s) && !open && s.family != Unknown && SlowsDown(w, s))
      && (r == Ok(Verdict(Growing, true, AllUpStaged)) <==>
            Clear(f, w, s) && Grows(f, w, s) && !open && s.family != Unknown && !SlowsDown(w, s))
      && (r.Err? <==> Clear(f, w, s) && Grows(f, w, s) && !open && s.family == Unknown)
  {
    forall m: Metric
      ensures DirectionOf(m, s.epsilon) == Up <==> GoesUp(m, s)
      ensures DirectionOf(m, s.epsilon) == Down <==> GoesDown(m, s)
    {
    }
    hide DirectionOf;
    assert s.family != Unknown ==> (Slow(w, s) <==> SlowsDown(w, s));
    assert Growth(f, w, s) <==> Grows(f, w, s);
    assert Weekly(f, w, s) <==> BreaksOut(f, w, s);
    hide Slow, SlowsDown, Growth, Grows, Weekly, BreaksOut;
  }

  datatype Snapshot = Snapshot(points: seq<Point>, end: int, cached: bool, windows: Windows)

  ghost predicate Usable(shot: Snapshot) {
    Sound(shot.points) && EndsBy(shot.points, shot.end)
  }

  ghost function FactsIn(shot: Snapshot, quality: Oracle): (f: Facts)
    requires Usable(shot)
    ensures f.Ready? ==>
      f.dd14.Some? && f.dd7.Some? && f.dd7.value <= f.dd14.value && (f.severe ==> f.dd14.value >= 23.0)
    ensures f.Ready? ==> f.hwm7.Some? && (f.held <==> f.close > f.hwm7.value.value)
  {
    var f := FactsOf(shot.points, shot.end, shot.cached, quality);
    if f.Ready? then
      DrawdownsNest(shot.points, shot.end);
      HeldIsCloseAboveMark(shot.points, shot.end);
      f
    else f
  }

  /** One classification, read off the curve: a decline is exactly the severity flag, growth needs
      three rising marks and a close above the last of them, and a resumption needs that close. */
  lemma VerdictMeans(shot: Snapshot, quality: Oracle, s: Settings, prior: seq<Status>)
    requires Usable(shot)
    ensures var f := FactsIn(shot, quality); var r := Classify(f, shot.windows, s, prior);
      && (r.Ok? && r.value.status == Declining <==> f.Ready? && f.severe)
      && (r.Err? || r.value.status == Growing || r.value.status == Weakening ==>
          f.Ready? && Rises(f.hwm28, f.hwm14) && Rises(f.hwm14, f.hwm7) && Rises(f.hwm7, f.hwm0) &&
          Above(f.close, f.hwm7) && f.dd14.value < 23.0)
      && (r.Ok? && r.value.status == Resumed ==>
        f.Ready? && Above(f.close, f.hwm7) && f.dd14.value < 23.0 && Stalled in prior)
      && (r.Ok? && r.value.cause == ResumptionUnproven ==> Stalled !in prior)
  {
    var f := FactsIn(shot, quality);
    if f.Ready? {
      StageCountsAreRises(shot.points, shot.end);
    }
    hide FactsOf, ReadyFacts, DirectionOf, Slow, EndsBy, Sound;
  }

  /** The facts and window metrics of one moment of a history. */
  datatype Moment = Moment(facts: Facts, windows: Windows)

  ghost predicate StepOf(m: Moment, s: Settings, prior: seq<Status>, status: Status) {
    && (m.facts.Ready? ==> m.facts.dd14.Some? && m.facts.dd7.Some?)
    && Classify(m.facts, m.windows, s, prior).Ok? && Classify(m.facts, m.windows, s, prior).value.status == status
  }

  /** `statuses` is a run: each moment is classified with the statuses before it. */
  ghost predicate IsRun(moments: seq<Moment>, s: Settings, statuses: seq<Status>) {
    && |statuses| == |moments|
    && (forall k :: 0 <= k < |moments| ==> StepOf(moments[k], s, statuses[..k], statuses[k]))
  }

  lemma StepLaws(m: Moment, s: Settings, prior: seq<Status>, status: Status)
    requires StepOf(m, s, prior, status)
    ensures status == Resumed ==> Stalled in prior
    ensures (status == Growing || status == Weakening) && Stalled in prior ==> Resumed in prior
  {
    hide DirectionOf, Slow;
  }

  /** In a run every resumption has a stall before it. */
  lemma ResumedHadStalled(moments: seq<Moment>, s: Settings, statuses: seq<Status>, k: nat)
    requires IsRun(moments, s, statuses) && k < |statuses| && statuses[k] == Resumed
    ensures exists h :: 0 <= h < k && statuses[h] == Stalled
  {
    var prior := statuses[..k];
    assert StepOf(moments[k], s, prior, statuses[k]);
    hide *;
    StepLaws(moments[k], s, prior, statuses[k]);
    var h :| 0 <= h < |prior| && prior[h] == Stalled;
    assert statuses[h] == Stalled;
  }

  /** After a stall nothing in a run counts as growing or weakening until a stall has been followed by
      a proved resumption. */
  lemma StallsNeedResumption(moments: seq<Moment>, s: Settings, statuses: seq<Status>, i: nat, k: nat)
    requires IsRun(moments, s, statuses) && i < k < |statuses|
    requires statuses[i] == Stalled && (statuses[k] == Growing || statuses[k] == Weakening)
    ensures exists h, j :: 0 <= h < j < k && statuses[h] == Stalled && statuses[j] == Resumed
  {
    var prior := statuses[..k];
    assert StepOf(moments[k], s, prior, statuses[k]);
    hide *;
    StepLaws(moments[k], s, prior, statuses[k]);
    assert prior[i] == Stalled;
    var j :| 0 <= j < |prior| && prior[j] == Resumed;
    assert statuses[j] == Resumed;
    ResumedHadStalled(moments, s, statuses, j);
  }

  /** One resumption licenses growth for good: with it in the history a snapshot that meets the growth
      conditions is judged as if there were no history, however often the curve has stalled since. */
  lemma ResumptionIsForever(f: Facts, w: Windows, s: Settings, prior: seq<Status>)
    requires f.Ready? && f.dd14.Some? && f.dd7.Some? && Growth(f, w, s)
    ensures Classify(f, w, s, prior) == Classify(f, w, s, []) <==>
      || Stalled !in prior || Resumed in prior || Max(f.dd14.value, f.dd7.value) >= 23.0
  {
    hide DirectionOf, Slow;
  }
}
