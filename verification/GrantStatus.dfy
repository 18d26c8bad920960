/**
 What each answer of the deadline check means in every reachable state, read off the observations, the sessions
 and the latches, and that a live grant keeps passing.
 */
module GrantStatus {
  import opened Values
  import opened Deadline
  import opened GrantClock

  /** The current reading of a trusted clock. */
  predicate Reads(clock: Clock, now: Now) {
    && clock.trail != [] && clock.confidence == TrustedLocal
    && now.revision == |clock.trail|
    && clock.trail[now.revision - 1].mono == Some(now.mono)
    && clock.trail[now.revision - 1].wall == Some(now.wall)
    && clock.floor == Some(now.effective)
  }

  /** Every observation from issuance on has a monotonic reading, none of them ahead of the current one. */
  predicate NeverAhead(clock: Clock, issued: int, mono: int) {
    forall i | 0 <= i < |clock.trail| && issued <= i + 1 :: clock.trail[i].mono.Some? && clock.trail[i].mono.value <= mono
  }

  /** The grant can be judged: its owner still holds the lease under the same epoch, time is trusted, the
      owner's session stands at the current reading, monotonic time did not run back since issuance, and no
      expiry is latched. */
  predicate Standing(s: State, grant: string, now: Now) {
    && grant in s.rows && grant !in s.latches
    && var d := s.rows[grant];
       && s.lease == Some(Lease(d.owner, d.epoch))
       && Reads(s.clock, now)
       && d.owner in s.sessions && s.sessions[d.owner] == Session(d.epoch, now.mono, now.wall, now.revision)
       && NeverAhead(s.clock, d.issuedRevision, now.mono)
  }

  lemma TrustedThroughout(c: Clock)
    requires ClockSound(c) && c.confidence == TrustedLocal
    ensures forall i | 0 <= i < |c.trail| :: c.trail[i].confidence == TrustedLocal
  {
  }

  lemma EvidenceIff(text: Text, s: State, grant: string, owner: string, epoch: int, now: Now, linked: bool)
    requires Sound(text, s)
    ensures Evidence(s, grant, owner, epoch, now, linked) <==>
              linked && Standing(s, grant, now) && owner == s.rows[grant].owner && epoch == s.rows[grant].epoch
  {
    if grant in s.rows {
      var d := s.rows[grant];
      assert RowSound(text, s, d);
      DerivedSigns(text, d);
      hide Derive;
      if s.clock.confidence == TrustedLocal && s.clock.trail != [] {
        TrustedThroughout(s.clock);
        assert ReadingOk(s.clock.trail[|s.clock.trail| - 1]);
        assert AtMost(s.clock.trail[d.issuedRevision - 1].floor, s.clock.floor);
      }
    }
  }

  lemma DerivedSigns(text: Text, d: Row)
    requires Derive(text, d.issuedEffective, d.issuedMono, d.approval) == Some(d.prepared)
    ensures 0 <= d.issuedMono && 0 <= d.issuedEffective
    ensures d.approval.Some? ==> d.prepared.requestExpiry.Some? && d.prepared.approvedUntil.Some?
    ensures d.approval.None? ==> d.prepared.requestExpiry.None? && d.prepared.approvedUntil.None?
  {
  }

  /** The deadlines of a sound row are the least cap and the same span on the monotonic clock. */
  lemma Deadlines(text: Text, s: State, grant: string, e: int)
    requires Faithful(text) && Sound(text, s) && grant in s.rows
    requires Least(e, Caps(text, s.rows[grant].issuedEffective, s.rows[grant].approval))
    ensures var d := s.rows[grant];
            && CapsMatch(text, d) && DurationMatches(d) && d.prepared.effectiveExpiry == ShortestCap(d.prepared) == e
            && d.prepared.deadlineMono == d.issuedMono + (e - d.issuedEffective)
  {
    var d := s.rows[grant];
    assert RowSound(text, s, d);
    assert ReadingOk(s.clock.trail[d.issuedRevision - 1]);
    DeriveExact(text, d.issuedEffective, d.issuedMono, d.approval, e);
    DerivedRowMatches(text, d, e);
  }

  lemma StatusOf(text: Text, s: State, grant: string, owner: string, epoch: int, now: Now, linked: bool, e: int)
    requires Faithful(text) && Sound(text, s) && grant in s.rows
    requires Least(e, Caps(text, s.rows[grant].issuedEffective, s.rows[grant].approval))
    ensures var d := s.rows[grant];
            Check(text, s, grant, owner, epoch, now, linked)
            == if !(linked && Standing(s, grant, now) && owner == d.owner && epoch == d.epoch) then InvalidOrIncomplete
               else if now.mono - d.issuedMono >= e - d.issuedEffective then ExpiredMonotonic
               else if now.effective >= e then ExpiredWall
               else Valid
  {
    EvidenceIff(text, s, grant, owner, epoch, now, linked);
    Deadlines(text, s, grant, e);
    hide Evidence, Standing, CapsMatch, DurationMatches, ShortestCap, Sound, Caps, Least;
  }

  /**
   In every reachable state the check answers InvalidOrIncomplete exactly when the grant does not stand, and
   otherwise decides by the two clocks against the least cap, the monotonic one first.
   */
  lemma StatusExact(text: Text, actions: seq<Action>, grant: string, owner: string, epoch: int, now: Now, linked: bool, e: int)
    requires Faithful(text) && forall i | 0 <= i < |actions| :: Parsed(actions[i])
    requires var s := Run(text, START, actions);
             grant in s.rows && Least(e, Caps(text, s.rows[grant].issuedEffective, s.rows[grant].approval))
    ensures var s := Run(text, START, actions);
            var d := s.rows[grant];
            Check(text, s, grant, owner, epoch, now, linked)
            == if !(linked && Standing(s, grant, now) && owner == d.owner && epoch == d.epoch) then InvalidOrIncomplete
               else if now.mono - d.issuedMono >= e - d.issuedEffective then ExpiredMonotonic
               else if now.effective >= e then ExpiredWall
               else Valid
  {
    hide Check, Standing, Caps, Sound, Run;
    StartSound(text);
    RunKeeps(text, START, actions);
    StatusOf(text, Run(text, START, actions), grant, owner, epoch, now, linked, e);
  }

  /** A latch authenticates in every reachable state, for its own owner and epoch and no other. */
  lemma LatchExact(text: Text, actions: seq<Action>, grant: string, owner: string, epoch: int, linked: bool)
    requires forall i | 0 <= i < |actions| :: Parsed(actions[i])
    ensures var s := Run(text, START, actions);
            Authentic(s, grant, owner, epoch, linked) <==>
              linked && grant in s.latches && owner == s.latches[grant].owner && epoch == s.latches[grant].epoch
    ensures var s := Run(text, START, actions);
            grant in s.latches ==>
              && grant in s.rows
              && var x, d := s.latches[grant], s.rows[grant];
                 && x.owner == d.owner && x.epoch == d.epoch
                 && (x.reason == MonotonicDeadline ==> x.now.mono >= d.prepared.deadlineMono)
                 && (x.reason == WallExpiry ==> x.now.effective >= d.prepared.effectiveExpiry)
  {
    StartSound(text);
    RunKeeps(text, START, actions);
    var s := Run(text, START, actions);
    hide Run, ClockSound, RowSound;
    if grant in s.latches { assert LatchSound(s, grant); }
  }

  // ---------------------------------------------------------------- the trusted clock

  /** The recorded high water and the expiry floor are the highest wall reading so far. */
  ghost predicate Highest(c: Clock) {
    && c.floor == c.high
    && (forall i | 0 <= i < |c.trail| :: AtMost(c.trail[i].wall, c.high))
    && (c.high.Some? ==> exists i :: 0 <= i < |c.trail| && c.trail[i].wall == c.high)
  }

  lemma ObserveHighest(c: Clock, sample: Option<Sample>, unresolved: bool)
    requires Highest(c) && Observe(c, sample, unresolved).Some?
    ensures Highest(Observe(c, sample, unresolved).value)
  {
    var after := Observe(c, sample, unresolved).value;
    if after.high == c.high && c.high.Some? {
      var i :| 0 <= i < |c.trail| && c.trail[i].wall == c.high;
      assert after.trail[i].wall == after.high;
    } else if after.high.Some? {
      assert after.trail[|c.trail|].wall == after.high;
    }
  }

  /** The sample does not settle the time: it is flagged, absent, or more than two seconds behind an earlier
      wall reading. */
  ghost predicate Doubtful(c: Clock, a: Action) {
    && a.Sampled? && |c.trail| < I64_MAX
    && (|| a.unresolved || a.sample.None?
        || exists i :: 0 <= i < |c.trail| && c.trail[i].wall.Some? && a.sample.value.wall < c.trail[i].wall.value - 2_000_000_000)
  }

  lemma ObserveConfidence(c: Clock, a: Action)
    requires Highest(c) && ClockSound(c) && a.Sampled? && Parsed(a) && |c.trail| < I64_MAX
    ensures Observe(c, a.sample, a.unresolved).Some?
    ensures Observe(c, a.sample, a.unresolved).value.confidence
         == if c.confidence == TimeUncertain || Doubtful(c, a) then TimeUncertain else TrustedLocal
  {
    if a.sample.Some? {
      if i :| 0 <= i < |c.trail| && c.trail[i].wall.Some? && a.sample.value.wall < c.trail[i].wall.value - 2_000_000_000 {
        assert AtMost(c.trail[i].wall, c.high);
      }
      if RolledBack(c, Some(a.sample.value.wall)) {
        var i :| 0 <= i < |c.trail| && c.trail[i].wall == c.high;
        assert c.trail[i].wall.Some?;
      }
    }
  }

  lemma {:induction false} RunHighest(text: Text, actions: seq<Action>)
    ensures Highest(Run(text, START, actions).clock)
  {
    if actions != [] {
      hide Highest, Derive, Check;
      var n := |actions| - 1;
      RunHighest(text, actions[..n]);
      var before := Run(text, START, actions[..n]);
      var a := actions[n];
      if a.Sampled? && Observe(before.clock, a.sample, a.unresolved).Some? {
        ObserveHighest(before.clock, a.sample, a.unresolved);
      }
    }
  }

  lemma OnlySamplesMoveTime(text: Text, s: State, a: Action)
    requires !a.Sampled?
    ensures Next(text, s, a).clock == s.clock
  {
    hide Check, Derive;
  }

  /** Time is uncertain exactly when some sample of the run was doubtful against the readings before it. */
  lemma {:induction false} UncertainIff(text: Text, actions: seq<Action>)
    requires forall i | 0 <= i < |actions| :: Parsed(actions[i])
    ensures Run(text, START, actions).clock.confidence == TimeUncertain <==>
              exists k :: 0 <= k < |actions| && Doubtful(Run(text, START, actions[..k]).clock, actions[k])
  {
    if actions != [] {
      hide Highest, Next, Doubtful, Sound, Extends;
      var n := |actions| - 1;
      assert forall i | 0 <= i < n :: actions[..n][i] == actions[i];
      UncertainIff(text, actions[..n]);
      UncertainSnoc(text, actions);
      assert forall k | 0 <= k < n :: actions[..n][..k] == actions[..k];
      hide Run;
      if k :| 0 <= k < n && Doubtful(Run(text, START, actions[..n][..k]).clock, actions[..n][k]) {
        assert Doubtful(Run(text, START, actions[..k]).clock, actions[k]);
      }
      if k :| 0 <= k <= n && Doubtful(Run(text, START, actions[..k]).clock, actions[k]) {
        if k < n { assert Doubtful(Run(text, START, actions[..n][..k]).clock, actions[..n][k]); }
      }
    }
  }

  lemma UncertainSnoc(text: Text, actions: seq<Action>)
    requires actions != [] && forall i | 0 <= i < |actions| :: Parsed(actions[i])
    ensures var before := Run(text, START, actions[..|actions| - 1]).clock;
            Run(text, START, actions).clock.confidence == TimeUncertain <==>
              before.confidence == TimeUncertain || Doubtful(before, actions[|actions| - 1])
  {
    var n := |actions| - 1;
    assert forall i | 0 <= i < n :: actions[..n][i] == actions[i];
    StartSound(text);
    RunKeeps(text, START, actions[..n]);
    RunHighest(text, actions[..n]);
    var s, a := Run(text, START, actions[..n]), actions[n];
    hide Highest, Run, RowSound, LatchSound, Extends;
    if !a.Sampled? {
      OnlySamplesMoveTime(text, s, a);
    } else if |s.clock.trail| < I64_MAX {
      ObserveConfidence(s.clock, a);
      hide ClockSound;
    }
  }

  // ---------------------------------------------------------------- a live grant keeps passing

  /** One ordinary reading: not behind on either clock by more than the tolerance, and before both deadlines. */
  predicate Ordinary(s: State, grant: string, w: int, ticks: nat) {
    && grant in s.rows && s.clock.floor.Some? && s.clock.trail != [] && s.clock.trail[|s.clock.trail| - 1].mono.Some?
    && InI64(w) && s.clock.floor.value - 2_000_000_000 <= w < s.rows[grant].prepared.effectiveExpiry
    && s.clock.trail[|s.clock.trail| - 1].mono.value <= ticks < s.rows[grant].prepared.deadlineMono
  }

  function Sampling(w: int, ticks: nat): Action {
    Sampled(Some(Sample(w, ticks)), false)
  }

  lemma SampleKeepsStanding(text: Text, s: State, grant: string, now: Now, w: int, ticks: nat)
    requires Sound(text, s) && Highest(s.clock) && Standing(s, grant, now) && Ordinary(s, grant, w, ticks)
    requires |s.clock.trail| < I64_MAX && s.rows[grant].prepared.deadlineMono <= I64_MAX
    requires now.effective < s.rows[grant].prepared.effectiveExpiry
    ensures var after := Next(text, Next(text, s, Sampling(w, ticks)), AdvanceSession);
            var effective := if w < now.effective then now.effective else w;
            && Standing(after, grant, Now(|s.clock.trail| + 1, ticks, w, effective))
            && after.rows == s.rows
  {
    hide Derive, RowSound, LatchSound, ClockSound;
    var d := s.rows[grant];
    SampleIsTrusted(text, s, now, w, ticks);
    var sampled := Next(text, s, Sampling(w, ticks));
    var at := Now(|s.clock.trail| + 1, ticks, w, if w < now.effective then now.effective else w);
    assert Current(sampled.clock) == Some(at);
    forall i | 0 <= i < |sampled.clock.trail| && d.issuedRevision <= i + 1
      ensures sampled.clock.trail[i].mono.Some? && sampled.clock.trail[i].mono.value <= ticks
    {
      if i < |s.clock.trail| { assert sampled.clock.trail[i] == s.clock.trail[i]; }
    }
  }

  lemma SampleIsTrusted(text: Text, s: State, now: Now, w: int, ticks: nat)
    requires Highest(s.clock) && Reads(s.clock, now) && InI64(w) && now.effective - 2_000_000_000 <= w
    requires |s.clock.trail| < I64_MAX && ticks <= I64_MAX
    ensures var sampled := Next(text, s, Sampling(w, ticks));
            var effective := if w < now.effective then now.effective else w;
            && sampled == s.(clock := Clock(TrustedLocal, Some(effective), Some(effective),
                                            s.clock.trail + [Observation(Some(w), Some(ticks), Some(effective), Some(effective), TrustedLocal)]))
  {
  }

  /** In every reachable state a valid grant still passes after one more ordinary sample and the owner's
      session advancing to it. */
  lemma LiveGrantPasses(text: Text, actions: seq<Action>, grant: string, owner: string, epoch: int, now: Now, w: int, ticks: nat)
    requires Faithful(text) && forall i | 0 <= i < |actions| :: Parsed(actions[i])
    requires var s := Run(text, START, actions);
             && Check(text, s, grant, owner, epoch, now, true) == Valid
             && Ordinary(s, grant, w, ticks) && |s.clock.trail| < I64_MAX
    ensures var s := Run(text, START, actions);
            var after := Run(text, START, actions + [Sampling(w, ticks), AdvanceSession]);
            var effective := if w < now.effective then now.effective else w;
            Check(text, after, grant, owner, epoch, Now(now.revision + 1, ticks, w, effective), true) == Valid
  {
    hide Check, Next, Run, Sound, Extends, Highest, Ordinary;
    StartSound(text);
    RunKeeps(text, START, actions);
    RunHighest(text, actions);
    RunTwo(text, START, actions, Sampling(w, ticks), AdvanceSession);
    LiveStep(text, Run(text, START, actions), grant, owner, epoch, now, w, ticks);
  }

  lemma LiveStep(text: Text, s: State, grant: string, owner: string, epoch: int, now: Now, w: int, ticks: nat)
    requires Faithful(text) && Sound(text, s) && Highest(s.clock) && |s.clock.trail| < I64_MAX
    requires Ordinary(s, grant, w, ticks) && Check(text, s, grant, owner, epoch, now, true) == Valid
    ensures var after := Next(text, Next(text, s, Sampling(w, ticks)), AdvanceSession);
            var effective := if w < now.effective then now.effective else w;
            Check(text, after, grant, owner, epoch, Now(now.revision + 1, ticks, w, effective), true) == Valid
  {
    hide Check, Next, Sound, Extends, Highest, Caps, CapsMatch, DurationMatches, ShortestCap, Faithful;
    var d := s.rows[grant];
    var e := LeastCap(text, d.issuedEffective, d.approval);
    StatusOf(text, s, grant, owner, epoch, now, true, e);
    Deadlines(text, s, grant, e);
    hide Least;
    DeadlineFits(text, s, grant);
    SampleKeepsStanding(text, s, grant, now, w, ticks);
    SampleKeepsSound(text, s, w, ticks);
    var after := Next(text, Next(text, s, Sampling(w, ticks)), AdvanceSession);
    var at := Now(now.revision + 1, ticks, w, if w < now.effective then now.effective else w);
    assert Reads(s.clock, now);
    hide Standing, Reads;
    StatusOf(text, after, grant, owner, epoch, at, true, e);
  }

  lemma SampleKeepsSound(text: Text, s: State, w: int, ticks: nat)
    requires Sound(text, s) && InI64(w)
    ensures Sound(text, Next(text, Next(text, s, Sampling(w, ticks)), AdvanceSession))
  {
    hide Sound, Next, Extends;
    NextKeeps(text, s, Sampling(w, ticks));
    NextKeeps(text, Next(text, s, Sampling(w, ticks)), AdvanceSession);
  }

  lemma DeadlineFits(text: Text, s: State, grant: string)
    requires Faithful(text) && Sound(text, s) && grant in s.rows
    ensures s.rows[grant].prepared.deadlineMono <= I64_MAX
  {
    assert RowSound(text, s, s.rows[grant]);
  }

  lemma RunTwo(text: Text, s: State, actions: seq<Action>, a: Action, b: Action)
    ensures Run(text, s, actions + [a, b]) == Next(text, Next(text, Run(text, s, actions), a), b)
  {
    hide Next;
    assert (actions + [a, b])[..|actions| + 1] == actions + [a];
    assert (actions + [a])[..|actions|] == actions;
  }

  // ---------------------------------------------------------------- what opens and issues

  /** A new owner's session opens at the current reading, and a later reading that is not behind advances it. */
  lemma SessionFollows(text: Text, s: State, now: Now)
    requires Sound(text, s) && s.lease.Some? && Reads(s.clock, now)
    ensures var owner, at := s.lease.value.owner, Session(s.lease.value.epoch, now.mono, now.wall, now.revision);
            && (owner !in s.sessions ==> Next(text, s, OpenSession) == s.(sessions := s.sessions[owner := at]))
            && (owner in s.sessions && s.sessions[owner].epoch == at.epoch && s.sessions[owner].mono <= now.mono
                && s.sessions[owner].revision < now.revision ==>
                  Next(text, s, AdvanceSession) == s.(sessions := s.sessions[owner := at]))
  {
    hide RowSound, LatchSound;
    TrustedThroughout(s.clock);
  }

  /** In every reachable state a grant is issued exactly when it is new, the lease holder's session stands at the
      current trusted reading and the caps admit a deadline; its row then names that owner, epoch and reading. */
  lemma IssuedIff(text: Text, actions: seq<Action>, grant: string, approval: Option<Approval>, now: Now, e: int)
    requires Faithful(text) && forall i | 0 <= i < |actions| :: Parsed(actions[i])
    requires var s := Run(text, START, actions); Reads(s.clock, now) && grant !in s.rows && s.lease.Some?
    requires Least(e, Caps(text, now.effective, approval))
    ensures var s := Run(text, START, actions);
            var after := Next(text, s, Issue(grant, approval));
            && (grant in after.rows <==>
                  && s.lease.value.owner in s.sessions
                  && s.sessions[s.lease.value.owner] == Session(s.lease.value.epoch, now.mono, now.wall, now.revision)
                  && Admissible(text, now.effective, now.mono, approval, e))
            && (grant in after.rows ==>
                  var d := after.rows[grant];
                  && d.owner == s.lease.value.owner && d.epoch == s.lease.value.epoch && d.approval == approval
                  && d.issuedRevision == now.revision && d.issuedMono == now.mono && d.issuedWall == now.wall
                  && d.issuedEffective == now.effective && d.prepared.effectiveExpiry == e)
  {
    StartSound(text);
    RunKeeps(text, START, actions);
    IssueStep(text, Run(text, START, actions), grant, approval, now, e);
  }

  lemma IssueStep(text: Text, s: State, grant: string, approval: Option<Approval>, now: Now, e: int)
    requires Faithful(text) && Sound(text, s) && Reads(s.clock, now) && grant !in s.rows && s.lease.Some?
    requires Least(e, Caps(text, now.effective, approval))
    ensures var after := Next(text, s, Issue(grant, approval));
            && (grant in after.rows <==>
                  && s.lease.value.owner in s.sessions
                  && s.sessions[s.lease.value.owner] == Session(s.lease.value.epoch, now.mono, now.wall, now.revision)
                  && Admissible(text, now.effective, now.mono, approval, e))
            && (grant in after.rows ==>
                  var d := after.rows[grant];
                  && d.owner == s.lease.value.owner && d.epoch == s.lease.value.epoch && d.approval == approval
                  && d.issuedRevision == now.revision && d.issuedMono == now.mono && d.issuedWall == now.wall
                  && d.issuedEffective == now.effective && d.prepared.effectiveExpiry == e)
  {
    hide RowSound, LatchSound, Least, Caps, Faithful;
    assert ReadingOk(s.clock.trail[now.revision - 1]);
    assert Current(s.clock) == Some(now);
    DeriveExact(text, now.effective, now.mono, approval, e);
    hide Derive, Admissible, Sound, ClockSound;
  }
}
