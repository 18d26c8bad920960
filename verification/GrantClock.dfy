/**
 Grant deadlines over whole runs: paired clocks that may regress, an append-only record of
 observations, clock sessions bound to a lease, and a latch for witnessed expiry.
 */
module GrantClock {
  import opened Values
  import opened Deadline

  const ROLLBACK_TOLERANCE_NANOS: int := 2_000_000_000

  datatype Confidence = Unassessed | TrustedLocal | TimeUncertain

  /** One immutable paired observation; `floor` is the effective wall clock used for expiry. */
  datatype Observation = Observation(wall: Option<int>, mono: Option<int>, high: Option<int>, floor: Option<int>,
                                     confidence: Confidence)

  /** The singleton trusted-time row and the audit trail; observation `r` is `trail[r - 1]`. */
  datatype Clock = Clock(confidence: Confidence, high: Option<int>, floor: Option<int>, trail: seq<Observation>)

  /** A parsed sample; ticks beyond a signed 64-bit integer are dropped. */
  datatype Sample = Sample(wall: int, ticks: nat)

  function SaturatingSub(a: int, b: nat): int {
    if a - b < I64_MIN then I64_MIN else a - b
  }

  function MaxOption(a: Option<int>, b: Option<int>): Option<int> {
    if a.Some? && b.Some? then Some(if a.value < b.value then b.value else a.value)
    else if a.Some? then a else b
  }

  function RolledBack(clock: Clock, wall: Option<int>): bool {
    wall.Some? && clock.high.Some? && wall.value < SaturatingSub(clock.high.value, ROLLBACK_TOLERANCE_NANOS)
  }

  /** `apply_sample_in_transaction_with_unresolved`; `None` is an exhausted revision counter. */
  function Observe(clock: Clock, sample: Option<Sample>, unresolved: bool): Option<Clock> {
    if |clock.trail| + 1 > I64_MAX then None
    else
      var wall := if sample.Some? then Some(sample.value.wall) else None;
      var mono := if sample.Some? && sample.value.ticks <= I64_MAX then Some(sample.value.ticks) else None;
      var confidence := if clock.confidence == TimeUncertain || unresolved || wall.None? || RolledBack(clock, wall)
                        then TimeUncertain else TrustedLocal;
      var high := MaxOption(clock.high, wall);
      var floor := MaxOption(clock.floor, high);
      Some(Clock(confidence, high, floor, clock.trail + [Observation(wall, mono, high, floor, confidence)]))
  }

  datatype Lease = Lease(owner: string, epoch: int)

  /** High water of the clock session opened by one owner under one lease epoch. */
  datatype Session = Session(epoch: int, mono: int, wall: int, revision: int)

  /** The paired observation under which a protected transaction runs. */
  datatype Now = Now(revision: int, mono: int, wall: int, effective: int)

  /** The immutable deadline row of a grant; the session is named by its owner. */
  datatype Row = Row(
    prepared: Prepared,
    approval: Option<Approval>,
    owner: string,
    epoch: int,
    issuedRevision: int,
    issuedMono: int,
    issuedWall: int,
    issuedEffective: int
  )

  datatype Reason = MonotonicDeadline | WallExpiry

  datatype Latch = Latch(owner: string, epoch: int, now: Now, reason: Reason)

  datatype State = State(
    clock: Clock,
    lease: Option<Lease>,
    sessions: map<string, Session>,
    rows: map<string, Row>,
    latches: map<string, Latch>
  )

  const START: State := State(Clock(Unassessed, None, None, []), None, map[], map[], map[])

  datatype Status = Valid | ExpiredMonotonic | ExpiredWall | InvalidOrIncomplete

  // ---------------------------------------------------------------- the deadline check

  /** The trail holds a trusted observation with these readings at the revision. */
  predicate Witnessed(clock: Clock, revision: int, mono: int, wall: int, effective: int) {
    && 1 <= revision <= |clock.trail|
    && clock.trail[revision - 1].confidence == TrustedLocal
    && clock.trail[revision - 1].mono == Some(mono)
    && clock.trail[revision - 1].wall == Some(wall)
    && clock.trail[revision - 1].floor == Some(effective)
  }

  /** No trusted observation since issuance was ahead of the monotonic reading, or lacked one. */
  predicate NoLaterReading(clock: Clock, issued: int, revision: int, mono: int) {
    forall i | 0 <= i < |clock.trail| ::
      issued <= i + 1 < revision && clock.trail[i].confidence == TrustedLocal
      ==> clock.trail[i].mono.Some? && clock.trail[i].mono.value <= mono
  }

  /** The joined evidence row exists; `linked` stands for the grant, receipt and approval joins. */
  predicate Evidence(s: State, grant: string, owner: string, epoch: int, now: Now, linked: bool) {
    && linked && grant in s.rows
    && var d := s.rows[grant];
       && d.owner == owner && d.epoch == epoch
       && s.lease == Some(Lease(owner, epoch))
       && owner in s.sessions && s.sessions[owner] == Session(epoch, now.mono, now.wall, now.revision)
       && Witnessed(s.clock, d.issuedRevision, d.issuedMono, d.issuedWall, d.issuedEffective)
       && s.clock.confidence == TrustedLocal && |s.clock.trail| == now.revision
       && s.clock.floor == Some(now.effective)
       && Witnessed(s.clock, now.revision, now.mono, now.wall, now.effective)
       && d.issuedRevision <= now.revision && d.issuedMono <= now.mono && d.issuedEffective <= now.effective
       && 0 <= d.issuedMono && 0 <= d.issuedEffective
       && (d.approval.Some? ==> d.prepared.requestExpiry.Some? && d.prepared.approvedUntil.Some?)
       && (d.approval.None? ==> d.prepared.requestExpiry.None? && d.prepared.approvedUntil.None?)
       && grant !in s.latches
       && NoLaterReading(s.clock, d.issuedRevision, now.revision, now.mono)
  }

  predicate CapsMatch(text: Text, d: Row) {
    && text.parse(d.prepared.grantExpiresAt) == Some(d.prepared.grantExpiry)
    && (if d.approval.Some? then text.parse(d.approval.value.requestExpiresAt) else None) == d.prepared.requestExpiry
    && (if d.approval.Some? then text.parse(d.approval.value.approvedUntil) else None) == d.prepared.approvedUntil
  }

  predicate DurationMatches(d: Row) {
    var ttl := CheckedSub(d.prepared.effectiveExpiry, d.issuedEffective);
    ttl.Some? && ttl.value > 0 && CheckedAdd(d.issuedMono, ttl.value) == Some(d.prepared.deadlineMono)
  }

  function ShortestCap(p: Prepared): int {
    Min(Min(p.grantExpiry, if p.requestExpiry.Some? then p.requestExpiry.value else I64_MAX),
        if p.approvedUntil.Some? then p.approvedUntil.value else I64_MAX)
  }

  /** `check_grant_deadline`. */
  function Check(text: Text, s: State, grant: string, owner: string, epoch: int, now: Now, linked: bool): Status {
    if !Evidence(s, grant, owner, epoch, now, linked) then InvalidOrIncomplete
    else
      var d := s.rows[grant];
      if !CapsMatch(text, d) || !DurationMatches(d) || d.prepared.effectiveExpiry != ShortestCap(d.prepared)
      then InvalidOrIncomplete
      else if now.mono >= d.prepared.deadlineMono then ExpiredMonotonic
      else if now.effective >= d.prepared.effectiveExpiry then ExpiredWall
      else Valid
  }

  /** The latch table after `check_and_latch_grant_deadline`. */
  function Latched(text: Text, s: State, grant: string, owner: string, epoch: int, now: Now, linked: bool): State {
    match Check(text, s, grant, owner, epoch, now, linked)
    case ExpiredMonotonic => s.(latches := s.latches[grant := Latch(owner, epoch, now, MonotonicDeadline)])
    case ExpiredWall => s.(latches := s.latches[grant := Latch(owner, epoch, now, WallExpiry)])
    case _ => s
  }

  /** `authenticated_expiry_latch`. */
  predicate Authentic(s: State, grant: string, owner: string, epoch: int, linked: bool) {
    && linked && grant in s.latches && grant in s.rows
    && var x, d := s.latches[grant], s.rows[grant];
       && x.owner == owner == d.owner && x.epoch == epoch == d.epoch
       && owner in s.sessions && s.sessions[owner].epoch == epoch
       && Witnessed(s.clock, x.now.revision, x.now.mono, x.now.wall, x.now.effective)
       && s.sessions[owner].revision >= x.now.revision && s.sessions[owner].mono >= x.now.mono
       && match x.reason
          case MonotonicDeadline => x.now.mono >= d.prepared.deadlineMono
          case WallExpiry => x.now.effective >= d.prepared.effectiveExpiry
  }

  // ---------------------------------------------------------------- steps

  datatype Action =
    | Sampled(sample: Option<Sample>, unresolved: bool)
    | Claimed(lease: Lease)
    | OpenSession
    | AdvanceSession
    | Issue(grant: string, approval: Option<Approval>)
    | CheckAndLatch(grant: string, now: Now, linked: bool)

  /** The current trusted paired observation, under which protected steps run. */
  function Current(clock: Clock): Option<Now> {
    var n := |clock.trail|;
    if n == 0 || clock.confidence != TrustedLocal then None
    else
      var o := clock.trail[n - 1];
      if o.confidence == TrustedLocal && o.mono.Some? && o.wall.Some? && o.floor.Some?
      then Some(Now(n, o.mono.value, o.wall.value, o.floor.value)) else None
  }

  function Next(text: Text, s: State, a: Action): State {
    match a
    case Sampled(sample, unresolved) =>
      (match Observe(s.clock, sample, unresolved) case Some(clock) => s.(clock := clock) case None => s)
    case Claimed(lease) => s.(lease := Some(lease))
    case OpenSession =>
      var now := Current(s.clock);
      if now.Some? && s.lease.Some? && s.lease.value.owner !in s.sessions
      then s.(sessions := s.sessions[s.lease.value.owner :=
                Session(s.lease.value.epoch, now.value.mono, now.value.wall, now.value.revision)])
      else s
    case AdvanceSession =>
      var now := Current(s.clock);
      if now.Some? && s.lease.Some? && s.lease.value.owner in s.sessions
         && var c := s.sessions[s.lease.value.owner];
            c.epoch == s.lease.value.epoch && c.mono <= now.value.mono && c.revision < now.value.revision
      then s.(sessions := s.sessions[s.lease.value.owner :=
                Session(s.lease.value.epoch, now.value.mono, now.value.wall, now.value.revision)])
      else s
    case Issue(grant, approval) =>
      var now := Current(s.clock);
      if now.Some? && s.lease.Some? && grant !in s.rows
         && s.lease.value.owner in s.sessions
         && s.sessions[s.lease.value.owner]
            == Session(s.lease.value.epoch, now.value.mono, now.value.wall, now.value.revision)
         && Derive(text, now.value.effective, now.value.mono, approval).Some?
      then s.(rows := s.rows[grant := Row(Derive(text, now.value.effective, now.value.mono, approval).value, approval,
                                          s.lease.value.owner, s.lease.value.epoch, now.value.revision,
                                          now.value.mono, now.value.wall, now.value.effective)])
      else s
    case CheckAndLatch(grant, now, linked) =>
      if s.lease.Some? then Latched(text, s, grant, s.lease.value.owner, s.lease.value.epoch, now, linked) else s
  }

  function Run(text: Text, s: State, actions: seq<Action>): State {
    if actions == [] then s
    else Next(text, Run(text, s, actions[..|actions| - 1]), actions[|actions| - 1])
  }

  // ---------------------------------------------------------------- the invariant

  /** `a` is recorded and `b` is no smaller. */
  predicate AtMost(a: Option<int>, b: Option<int>) {
    a.Some? ==> b.Some? && a.value <= b.value
  }

  /** The clock row equals the trail's tail, floors never fall and uncertainty is never cleared. */
  ghost predicate ClockSound(c: Clock) {
    && (c.trail == [] ==> c.confidence == Unassessed && c.high.None? && c.floor.None?)
    && (c.trail != [] ==>
          var o := c.trail[|c.trail| - 1];
          c.confidence == o.confidence && c.high == o.high && c.floor == o.floor)
    && (forall i | 0 <= i < |c.trail| :: AtMost(c.trail[i].floor, c.floor))
    && (forall i | 0 <= i < |c.trail| :: c.trail[i].confidence == TimeUncertain ==> c.confidence == TimeUncertain)
    && (forall i | 0 <= i < |c.trail| :: c.trail[i].confidence != Unassessed)
    && |c.trail| <= I64_MAX
    && (forall i | 0 <= i < |c.trail| :: ReadingOk(c.trail[i]))
  }

  ghost predicate ReadingOk(o: Observation) {
    && (o.mono.Some? ==> 0 <= o.mono.value <= I64_MAX)
    && (o.floor.Some? ==> InI64(o.floor.value))
    && (o.high.Some? ==> InI64(o.high.value))
    && (o.confidence == TrustedLocal ==> o.wall.Some? && o.floor.Some?)
  }

  /** Every deadline row was derived from the trusted observation it names. */
  ghost predicate RowSound(text: Text, s: State, d: Row) {
    && Witnessed(s.clock, d.issuedRevision, d.issuedMono, d.issuedWall, d.issuedEffective)
    && Derive(text, d.issuedEffective, d.issuedMono, d.approval) == Some(d.prepared)
  }

  ghost predicate LatchSound(s: State, grant: string) {
    grant in s.latches && Authentic(s, grant, s.latches[grant].owner, s.latches[grant].epoch, true)
  }

  ghost predicate Sound(text: Text, s: State) {
    && ClockSound(s.clock)
    && (forall g | g in s.rows :: RowSound(text, s, s.rows[g]))
    && (forall g | g in s.latches :: LatchSound(s, g))
  }

  /** Wall samples come from the RFC 3339 parser, so they fit a signed 64-bit integer. */
  predicate Parsed(a: Action) {
    a.Sampled? && a.sample.Some? ==> InI64(a.sample.value.wall)
  }

  /** What later states keep of earlier ones. */
  ghost predicate Extends(s: State, t: State) {
    && |s.clock.trail| <= |t.clock.trail|
    && s.clock.trail == t.clock.trail[..|s.clock.trail|]
    && AtMost(s.clock.floor, t.clock.floor)
    && (s.clock.confidence == TimeUncertain ==> t.clock.confidence == TimeUncertain)
    && (forall g | g in s.rows :: g in t.rows && t.rows[g] == s.rows[g])
    && (forall g | g in s.latches :: g in t.latches && t.latches[g] == s.latches[g])
    && (forall o | o in s.sessions :: o in t.sessions && t.sessions[o].epoch == s.sessions[o].epoch
                                      && s.sessions[o].mono <= t.sessions[o].mono
                                      && s.sessions[o].revision <= t.sessions[o].revision)
  }

  lemma ObserveKeeps(c: Clock, sample: Option<Sample>, unresolved: bool)
    requires ClockSound(c) && Observe(c, sample, unresolved).Some?
    requires sample.Some? ==> InI64(sample.value.wall)
    ensures var after := Observe(c, sample, unresolved).value;
            && ClockSound(after)
            && |after.trail| == |c.trail| + 1 && after.trail[..|c.trail|] == c.trail
            && AtMost(c.floor, after.floor)
            && (c.confidence == TimeUncertain ==> after.confidence == TimeUncertain)
  {
  }

  lemma ExtendsSelf(s: State)
    ensures Extends(s, s)
  {
  }

  lemma ExtendsAcross(s: State, t: State, u: State)
    requires Extends(s, t) && Extends(t, u)
    ensures Extends(s, u)
  {
    assert t.clock.trail[..|s.clock.trail|] == u.clock.trail[..|s.clock.trail|];
  }

  lemma NextExtends(text: Text, s: State, a: Action)
    requires ClockSound(s.clock) && Parsed(a)
    ensures Extends(s, Next(text, s, a))
  {
    hide Derive, ClockSound;
    match a
    case Sampled(sample, unresolved) =>
      if Observe(s.clock, sample, unresolved).Some? { ObserveKeeps(s.clock, sample, unresolved); }
    case Claimed(_) =>
    case OpenSession =>
    case AdvanceSession =>
    case Issue(_, _) =>
    case CheckAndLatch(grant, now, linked) =>
  }

  lemma RowStays(text: Text, s: State, t: State, d: Row)
    requires Extends(s, t) && RowSound(text, s, d)
    ensures RowSound(text, t, d)
  {
    hide Derive;
    assert t.clock.trail[d.issuedRevision - 1] == s.clock.trail[d.issuedRevision - 1];
  }

  lemma LatchStays(s: State, t: State, grant: string)
    requires Extends(s, t) && LatchSound(s, grant)
    ensures LatchSound(t, grant)
  {
    var r := s.latches[grant].now.revision;
    assert t.clock.trail[r - 1] == s.clock.trail[r - 1];
  }

  /** A latch written by the check authenticates. */
  lemma LatchedAuthentic(text: Text, s: State, grant: string, owner: string, epoch: int, now: Now, linked: bool)
    requires grant !in s.latches
    ensures var after := Latched(text, s, grant, owner, epoch, now, linked);
            grant in after.latches ==> Authentic(after, grant, owner, epoch, true)
  {
    hide Derive, NoLaterReading, CapsMatch, DurationMatches, ShortestCap;
  }

  lemma NextKeeps(text: Text, s: State, a: Action)
    requires Sound(text, s) && Parsed(a)
    ensures Sound(text, Next(text, s, a)) && Extends(s, Next(text, s, a))
  {
    var after := Next(text, s, a);
    NextExtends(text, s, a);
    NextClock(text, s, a);
    forall g | g in after.rows ensures RowSound(text, after, after.rows[g]) {
      if g in s.rows { RowStays(text, s, after, s.rows[g]); } else { NextRow(text, s, a, g); }
    }
    forall g | g in after.latches ensures LatchSound(after, g) {
      if g in s.latches { LatchStays(s, after, g); } else { NextLatch(text, s, a, g); }
    }
  }

  lemma NextClock(text: Text, s: State, a: Action)
    requires ClockSound(s.clock) && Parsed(a)
    ensures ClockSound(Next(text, s, a).clock)
  {
    hide Derive, ClockSound, Check;
    match a
    case Sampled(sample, unresolved) =>
      if Observe(s.clock, sample, unresolved).Some? { ObserveKeeps(s.clock, sample, unresolved); }
    case Claimed(_) =>
    case OpenSession =>
    case AdvanceSession =>
    case Issue(_, _) =>
    case CheckAndLatch(grant, now, linked) =>
  }

  lemma NextRow(text: Text, s: State, a: Action, g: string)
    requires g !in s.rows && g in Next(text, s, a).rows
    ensures RowSound(text, Next(text, s, a), Next(text, s, a).rows[g])
  {
    hide Derive, Check;
  }

  lemma NextLatch(text: Text, s: State, a: Action, g: string)
    requires g !in s.latches && g in Next(text, s, a).latches
    ensures LatchSound(Next(text, s, a), g)
  {
    hide Derive, Check, Authentic;
    assert a.CheckAndLatch? && a.grant == g && s.lease.Some?;
    LatchedAuthentic(text, s, g, s.lease.value.owner, s.lease.value.epoch, a.now, a.linked);
  }

  /** Every reachable state is sound and keeps the trail, rows, latches and floors of earlier ones. */
  lemma {:induction false} RunKeeps(text: Text, s: State, actions: seq<Action>)
    requires Sound(text, s) && forall i | 0 <= i < |actions| :: Parsed(actions[i])
    ensures Sound(text, Run(text, s, actions)) && Extends(s, Run(text, s, actions))
  {
    hide Sound, Next, Extends;
    ExtendsSelf(s);
    if actions != [] {
      var n := |actions| - 1;
      assert forall i | 0 <= i < n :: actions[..n][i] == actions[i];
      RunKeeps(text, s, actions[..n]);
      var before := Run(text, s, actions[..n]);
      NextKeeps(text, before, actions[n]);
      ExtendsAcross(s, before, Next(text, before, actions[n]));
    }
  }

  lemma StartSound(text: Text)
    ensures Sound(text, START)
  {
  }

  // ---------------------------------------------------------------- expiry is permanent

  /** What has been witnessed by the time of state `s` that ends the grant. */
  ghost predicate Ended(s: State, grant: string) {
    || grant in s.latches
    || s.clock.confidence == TimeUncertain
    || (grant in s.rows && MonotonicSeen(s.clock, s.rows[grant]))
    || (grant in s.rows && s.clock.floor.Some? && s.clock.floor.value >= s.rows[grant].prepared.effectiveExpiry)
  }

  /** An observation since issuance, of any confidence, read the monotonic deadline or later. */
  ghost predicate MonotonicSeen(c: Clock, d: Row) {
    exists i :: 0 <= i < |c.trail| && d.issuedRevision <= i + 1
                && c.trail[i].mono.Some? && c.trail[i].mono.value >= d.prepared.deadlineMono
  }

  lemma EndedNow(text: Text, s: State, grant: string, owner: string, epoch: int, now: Now, linked: bool)
    requires ClockSound(s.clock) && Ended(s, grant)
    ensures Check(text, s, grant, owner, epoch, now, linked) != Valid
  {
    hide Derive, CapsMatch, DurationMatches, ShortestCap;
    if Evidence(s, grant, owner, epoch, now, linked) && MonotonicSeen(s.clock, s.rows[grant]) {
      var d := s.rows[grant];
      var i :| 0 <= i < |s.clock.trail| && d.issuedRevision <= i + 1
               && s.clock.trail[i].mono.Some? && s.clock.trail[i].mono.value >= d.prepared.deadlineMono;
      assert s.clock.trail[i].confidence == TrustedLocal;
      assert now.mono >= d.prepared.deadlineMono;
    }
  }

  lemma EndedStays(s: State, t: State, grant: string)
    requires Extends(s, t) && Ended(s, grant)
    ensures Ended(t, grant)
  {
    if grant in s.rows && MonotonicSeen(s.clock, s.rows[grant]) {
      var d := s.rows[grant];
      var i :| 0 <= i < |s.clock.trail| && d.issuedRevision <= i + 1
               && s.clock.trail[i].mono.Some? && s.clock.trail[i].mono.value >= d.prepared.deadlineMono;
      assert t.clock.trail[i] == s.clock.trail[i];
      assert MonotonicSeen(t.clock, t.rows[grant]);
    }
  }

  /** Once expiry is latched, an observation since issuance reaches the monotonic deadline, the
      effective wall clock reaches the expiry, or time becomes uncertain, no later check of the
      grant answers Valid, however the clocks move and whoever asks. */
  lemma ExpiryIsPermanent(text: Text, before: seq<Action>, later: seq<Action>, grant: string, owner: string, epoch: int,
                          now: Now, linked: bool)
    requires forall i | 0 <= i < |before| :: Parsed(before[i])
    requires forall i | 0 <= i < |later| :: Parsed(later[i])
    requires Ended(Run(text, START, before), grant)
    ensures Check(text, Run(text, Run(text, START, before), later), grant, owner, epoch, now, linked) != Valid
  {
    hide Check, Extends, Ended;
    StartSound(text);
    RunKeeps(text, START, before);
    var s := Run(text, START, before);
    RunKeeps(text, s, later);
    EndedStays(s, Run(text, s, later), grant);
    EndedNow(text, Run(text, s, later), grant, owner, epoch, now, linked);
  }

  /** A denial for expiry is always followed by an ended grant, whose latch authenticates for good. */
  lemma DenialIsLatched(text: Text, before: seq<Action>, later: seq<Action>, grant: string, now: Now, linked: bool)
    requires forall i | 0 <= i < |before| :: Parsed(before[i])
    requires forall i | 0 <= i < |later| :: Parsed(later[i])
    requires var s := Run(text, START, before);
             && s.lease.Some?
             && Check(text, s, grant, s.lease.value.owner, s.lease.value.epoch, now, linked)
                in {ExpiredMonotonic, ExpiredWall}
    ensures var s := Run(text, START, before);
            var after := Next(text, s, CheckAndLatch(grant, now, linked));
            && Ended(after, grant)
            && Authentic(Run(text, after, later), grant, s.lease.value.owner, s.lease.value.epoch, true)
  {
    hide Check, Run, Next, Authentic, Sound, Extends;
    StartSound(text);
    RunKeeps(text, START, before);
    var s := Run(text, START, before);
    LatchesNow(text, s, grant, now, linked);
    var after := Next(text, s, CheckAndLatch(grant, now, linked));
    NextKeeps(text, s, CheckAndLatch(grant, now, linked));
    RunKeeps(text, after, later);
    LatchRemains(text, after, Run(text, after, later), grant);
  }

  lemma LatchesNow(text: Text, s: State, grant: string, now: Now, linked: bool)
    requires s.lease.Some?
    requires Check(text, s, grant, s.lease.value.owner, s.lease.value.epoch, now, linked) in {ExpiredMonotonic, ExpiredWall}
    ensures var after := Next(text, s, CheckAndLatch(grant, now, linked));
            && grant in after.latches
            && after.latches[grant].owner == s.lease.value.owner && after.latches[grant].epoch == s.lease.value.epoch
  {
    hide Check;
  }

  lemma LatchRemains(text: Text, s: State, t: State, grant: string)
    requires Extends(s, t) && Sound(text, t) && grant in s.latches
    ensures Authentic(t, grant, s.latches[grant].owner, s.latches[grant].epoch, true)
  {
    hide Authentic, ClockSound;
    assert LatchSound(t, grant);
  }

  // ---------------------------------------------------------------- what Valid means

  /** In every reachable state a valid grant is inside every cap and inside 300 seconds of issuance
      on both clocks, and is checked by its own owner under the current lease. */
  lemma ValidIsWithinCaps(text: Text, actions: seq<Action>, grant: string, owner: string, epoch: int, now: Now,
                          linked: bool, cap: int)
    requires Faithful(text) && forall i | 0 <= i < |actions| :: Parsed(actions[i])
    requires var s := Run(text, START, actions);
             && Check(text, s, grant, owner, epoch, now, linked) == Valid
             && grant in s.rows
             && cap in Caps(text, s.rows[grant].issuedEffective, s.rows[grant].approval)
    ensures var s := Run(text, START, actions);
            var d := s.rows[grant];
            && now.effective < cap
            && now.mono - d.issuedMono < cap - d.issuedEffective
            && d.issuedMono <= now.mono < d.issuedMono + LOCAL_ARTIFACT_GRANT_NANOS
            && s.lease == Some(Lease(d.owner, d.epoch)) && d.owner == owner && d.epoch == epoch
            && grant !in s.latches
  {
    StartSound(text);
    RunKeeps(text, START, actions);
    var s := Run(text, START, actions);
    hide Run, NoLaterReading, CapsMatch, DurationMatches, ShortestCap, Extends;
    var d := s.rows[grant];
    assert RowSound(text, s, d);
    assert ReadingOk(s.clock.trail[d.issuedRevision - 1]);
    var e := LeastCap(text, d.issuedEffective, d.approval);
    DeriveExact(text, d.issuedEffective, d.issuedMono, d.approval, e);
    hide Derive;
    assert d.issuedEffective + LOCAL_ARTIFACT_GRANT_NANOS in Caps(text, d.issuedEffective, d.approval);
  }

  /** The least cap always exists. */
  ghost function LeastCap(text: Text, now: int, approval: Option<Approval>): (e: int)
    ensures Least(e, Caps(text, now, approval))
  {
    var request := if approval.Some? then text.parse(approval.value.requestExpiresAt) else None;
    var approved := if approval.Some? then text.parse(approval.value.approvedUntil) else None;
    Cap(Cap(now + LOCAL_ARTIFACT_GRANT_NANOS, request), approved)
  }

  /** A grant issued now is valid now: issuance and the check agree on every derived row. */
  lemma IssuedIsValid(text: Text, actions: seq<Action>, grant: string, approval: Option<Approval>)
    requires Faithful(text) && forall i | 0 <= i < |actions| :: Parsed(actions[i])
    requires grant !in Run(text, START, actions).rows
    requires grant in Next(text, Run(text, START, actions), Issue(grant, approval)).rows
    ensures var s := Next(text, Run(text, START, actions), Issue(grant, approval));
            && s.lease.Some? && Current(s.clock).Some?
            && Check(text, s, grant, s.lease.value.owner, s.lease.value.epoch, Current(s.clock).value, true) == Valid
  {
    StartSound(text);
    RunKeeps(text, START, actions);
    var before := Run(text, START, actions);
    NextKeeps(text, before, Issue(grant, approval));
    var s := Next(text, before, Issue(grant, approval));
    hide Run, Extends;
    var d, now := s.rows[grant], Current(s.clock).value;
    assert RowSound(text, s, d);
    assert ReadingOk(s.clock.trail[d.issuedRevision - 1]);
    var e := LeastCap(text, d.issuedEffective, d.approval);
    DeriveExact(text, d.issuedEffective, d.issuedMono, d.approval, e);
    assert grant in before.latches ==> LatchSound(before, grant);
    DerivedRowMatches(text, d, e);
    hide Derive, DurationMatches, CapsMatch, ShortestCap, RowSound;
  }

  lemma DerivedRowMatches(text: Text, d: Row, e: int)
    requires Faithful(text) && InI64(d.issuedEffective) && InI64(d.issuedMono)
    requires Derive(text, d.issuedEffective, d.issuedMono, d.approval) == Some(d.prepared)
    requires Least(e, Caps(text, d.issuedEffective, d.approval))
    ensures CapsMatch(text, d) && DurationMatches(d) && d.prepared.effectiveExpiry == ShortestCap(d.prepared) == e
  {
    DeriveExact(text, d.issuedEffective, d.issuedMono, d.approval, e);
  }
}
