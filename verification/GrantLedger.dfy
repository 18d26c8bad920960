/** The latch table as the protected admission path updates it. */
module GrantLedger {
  import opened Values
  import opened Deadline
  import opened GrantClock
  import opened GrantStatus

  class Ledger {
    const text: Text
    var clock: Clock
    var lease: Option<Lease>
    var sessions: map<string, Session>
    var rows: map<string, Row>
    var latches: map<string, Latch>

    ghost function Tables(): State
      reads this
    {
      State(clock, lease, sessions, rows, latches)
    }

    constructor (text: Text)
      ensures this.text == text && Tables() == START && Sound(text, Tables())
    {
      this.text := text;
      clock, lease, sessions, rows, latches := Clock(Unassessed, None, None, []), None, map[], map[], map[];
      new;
      StartSound(text);
    }

    /** `check_and_latch_grant_deadline`: an expiry is recorded before the denial is returned. */
    method CheckAndLatchGrant(grant: string, owner: string, epoch: int, now: Now, linked: bool) returns (usable: bool)
      requires Sound(text, Tables())
      modifies this`latches
      ensures Tables() == Latched(text, old(Tables()), grant, owner, epoch, now, linked)
      ensures latches == match Check(text, old(Tables()), grant, owner, epoch, now, linked)
                         case ExpiredMonotonic => old(latches)[grant := Latch(owner, epoch, now, MonotonicDeadline)]
                         case ExpiredWall => old(latches)[grant := Latch(owner, epoch, now, WallExpiry)]
                         case _ => old(latches)
      ensures usable <==> Check(text, old(Tables()), grant, owner, epoch, now, linked) == Valid
      ensures usable ==> Standing(Tables(), grant, now) && !Ended(old(Tables()), grant)
      ensures !usable && Check(text, old(Tables()), grant, owner, epoch, now, linked) != InvalidOrIncomplete ==>
                Authentic(Tables(), grant, owner, epoch, true)
    {
      hide CapsMatch, DurationMatches, ShortestCap, NoLaterReading, Sound, Ended, Authentic, Evidence, Standing;
      ghost var s := Tables();
      if grant !in latches { LatchedAuthentic(text, s, grant, owner, epoch, now, linked); }
      UsableIsOpen(text, s, grant, owner, epoch, now, linked);
      var status := Check(text, State(clock, lease, sessions, rows, latches), grant, owner, epoch, now, linked);
      if status == Valid { return true; }
      if status == InvalidOrIncomplete { return false; }
      var reason := if status == ExpiredMonotonic then MonotonicDeadline else WallExpiry;
      latches := latches[grant := Latch(owner, epoch, now, reason)];
      usable := false;
    }
  }

  lemma UsableIsOpen(text: Text, s: State, grant: string, owner: string, epoch: int, now: Now, linked: bool)
    requires Sound(text, s)
    ensures Check(text, s, grant, owner, epoch, now, linked) == Valid ==> !Ended(s, grant) && Standing(s, grant, now)
    ensures Check(text, s, grant, owner, epoch, now, linked) != InvalidOrIncomplete ==> grant !in s.latches
  {
    EvidenceIff(text, s, grant, owner, epoch, now, linked);
    if Ended(s, grant) { EndedNow(text, s, grant, owner, epoch, now, linked); }
  }
}
