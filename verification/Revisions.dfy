/**
 Continuity of Task revisions, read off the events alone: what the revision fold accepts, and that the
 revision of an accepted history is the number of its creations and transitions.
 */
module Revisions {
  import opened Values
  import opened Journal

  predicate IsCreation(e: Json) {
    StringField(e, "event_type") == Some("task.created")
  }

  predicate IsTransition(e: Json) {
    StringField(e, "event_type") == Some("task.transitioned")
  }

  predicate IsRevisionEvent(e: Json) {
    IsCreation(e) || IsTransition(e)
  }

  function PreviousRevision(e: Json): Option<int> { AsU64(Get2(e, "task_transition", "previous_revision")) }

  function NewRevision(e: Json): Option<int> { AsU64(Get2(e, "task_transition", "new_revision")) }

  function PreviousState(e: Json): Option<string> { AsStr(Get2(e, "task_transition", "previous_state")) }

  function NewState(e: Json): Option<string> { AsStr(Get2(e, "task_transition", "new_state")) }

  /** Event `j` is the nearest creation or transition before event `i`. */
  predicate Nearest(events: seq<Json>, j: nat, i: nat) {
    j < i <= |events| && IsRevisionEvent(events[j]) && forall k | j < k < i :: !IsRevisionEvent(events[k])
  }

  /** No creation or transition comes before event `i`. */
  predicate NoneBefore(events: seq<Json>, i: nat) {
    i <= |events| && forall k | 0 <= k < i :: !IsRevisionEvent(events[k])
  }

  /** The transition starts from the revision and state that event `e` left. */
  predicate Follows(e: Json, next: Json) {
    if IsCreation(e) then PreviousRevision(next) == Some(1) && PreviousState(next) == Some("CREATED")
    else PreviousRevision(next) == NewRevision(e) && PreviousState(next) == NewState(e)
  }

  /** The rule for the event at one position. */
  ghost predicate ContinuousAt(events: seq<Json>, i: nat)
    requires i < |events|
  {
    && (IsCreation(events[i]) ==> NoneBefore(events, i))
    && (IsTransition(events[i]) ==>
          && NewRevision(events[i]).Some? && NewState(events[i]).Some?
          && (forall j: nat | Nearest(events, j, i) :: Follows(events[j], events[i]))
          && (NoneBefore(events, i) ==> PreviousRevision(events[i]).None? && PreviousState(events[i]).None?))
  }

  /** A creation comes first among the revision events, and every transition carries a new revision and
      state and starts from what the nearest earlier revision event left. */
  ghost predicate Continuous(events: seq<Json>) {
    forall i: nat | i < |events| :: ContinuousAt(events, i)
  }

  /** The revision that the last revision event left. */
  ghost predicate LeftAs(events: seq<Json>, latest: Option<Revision>) {
    && (NoneBefore(events, |events|) ==> latest.None?)
    && forall j: nat | Nearest(events, j, |events|) ::
         var e := events[j];
         if IsCreation(e) then latest == Some(Revision(1, "CREATED"))
         else latest.Some? && NewRevision(e) == Some(latest.value.number) && NewState(e) == Some(latest.value.state)
  }

  // ---------------------------------------------------------------- one more event

  lemma PrefixPlaces(events: seq<Json>, n: nat, i: nat, j: nat)
    requires i <= n <= |events|
    ensures Nearest(events[..n], j, i) <==> Nearest(events, j, i)
    ensures NoneBefore(events[..n], i) <==> NoneBefore(events, i)
  {
    hide IsRevisionEvent;
  }

  lemma ContinuousPrefix(events: seq<Json>, n: nat, i: nat)
    requires i < n <= |events|
    ensures ContinuousAt(events[..n], i) <==> ContinuousAt(events, i)
  {
    hide IsRevisionEvent, Nearest, NoneBefore, Follows, IsCreation, IsTransition, NewRevision, NewState, PreviousRevision,
         PreviousState;
    forall j: nat ensures Nearest(events[..n], j, i) <==> Nearest(events, j, i) { PrefixPlaces(events, n, i, j); }
    PrefixPlaces(events, n, i, 0);
    assert forall j: nat | Nearest(events, j, i) :: j < n && events[..n][j] == events[j] by { NearestBelow(events, i); }
  }

  lemma NearestBelow(events: seq<Json>, i: nat)
    ensures forall j: nat | Nearest(events, j, i) :: j < i
  {
  }

  lemma {:induction false} SomeNearest(events: seq<Json>, i: nat)
    requires i <= |events| && !NoneBefore(events, i)
    ensures exists j: nat :: Nearest(events, j, i)
  {
    hide IsRevisionEvent;
    if IsRevisionEvent(events[i - 1]) {
      assert Nearest(events, i - 1, i);
    } else {
      SomeNearest(events, i - 1);
      var j: nat :| Nearest(events, j, i - 1);
      assert Nearest(events, j, i);
    }
  }

  lemma OneNearest(events: seq<Json>, i: nat, j: nat, k: nat)
    requires Nearest(events, j, i) && Nearest(events, k, i)
    ensures j == k
  {
    hide IsRevisionEvent;
  }

  lemma LastIsNearest(events: seq<Json>)
    requires events != [] && IsRevisionEvent(events[|events| - 1])
    ensures Nearest(events, |events| - 1, |events|)
    ensures forall k: nat | Nearest(events, k, |events|) :: events[k] == events[|events| - 1]
    ensures !NoneBefore(events, |events|)
  {
    hide IsRevisionEvent;
    assert Nearest(events, |events| - 1, |events|);
    forall k: nat | Nearest(events, k, |events|) ensures k == |events| - 1 {
      OneNearest(events, |events|, |events| - 1, k);
    }
  }

  /** Given what the earlier events left, the step accepts the next event exactly under the rule. */
  lemma AdvanceIff(events: seq<Json>, latest: Option<Revision>)
    requires events != [] && LeftAs(events[..|events| - 1], latest)
    ensures Advance(latest, events[|events| - 1]).Ok? <==> ContinuousAt(events, |events| - 1)
    ensures Advance(latest, events[|events| - 1]).Ok? ==> LeftAs(events, Advance(latest, events[|events| - 1]).value)
  {
    var n := |events| - 1;
    var e := events[n];
    PrefixPlaces(events, n, n, 0);
    if NoneBefore(events, n) {
      FirstRevision(events, latest);
    } else {
      SomeNearest(events, n);
      var j: nat :| Nearest(events, j, n);
      PrefixPlaces(events, n, n, j);
      LaterRevision(events, latest, j);
    }
  }

  lemma FirstRevision(events: seq<Json>, latest: Option<Revision>)
    requires events != [] && NoneBefore(events, |events| - 1) && latest.None?
    ensures var n := |events| - 1;
            && (Advance(latest, events[n]).Ok? <==> ContinuousAt(events, n))
            && (Advance(latest, events[n]).Ok? ==> LeftAs(events, Advance(latest, events[n]).value))
  {
    var n := |events| - 1;
    assert forall j: nat :: !Nearest(events, j, n);
    if IsRevisionEvent(events[n]) {
      LastIsNearest(events);
    } else {
      assert NoneBefore(events, n + 1);
    }
  }

  lemma LaterRevision(events: seq<Json>, latest: Option<Revision>, j: nat)
    requires events != [] && Nearest(events, j, |events| - 1)
    requires var e := events[j];
             if IsCreation(e) then latest == Some(Revision(1, "CREATED"))
             else latest.Some? && NewRevision(e) == Some(latest.value.number) && NewState(e) == Some(latest.value.state)
    ensures var n := |events| - 1;
            && (Advance(latest, events[n]).Ok? <==> ContinuousAt(events, n))
            && (Advance(latest, events[n]).Ok? ==> LeftAs(events, Advance(latest, events[n]).value))
  {
    var n := |events| - 1;
    assert !NoneBefore(events, n) by { assert IsRevisionEvent(events[j]); }
    forall k: nat | Nearest(events, k, n) ensures k == j { OneNearest(events, n, j, k); }
    if IsRevisionEvent(events[n]) {
      LastIsNearest(events);
    } else {
      assert Nearest(events, j, n + 1);
      forall k: nat | Nearest(events, k, |events|) ensures k == j { OneNearest(events, |events|, j, k); }
    }
  }

  // ---------------------------------------------------------------- whole histories

  /** The revision fold accepts exactly the continuous histories, and its value is what the last revision
      event left. */
  lemma {:induction false} FoldIff(events: seq<Json>)
    ensures Fold(events).Ok? <==> Continuous(events)
    ensures Fold(events).Ok? ==> LeftAs(events, Fold(events).value)
  {
    hide Advance, ContinuousAt, LeftAs, Continuous;
    if events == [] {
      NothingLeft();
    } else {
      var n := |events| - 1;
      FoldIff(events[..n]);
      ContinuousSnoc(events);
      if Fold(events[..n]).Ok? { AdvanceIff(events, Fold(events[..n]).value); }
    }
  }

  lemma NothingLeft()
    ensures Continuous([]) && LeftAs([], None)
  {
  }

  lemma ContinuousSnoc(events: seq<Json>)
    requires events != []
    ensures Continuous(events) <==> Continuous(events[..|events| - 1]) && ContinuousAt(events, |events| - 1)
  {
    hide ContinuousAt;
    var n := |events| - 1;
    forall i: nat | i < n ensures ContinuousAt(events[..n], i) <==> ContinuousAt(events, i) {
      ContinuousPrefix(events, n, i);
    }
  }

  /** How many creations and transitions a history has. */
  function RevisionEvents(events: seq<Json>): nat {
    if events == [] then 0
    else RevisionEvents(events[..|events| - 1]) + if IsRevisionEvent(events[|events| - 1]) then 1 else 0
  }

  /** Only the first event is a creation, and every transition adds one to the revision it names. */
  predicate Increments(events: seq<Json>) {
    && (forall i | 0 <= i < |events| :: IsCreation(events[i]) <==> i == 0)
    && (forall i | 0 <= i < |events| && IsTransition(events[i]) :: TransitionIncrements(events[i]))
  }

  /** The revision of an accepted history is the number of its revision events. */
  lemma {:induction false} RevisionIsCount(events: seq<Json>)
    requires Fold(events).Ok? && events != [] && Increments(events)
    ensures Fold(events).value.Some? && Fold(events).value.value.number == RevisionEvents(events) <= U64_MAX
  {
    var n := |events| - 1;
    if n > 0 {
      assert forall i | 0 <= i < n :: events[..n][i] == events[i];
      RevisionIsCount(events[..n]);
    } else {
      assert Fold(events[..0]) == Ok(None);
      assert IsCreation(events[0]);
    }
  }

  /** Every transition starts from the number of revision events before it and adds one: the revisions of a
      history run 1, 2, 3 and so on without a gap. */
  ghost predicate Numbered(events: seq<Json>) {
    forall i | 0 <= i < |events| && IsTransition(events[i]) ::
      && PreviousRevision(events[i]) == Some(RevisionEvents(events[..i]))
      && NewRevision(events[i]) == Some(RevisionEvents(events[..i]) + 1)
  }

  /** A fold that succeeds has succeeded on every prefix. */
  lemma {:induction false} FoldPrefix(events: seq<Json>, k: nat)
    requires k <= |events| && Fold(events).Ok?
    ensures Fold(events[..k]).Ok?
  {
    hide Advance;
    if k < |events| {
      assert events[..|events| - 1][..k] == events[..k];
      FoldPrefix(events[..|events| - 1], k);
    } else {
      assert events[..k] == events;
    }
  }

  lemma RevisionsNumbered(events: seq<Json>)
    requires Fold(events).Ok? && Increments(events)
    ensures Numbered(events)
  {
    forall i | 0 <= i < |events| && IsTransition(events[i])
      ensures PreviousRevision(events[i]) == Some(RevisionEvents(events[..i]))
      ensures NewRevision(events[i]) == Some(RevisionEvents(events[..i]) + 1)
    {
      assert i > 0 by { assert IsCreation(events[0]); }
      FoldPrefix(events, i + 1);
      assert events[..i + 1][..i] == events[..i] && events[..i + 1][i] == events[i];
      RevisionIsCount(events[..i]);
    }
  }
}
