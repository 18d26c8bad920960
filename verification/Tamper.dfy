/** How the detached verifier classifies records that were reordered, removed or repeated. */
module Tamper {
  import opened Values
  import opened Journal
  import opened Verify
  import opened Commitment

  /** `s` follows the original for `k` records and then departs from it. */
  predicate DivergesAt(s: seq<Record>, original: seq<Record>, k: nat) {
    && k < |s| && k <= |original|
    && s[..k] == original[..k]
    && (k < |original| ==> s[k] != original[k])
  }

  predicate DrawnFrom(s: seq<Record>, original: seq<Record>) {
    forall i | 0 <= i < |s| :: s[i] in original
  }

  lemma OutOfPlace(env: Env, record: Record, s: string, expected: nat, previous: Option<string>, later: bool)
    requires record.sequence != expected
    ensures VerifyOne(env, record, s, expected, previous, later)
         == Err(Invalid(if record.sequence < expected || later then SequenceOrderInvalid else SequenceGap,
                        Positive(record.sequence), previous))
  {}

  lemma SequenceIsPosition(env: Env, s: string, original: seq<Record>)
    requires Intact(env, s, original)
    ensures forall i | 0 <= i < |original| :: original[i].sequence == i + 1
  {
    hide RecordOk;
    forall i | 0 <= i < |original| ensures original[i].sequence == i + 1 {
      assert Linked(env, s, original, i);
      LinkedView(env, s, original, i);
    }
  }

  /**
   Complete classification of record lists drawn from an intact history: the verdict is decided
   at the first departure, by whether that record was already seen and, if not, by whether the
   expected record still follows.
   */
  lemma DepartureClassified(env: Env, streamId: string, original: seq<Record>, s: seq<Record>, k: nat,
                            checkpoint: Option<Checkpoint>, verifiedAt: string)
    requires RequestOk(env, streamId, verifiedAt, checkpoint)
    requires Intact(env, streamId, original) && DrawnFrom(s, original) && DivergesAt(s, original, k)
    ensures RecordsOutcome(env, s, streamId, checkpoint, verifiedAt)
         == Invalid(if s[k] in original[..k]
                    then if StringField(s[k].event, "event_id").Some? then SchemaInvalid else SequenceOrderInvalid
                    else if k < |original| && original[k] in s[k..] then SequenceOrderInvalid else SequenceGap,
                    Some(s[k].sequence), HashBefore(original, k))
  {
    hide RecordOk, Fold, Events, RequestOk, VerifyOne, StringField, IdsOf, DistinctEventIds, Linked, Intact, Advance;
    IntactPrefix(env, streamId, original, k);
    ScanPrefix(env, streamId, s, checkpoint, k);
    SequenceIsPosition(env, streamId, original);
    SeenIff(env, streamId, original, s, k);
    var m :| 0 <= m < |original| && original[m] == s[k];
    assert m < k ==> original[..k][m] == s[k];
    if m > k { LaterIff(original, s, k); }
    var later := s[k].sequence > k + 1 && AppearsFrom(s, k, k + 1);
    OutOfPlace(env, s[k], streamId, k + 1, HashBefore(s, k), later);
  }

  /** The event ID set reached at the departure recognises exactly a repeated record. */
  lemma SeenIff(env: Env, streamId: string, original: seq<Record>, s: seq<Record>, k: nat)
    requires Intact(env, streamId, original) && k < |s| && k <= |original| && s[..k] == original[..k]
    requires s[k] in original
    ensures var id := StringField(s[k].event, "event_id");
            id.Some? ==> (id.value in IdsOf(s[..k]) <==> s[k] in original[..k])
  {
    hide Linked, Fold, Events, StringField;
    var m :| 0 <= m < |original| && original[m] == s[k];
    var id := StringField(s[k].event, "event_id");
    if id.Some? {
      if s[k] in original[..k] {
        var i :| 0 <= i < k && original[..k][i] == s[k];
        assert StringField(s[..k][i].event, "event_id") == id;
      }
      if id.value in IdsOf(s[..k]) {
        var i :| 0 <= i < |s[..k]| && StringField(s[..k][i].event, "event_id") == Some(id.value);
        assert original[..k][i] == original[i] == s[..k][i];
        assert i == m;
      }
    }
  }

  lemma LaterIff(original: seq<Record>, s: seq<Record>, k: nat)
    requires forall i | 0 <= i < |original| :: original[i].sequence == i + 1
    requires DrawnFrom(s, original) && k < |s| && k < |original|
    ensures AppearsFrom(s, k, k + 1) <==> original[k] in s[k..]
  {
    if AppearsFrom(s, k, k + 1) {
      var j :| k <= j < |s| && s[j].sequence == k + 1;
      assert s[j] in original;
      assert s[k..][j - k] == s[j] == original[k];
    }
    if original[k] in s[k..] {
      var j :| 0 <= j < |s[k..]| && s[k..][j] == original[k];
      assert s[k + j].sequence == k + 1;
    }
  }

  lemma {:induction false} FirstDeparture(original: seq<Record>, s: seq<Record>, from: nat) returns (k: nat)
    requires from <= |s| && from <= |original| && s[..from] == original[..from]
    requires !(s <= original)
    ensures DivergesAt(s, original, k)
    decreases |s| - from
  {
    if from == |s| {
      assert false;
    } else if from == |original| || s[from] != original[from] {
      k := from;
    } else {
      assert s[..from + 1] == s[..from] + [s[from]];
      assert original[..from + 1] == original[..from] + [original[from]];
      k := FirstDeparture(original, s, from + 1);
    }
  }

  lemma DistinctSequences(original: seq<Record>, r: Record, m: nat)
    requires forall i | 0 <= i < |original| :: original[i].sequence == i + 1
    requires m < |original| && original[m] == r
    ensures multiset(original)[r] == 1
  {
    assert original == original[..m] + [r] + original[m + 1..];
    assert r !in original[..m] && r !in original[m + 1..];
  }

  lemma NotRepeated(original: seq<Record>, s: seq<Record>, k: nat)
    requires forall i | 0 <= i < |original| :: original[i].sequence == i + 1
    requires multiset(s) == multiset(original) && k < |s| && k < |original| && s[..k] == original[..k]
    ensures s[k] !in original[..k]
  {
    assert s == s[..k] + s[k..] && s[k..][0] == s[k];
    assert multiset(s) == multiset(s[..k]) + multiset(s[k..]);
    if m :| 0 <= m < k && original[..k][m] == s[k] {
      DistinctSequences(original, s[k], m);
      assert false;
    }
  }

  /** Any reordering that changes something is reported as misordered at the first displaced record. */
  lemma PermutationIsOrderInvalid(env: Env, streamId: string, original: seq<Record>, s: seq<Record>,
                                  checkpoint: Option<Checkpoint>, verifiedAt: string) returns (k: nat)
    requires RequestOk(env, streamId, verifiedAt, checkpoint)
    requires Intact(env, streamId, original) && multiset(s) == multiset(original) && s != original
    ensures DivergesAt(s, original, k)
    ensures RecordsOutcome(env, s, streamId, checkpoint, verifiedAt)
         == Invalid(SequenceOrderInvalid, Some(s[k].sequence), HashBefore(original, k))
  {
    hide Intact, RecordsOutcome, RequestOk;
    SequenceIsPosition(env, streamId, original);
    assert |s| == |original| by { assert |multiset(s)| == |s| && |multiset(original)| == |original|; }
    forall i | 0 <= i < |s| ensures s[i] in original { assert s[i] in multiset(s); }
    k := FirstDeparture(original, s, 0);
    assert s == s[..k] + s[k..] && s[k..][0] == s[k];
    assert multiset(s) == multiset(s[..k]) + multiset(s[k..]);
    assert s[k] !in original[..k] by { NotRepeated(original, s, k); }
    assert original[k] in s[k..] by {
      assert original[k] in multiset(s);
      assert original[k] !in original[..k];
    }
    DepartureClassified(env, streamId, original, s, k, checkpoint, verifiedAt);
  }

  /** The survivors of a deletion, named by their increasing positions in the original. */
  predicate Survivors(original: seq<Record>, s: seq<Record>, kept: seq<nat>) {
    && |kept| == |s|
    && (forall i | 0 <= i < |s| :: kept[i] < |original| && s[i] == original[kept[i]])
    && (forall i, j | 0 <= i < j < |kept| :: kept[i] < kept[j])
  }

  lemma {:induction false} KeptAtLeast(kept: seq<nat>, i: nat)
    requires forall a, b | 0 <= a < b < |kept| :: kept[a] < kept[b]
    requires i < |kept|
    ensures kept[i] >= i
  {
    if i > 0 { KeptAtLeast(kept, i - 1); }
  }

  /** Deleting anything but a suffix is reported as a gap at the first survivor behind the hole. */
  lemma DeletionIsGap(env: Env, streamId: string, original: seq<Record>, s: seq<Record>, kept: seq<nat>,
                      checkpoint: Option<Checkpoint>, verifiedAt: string) returns (k: nat)
    requires RequestOk(env, streamId, verifiedAt, checkpoint)
    requires Intact(env, streamId, original) && Survivors(original, s, kept) && !(s <= original)
    ensures k < |s| && kept[k] > k && (forall i | 0 <= i < k :: kept[i] == i)
    ensures RecordsOutcome(env, s, streamId, checkpoint, verifiedAt)
         == Invalid(SequenceGap, Some(kept[k] + 1), HashBefore(original, k))
  {
    hide Intact, RecordsOutcome, RequestOk;
    SequenceIsPosition(env, streamId, original);
    k := FirstDeparture(original, s, 0);
    KeptAtLeast(kept, k);
    forall i | 0 <= i < k ensures kept[i] == i {
      assert s[i] == s[..k][i] == original[..k][i] == original[i];
      assert original[kept[i]].sequence == kept[i] + 1;
    }
    assert s[k] == original[kept[k]];
    assert s[k] !in original[..k];
    assert original[k] !in s[k..];
    DepartureClassified(env, streamId, original, s, k, checkpoint, verifiedAt);
  }
}
