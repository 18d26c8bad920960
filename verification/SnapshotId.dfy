/** The identity of a registry snapshot is a function of its entries, not of their order. */
module SnapshotId {
  import opened Values
  import opened Ordering

  datatype Entry = Entry(id: string, version: string, contentHash: string)

  datatype Version = Version(major: nat, minor: nat, patch: Option<nat>)

  /** The hashed view: two sorted entry lists under one schema version. */
  datatype View = View(types: seq<Entry>, capabilities: seq<Entry>)

  datatype Env = Env(
    parse: string -> Option<Version>,
    idOk: string -> bool,
    hashOk: string -> bool,
    digest: View -> string
  )

  function VersionKey(v: Version, source: string): Key {
    [[v.major], [v.minor], [if v.patch.Some? then v.patch.value else 0], Codes(source)]
  }

  /** The sort key of an entry; unparsed versions never reach the sort. */
  function EntryKey(env: Env, e: Entry): Key {
    var v := env.parse(e.version);
    [Codes(e.id)] + VersionKey(if v.Some? then v.value else Version(0, 0, None), e.version) + [Codes(e.contentHash)]
  }

  function Family(env: Env, e: Entry): (string, nat)
    requires env.parse(e.version).Some?
  {
    (e.id, env.parse(e.version).value.major)
  }

  predicate EntryOk(env: Env, e: Entry) {
    env.idOk(e.id) && env.parse(e.version).Some? && env.hashOk(e.contentHash)
  }

  /** `validate_snapshot_hash_entries`: well-formed entries, each family once. */
  ghost predicate EntriesOk(env: Env, entries: seq<Entry>) {
    && (forall i | 0 <= i < |entries| :: EntryOk(env, entries[i]))
    && forall i, j | 0 <= i < j < |entries| :: Family(env, entries[i]) != Family(env, entries[j])
  }

  method ValidateEntries(env: Env, entries: seq<Entry>) returns (ok: bool)
    ensures ok <==> EntriesOk(env, entries)
  {
    var majors: set<(string, nat)> := {};
    for i := 0 to |entries|
      invariant EntriesOk(env, entries[..i])
      invariant forall k | 0 <= k < i :: EntryOk(env, entries[k])
      invariant majors == set k | 0 <= k < i && EntryOk(env, entries[k]) :: Family(env, entries[k])
    {
      if !EntryOk(env, entries[i]) { return false; }
      if Family(env, entries[i]) in majors { return false; }
      majors := majors + {Family(env, entries[i])};
      assert entries[..i + 1] == entries[..i] + [entries[i]];
    }
    assert entries[..|entries|] == entries;
    ok := true;
  }

  ghost function Id(env: Env, schemaVersion: string, types: seq<Entry>, capabilities: seq<Entry>): Option<string> {
    if schemaVersion != "0.1" || !EntriesOk(env, types) || !EntriesOk(env, capabilities) then None
    else Some(env.digest(ViewOf(env, types, capabilities)))
  }

  function ViewOf(env: Env, types: seq<Entry>, capabilities: seq<Entry>): View {
    View(Sort(types, (e: Entry) => EntryKey(env, e)), Sort(capabilities, (e: Entry) => EntryKey(env, e)))
  }

  /** `registry_snapshot_id`. */
  method RegistrySnapshotId(env: Env, schemaVersion: string, types: seq<Entry>, capabilities: seq<Entry>)
    returns (r: Option<string>)
    ensures r == Id(env, schemaVersion, types, capabilities)
  {
    hide EntriesOk;
    if schemaVersion != "0.1" { return None; }
    var ok := ValidateEntries(env, types);
    if !ok { return None; }
    ok := ValidateEntries(env, capabilities);
    if !ok { return None; }
    r := Some(env.digest(ViewOf(env, types, capabilities)));
  }

  // ---------------------------------------------------------------- order never matters

  /** The key holds the whole entry. */
  lemma KeyHoldsEntry(env: Env, a: Entry, b: Entry)
    requires EntryKey(env, a) == EntryKey(env, b)
    ensures a == b
  {
    var x, y := EntryKey(env, a), EntryKey(env, b);
    assert x[0] == Codes(a.id) && y[0] == Codes(b.id);
    assert x[4] == Codes(a.version) && y[4] == Codes(b.version);
    assert x[5] == Codes(a.contentHash) && y[5] == Codes(b.contentHash);
    CodesInjective(a.id, b.id);
    CodesInjective(a.version, b.version);
    CodesInjective(a.contentHash, b.contentHash);
  }

  /** Sorting entries forgets exactly their order. */
  lemma SortedEntriesIff(env: Env, a: seq<Entry>, b: seq<Entry>)
    ensures Sort(a, (e: Entry) => EntryKey(env, e)) == Sort(b, (e: Entry) => EntryKey(env, e)) <==> multiset(a) == multiset(b)
  {
    var key := (e: Entry) => EntryKey(env, e);
    forall x, y | x in a && y in a && key(x) == key(y) ensures x == y { KeyHoldsEntry(env, x, y); }
    hide EntryKey;
    SortAlike(a, b, key);
  }

  /** Validation does not depend on order either. */
  lemma ValidReordered(env: Env, a: seq<Entry>, b: seq<Entry>)
    requires multiset(a) == multiset(b) && EntriesOk(env, a)
    ensures EntriesOk(env, b)
  {
    forall i | 0 <= i < |b| ensures EntryOk(env, b[i]) {
      assert b[i] in multiset(a);
    }
    forall i, j | 0 <= i < j < |b| ensures Family(env, b[i]) != Family(env, b[j]) {
      if Family(env, b[i]) == Family(env, b[j]) { Twins(env, a, b, i, j); }
    }
  }

  /** Two places of one family in a reordering would be two places in the original. */
  lemma Twins(env: Env, a: seq<Entry>, b: seq<Entry>, i: nat, j: nat)
    requires multiset(a) == multiset(b) && EntriesOk(env, a) && i < j < |b|
    requires EntryOk(env, b[i]) && EntryOk(env, b[j])
    ensures Family(env, b[i]) != Family(env, b[j])
  {
    assert b[i] in multiset(a) && b[j] in multiset(a);
    var p :| 0 <= p < |a| && a[p] == b[i];
    var q :| 0 <= q < |a| && a[q] == b[j];
    if p == q {
      CountTwice(b, i, j);
      Once(env, a, p);
    }
  }

  lemma CountTwice(b: seq<Entry>, i: nat, j: nat)
    requires i < j < |b| && b[i] == b[j]
    ensures multiset(b)[b[i]] >= 2
  {
    assert b == b[..i] + [b[i]] + b[i + 1..j] + [b[j]] + b[j + 1..];
  }

  lemma Once(env: Env, a: seq<Entry>, p: nat)
    requires EntriesOk(env, a) && p < |a|
    ensures multiset(a)[a[p]] == 1
  {
    var before, after := a[..p], a[p + 1..];
    assert a == before + [a[p]] + after;
    assert forall i | 0 <= i < |before| :: Family(env, before[i]) != Family(env, a[p]);
    assert forall i | 0 <= i < |after| :: after[i] == a[p + 1 + i];
    assert a[p] !in before && a[p] !in after;
    assert multiset(before)[a[p]] == 0 && multiset(after)[a[p]] == 0;
  }

  /** Any reordering of the entries, valid or not, gives the same answer. */
  lemma ReorderingKeepsId(env: Env, version: string, t1: seq<Entry>, c1: seq<Entry>, t2: seq<Entry>, c2: seq<Entry>)
    requires multiset(t1) == multiset(t2) && multiset(c1) == multiset(c2)
    ensures Id(env, version, t1, c1) == Id(env, version, t2, c2)
  {
    if EntriesOk(env, t1) { ValidReordered(env, t1, t2); }
    if EntriesOk(env, t2) { ValidReordered(env, t2, t1); }
    if EntriesOk(env, c1) { ValidReordered(env, c1, c2); }
    if EntriesOk(env, c2) { ValidReordered(env, c2, c1); }
    hide EntriesOk, Sort, EntryKey;
    SortedEntriesIff(env, t1, t2);
    SortedEntriesIff(env, c1, c2);
  }

  /** Equal identities mean equal entries, unless the digest collides on these two views. */
  lemma IdNamesEntries(env: Env, version: string, t1: seq<Entry>, c1: seq<Entry>, t2: seq<Entry>, c2: seq<Entry>)
    requires Id(env, version, t1, c1).Some? && Id(env, version, t1, c1) == Id(env, version, t2, c2)
    ensures || (multiset(t1) == multiset(t2) && multiset(c1) == multiset(c2))
            || (ViewOf(env, t1, c1) != ViewOf(env, t2, c2)
                && env.digest(ViewOf(env, t1, c1)) == env.digest(ViewOf(env, t2, c2)))
  {
    hide EntriesOk, Sort, EntryKey;
    SortedEntriesIff(env, t1, t2);
    SortedEntriesIff(env, c1, c2);
  }
}
