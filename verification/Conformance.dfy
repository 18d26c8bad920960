/** Provider declarations against a semantic contract, with a sticky invalid flag. */
module Conformance {
  import opened Values
  import opened Ir
  import opened Effects

  datatype NetworkDefault = NoNetwork | Allowlist | Internet

  datatype Provider = Provider(
    capability: string,
    version: string,
    contractHash: Option<string>,
    suite: string,
    suiteHash: Option<string>,
    effects: seq<EffectClass>,
    actions: seq<string>,
    locality: seq<Locality>,
    executionClass: ExecutionClass,
    isolation: nat,
    network: NetworkDefault,
    representations: map<string, seq<string>>,
    resourcesOk: bool
  )

  /** What the selected snapshot holds for a claimed contract. */
  datatype Lookup =
    | MalformedClaim
    | Absent
    | Found(contract: Contract, version: string, hash: string, suiteId: string, suiteHash: Option<string>,
            accepts: (string, seq<string>) -> bool)

  datatype Options = Options(allowMissingHash: bool, maxDiagnostics: nat)

  const ISOLATION_FLOOR: nat := 2

  predicate NoDuplicates<T(==)>(s: seq<T>) {
    forall i, j | 0 <= i < j < |s| :: s[i] != s[j]
  }

  // ---------------------------------------------------------------- the separate checks

  predicate DeclarationOk(p: Provider) {
    && p.effects != [] && p.locality != [] && NoDuplicates(p.locality) && p.suite != ""
    && p.resourcesOk && NoDuplicates(p.actions)
  }

  predicate HashOk(p: Provider, expected: string, options: Options) {
    p.contractHash == Some(expected) || (p.contractHash.None? && options.allowMissingHash)
  }

  /** A claim on a contract of the snapshot whose missing hash the options let pass. */
  predicate BypassTaken(p: Provider, lookup: Lookup, options: Options) {
    lookup.Found? && lookup.version == p.version && p.contractHash.None? && options.allowMissingHash
  }

  predicate AuthorityWithin(p: Provider, c: Contract) {
    NoDuplicates(p.actions) && forall a | a in p.actions :: a in c.allowedAuthority
  }

  predicate RequiredAuthorityHeld(p: Provider, c: Contract) {
    forall a | a in c.requiredAuthority :: a in p.actions
  }

  predicate AuthorityReflected(p: Provider) {
    forall a | a in p.actions :: EffectFor(a).Some? && EffectFor(a).value in p.effects
  }

  predicate EffectsWithin(p: Provider, c: Contract) {
    && NoDuplicates(p.effects)
    && (forall e | e in p.effects :: e in c.allowedEffects)
    && (Pure in p.effects ==> forall e | e in p.effects :: e == Pure)
  }

  predicate RequiredEffectsHeld(p: Provider, c: Contract) {
    forall e | e in c.requiredEffects :: e in p.effects
  }

  predicate RemoteExecution(p: Provider, remoteRuntime: bool) {
    remoteRuntime || exists l | l in p.locality :: l != Local
  }

  predicate NeedsNetwork(p: Provider, remoteRuntime: bool) {
    !p.network.NoNetwork? || RemoteExecution(p, remoteRuntime)
  }

  predicate RemoteInput(p: Provider, c: Contract, remoteRuntime: bool) {
    RemoteExecution(p, remoteRuntime) && |c.inputs| != 0
  }

  predicate NetworkDeclared(p: Provider, c: Contract, remoteRuntime: bool) {
    && (NeedsNetwork(p, remoteRuntime) ==> Network in p.effects)
    && (RemoteInput(p, c, remoteRuntime) ==> DataEgress in p.effects)
  }

  predicate Authorised(p: Provider, e: EffectClass) {
    exists a | a in p.actions :: EffectFor(a) == Some(e)
  }

  /** Declared and implied protected effects all have their mapped authority. */
  predicate ProtectedAuthorised(p: Provider, c: Contract, remoteRuntime: bool) {
    && (forall e | e in p.effects && Protected(e) :: Authorised(p, e))
    && (NeedsNetwork(p, remoteRuntime) ==> Authorised(p, Network))
    && (RemoteInput(p, c, remoteRuntime) ==> Authorised(p, DataEgress))
  }

  function ProviderEgress(p: Provider, c: Contract, remoteRuntime: bool): EgressMode {
    if RemoteInput(p, c, remoteRuntime) || DataEgress in p.effects || "data.egress" in p.actions
    then Policy else Deny
  }

  predicate EnvelopesOk(p: Provider, c: Contract) {
    && p.executionClass in c.allowedExecution
    && AuthorityWithin(p, c)
    && RequiredAuthorityHeld(p, c)
    && AuthorityReflected(p)
    && EffectsWithin(p, c)
    && RequiredEffectsHeld(p, c)
  }

  predicate PlacementOk(p: Provider, c: Contract, remoteRuntime: bool) {
    && !(remoteRuntime && Local in p.locality)
    && NetworkDeclared(p, c, remoteRuntime)
    && ProtectedAuthorised(p, c, remoteRuntime)
    && ProviderEgress(p, c, remoteRuntime) in c.allowedEgress
  }

  /** Every check of `validate_provider_capability` passes. */
  predicate ProviderOk(p: Provider, lookup: Lookup, remoteRuntime: bool, options: Options) {
    && DeclarationOk(p)
    && p.isolation >= ISOLATION_FLOOR
    && lookup.Found?
    && lookup.version == p.version
    && HashOk(p, lookup.hash, options)
    && EnvelopesOk(p, lookup.contract)
    && PlacementOk(p, lookup.contract, remoteRuntime)
    && p.suite == lookup.suiteId && p.suiteHash == lookup.suiteHash
    && forall port | port in p.representations :: lookup.accepts(port, p.representations[port])
  }

  // ---------------------------------------------------------------- the collector and the loop

  datatype ProviderCode =
    | DeclarationInvalid | IsolationIncompatible | ContractNotFound | ContractHashMismatch
    | ClassIncompatible | AuthorityNotAllowed | AuthorityMissingCode | EffectMissing | EffectNotAllowed
    | EgressNotPermitted | SuiteMismatch | PortMismatch

  /** Pushing always marks the report invalid, whether or not the diagnostic still fits. */
  class Report {
    const limit: nat
    var codes: seq<ProviderCode>
    var truncated: bool
    var invalid: bool
    var bypassUsed: bool

    ghost predicate Valid()
      reads this
    {
      |codes| <= limit && (codes != [] || truncated ==> invalid) && (truncated ==> |codes| == limit)
    }

    constructor (limit: nat)
      ensures Valid() && this.limit == limit && !invalid && !bypassUsed
    {
      this.limit := limit;
      codes, truncated, invalid, bypassUsed := [], false, false, false;
    }

    method PushUnless(ok: bool, code: ProviderCode)
      requires Valid()
      modifies this
      ensures Valid() && bypassUsed == old(bypassUsed)
      ensures invalid == (old(invalid) || !ok)
      ensures codes == if !ok && |old(codes)| < limit then old(codes) + [code] else old(codes)
      ensures truncated == (old(truncated) || (!ok && |old(codes)| >= limit))
    {
      if !ok {
        invalid := true;
        if |codes| >= limit { truncated := true; } else { codes := codes + [code]; }
      }
    }

    method MarkBypass()
      requires Valid()
      modifies this`bypassUsed
      ensures Valid() && bypassUsed
    {
      bypassUsed := true;
    }
  }

  method CheckEnvelopes(p: Provider, c: Contract, report: Report)
    requires report.Valid()
    modifies report
    ensures report.Valid() && report.invalid == (old(report.invalid) || !EnvelopesOk(p, c))
    ensures report.bypassUsed == old(report.bypassUsed)
  {
    hide AuthorityWithin, RequiredAuthorityHeld, AuthorityReflected, EffectsWithin, RequiredEffectsHeld;
    report.PushUnless(p.executionClass in c.allowedExecution, ClassIncompatible);
    report.PushUnless(AuthorityWithin(p, c), AuthorityNotAllowed);
    report.PushUnless(RequiredAuthorityHeld(p, c), AuthorityMissingCode);
    report.PushUnless(AuthorityReflected(p), EffectMissing);
    report.PushUnless(EffectsWithin(p, c), EffectNotAllowed);
    report.PushUnless(RequiredEffectsHeld(p, c), EffectMissing);
  }

  method CheckPlacement(p: Provider, c: Contract, remoteRuntime: bool, report: Report)
    requires report.Valid()
    modifies report
    ensures report.Valid() && report.invalid == (old(report.invalid) || !PlacementOk(p, c, remoteRuntime))
    ensures report.bypassUsed == old(report.bypassUsed)
  {
    hide NetworkDeclared, ProtectedAuthorised, ProviderEgress;
    report.PushUnless(!(remoteRuntime && Local in p.locality), DeclarationInvalid);
    report.PushUnless(NetworkDeclared(p, c, remoteRuntime), EffectMissing);
    report.PushUnless(ProtectedAuthorised(p, c, remoteRuntime), AuthorityMissingCode);
    report.PushUnless(ProviderEgress(p, c, remoteRuntime) in c.allowedEgress, EgressNotPermitted);
  }

  /** `validate_provider_capability`: the report turns invalid exactly when some check fails. */
  method CheckProvider(p: Provider, lookup: Lookup, remoteRuntime: bool, options: Options, report: Report)
    requires report.Valid()
    modifies report
    ensures report.Valid()
    ensures report.invalid == (old(report.invalid) || !ProviderOk(p, lookup, remoteRuntime, options))
    ensures report.bypassUsed == (old(report.bypassUsed) || BypassTaken(p, lookup, options))
  {
    hide DeclarationOk, EnvelopesOk, PlacementOk;
    report.PushUnless(DeclarationOk(p), DeclarationInvalid);
    report.PushUnless(p.isolation >= ISOLATION_FLOOR, IsolationIncompatible);
    if lookup.MalformedClaim? {
      report.PushUnless(false, DeclarationInvalid);
      return;
    }
    if lookup.Absent? || lookup.version != p.version {
      report.PushUnless(false, ContractNotFound);
      return;
    }
    var c := lookup.contract;
    if p.contractHash.None? && options.allowMissingHash {
      report.MarkBypass();
    } else {
      report.PushUnless(p.contractHash == Some(lookup.hash), ContractHashMismatch);
    }
    CheckEnvelopes(p, c, report);
    CheckPlacement(p, c, remoteRuntime, report);
    report.PushUnless(p.suite == lookup.suiteId && p.suiteHash == lookup.suiteHash, SuiteMismatch);
    report.PushUnless(forall port | port in p.representations :: lookup.accepts(port, p.representations[port]), PortMismatch);
  }

  predicate SameClaim(p: Provider, q: Provider) {
    p.capability == q.capability && p.version == q.version
  }

  predicate Repeats(offers: seq<Provider>, i: nat)
    requires i < |offers|
  {
    exists k | 0 <= k < i :: SameClaim(offers[k], offers[i])
  }

  function LookupOf(resolve: (string, string) -> Lookup, p: Provider): Lookup {
    resolve(p.capability, p.version)
  }

  /** Each of the first claims is made once and passes every check. */
  predicate ClaimsOk(offers: seq<Provider>, resolve: (string, string) -> Lookup, remoteRuntime: bool, options: Options,
                     n: nat)
    requires n <= |offers|
  {
    forall i | 0 <= i < n ::
      !Repeats(offers, i) && ProviderOk(offers[i], LookupOf(resolve, offers[i]), remoteRuntime, options)
  }

  /** Some claim, counted at its first occurrence only, took the bypass. */
  ghost predicate SomeBypass(offers: seq<Provider>, resolve: (string, string) -> Lookup, options: Options, n: nat)
    requires n <= |offers|
  {
    exists i | 0 <= i < n :: !Repeats(offers, i) && BypassTaken(offers[i], LookupOf(resolve, offers[i]), options)
  }

  /** Whether a whole manifest is reported valid. */
  predicate ManifestOk(offers: seq<Provider>, resolve: (string, string) -> Lookup, headerOk: bool,
                       remoteRuntime: bool, options: Options)
  {
    headerOk && offers != [] && ClaimsOk(offers, resolve, remoteRuntime, options, |offers|)
  }

  lemma ClaimsSnoc(offers: seq<Provider>, resolve: (string, string) -> Lookup, remoteRuntime: bool, options: Options,
                   n: nat)
    requires n < |offers|
    ensures ClaimsOk(offers, resolve, remoteRuntime, options, n + 1) <==>
            && ClaimsOk(offers, resolve, remoteRuntime, options, n)
            && !Repeats(offers, n) && ProviderOk(offers[n], LookupOf(resolve, offers[n]), remoteRuntime, options)
    ensures SomeBypass(offers, resolve, options, n + 1) <==>
            || SomeBypass(offers, resolve, options, n)
            || (!Repeats(offers, n) && BypassTaken(offers[n], LookupOf(resolve, offers[n]), options))
  {
    hide Repeats, ProviderOk, BypassTaken;
  }

  /** `validate_provider_manifest`; a repeated claim is reported and not checked again. */
  method CheckManifest(offers: seq<Provider>, resolve: (string, string) -> Lookup, headerOk: bool,
                       remoteRuntime: bool, options: Options) returns (report: Report)
    ensures fresh(report) && report.Valid()
    ensures !report.invalid <==> ManifestOk(offers, resolve, headerOk, remoteRuntime, options)
    ensures report.bypassUsed <==> SomeBypass(offers, resolve, options, |offers|)
  {
    hide ProviderOk, BypassTaken, Repeats, ClaimsOk, SomeBypass;
    report := new Report(options.maxDiagnostics);
    report.PushUnless(headerOk && offers != [], DeclarationInvalid);
    var claims: set<(string, string)> := {};
    NoClaims(offers, resolve, remoteRuntime, options);
    for i := 0 to |offers|
      invariant report.Valid() && fresh(report)
      invariant forall x :: x in claims <==> exists k | 0 <= k < i :: x == (offers[k].capability, offers[k].version)
      invariant report.bypassUsed <==> SomeBypass(offers, resolve, options, i)
      invariant !report.invalid <==>
                headerOk && offers != [] && ClaimsOk(offers, resolve, remoteRuntime, options, i)
    {
      var p := offers[i];
      var claim := (p.capability, p.version);
      assert claim in claims <==> Repeats(offers, i) by { RepeatsIff(offers, i); }
      ClaimsSnoc(offers, resolve, remoteRuntime, options, i);
      if claim in claims {
        report.PushUnless(false, DeclarationInvalid);
      } else {
        claims := claims + {claim};
        CheckProvider(p, resolve(p.capability, p.version), remoteRuntime, options, report);
      }
    }
  }

  lemma NoClaims(offers: seq<Provider>, resolve: (string, string) -> Lookup, remoteRuntime: bool, options: Options)
    ensures ClaimsOk(offers, resolve, remoteRuntime, options, 0) && !SomeBypass(offers, resolve, options, 0)
  {
  }

  lemma RepeatsIff(offers: seq<Provider>, i: nat)
    requires i < |offers|
    ensures Repeats(offers, i) <==>
            exists k | 0 <= k < i ::
              (offers[i].capability, offers[i].version) == (offers[k].capability, offers[k].version)
  {
    if Repeats(offers, i) {
      var k :| 0 <= k < i && SameClaim(offers[k], offers[i]);
      assert (offers[i].capability, offers[i].version) == (offers[k].capability, offers[k].version);
    }
    if k :| 0 <= k < i && (offers[i].capability, offers[i].version) == (offers[k].capability, offers[k].version) {
      assert SameClaim(offers[k], offers[i]);
    }
  }

  /** For every capability of a manifest reported valid, protected effects are those its actions name. */
  lemma ProviderEquation(offers: seq<Provider>, resolve: (string, string) -> Lookup, headerOk: bool,
                         remoteRuntime: bool, options: Options, i: nat)
    requires ManifestOk(offers, resolve, headerOk, remoteRuntime, options) && i < |offers|
    ensures var p := offers[i];
            ProtectedOf(set e | e in p.effects) == Image(set a | a in p.actions)
  {
    hide EffectFor, EffectsWithin, RequiredEffectsHeld, AuthorityWithin, RequiredAuthorityHeld, NetworkDeclared,
         DeclarationOk, HashOk, ProviderEgress, NoDuplicates;
    var p := offers[i];
    assert ProviderOk(p, resolve(p.capability, p.version), remoteRuntime, options);
    var effects, actions := set e | e in p.effects, set a | a in p.actions;
    forall e | e in ProtectedOf(effects) ensures e in Image(actions) {
      assert Authorised(p, e);
      var a :| a in p.actions && EffectFor(a) == Some(e);
      assert a in actions;
    }
    forall e | e in Image(actions) ensures e in ProtectedOf(effects) {
      var a :| a in actions && EffectFor(a) == Some(e);
      EffectForIsProtected(a);
    }
  }

  /** A manifest reported valid can reach the network or send data out only under authority it declares. */
  lemma RemoteNeedsAuthority(offers: seq<Provider>, resolve: (string, string) -> Lookup, headerOk: bool,
                             remoteRuntime: bool, options: Options, i: nat)
    requires ManifestOk(offers, resolve, headerOk, remoteRuntime, options) && i < |offers|
    ensures NeedsNetwork(offers[i], remoteRuntime) ==> "network.connect" in offers[i].actions
    ensures RemoteInput(offers[i], resolve(offers[i].capability, offers[i].version).contract, remoteRuntime)
        ==> "data.egress" in offers[i].actions
  {
    hide EffectsWithin, RequiredEffectsHeld, AuthorityWithin, RequiredAuthorityHeld, NetworkDeclared, DeclarationOk,
         HashOk, ProviderEgress, NoDuplicates, EffectFor, AuthorityReflected, NeedsNetwork, RemoteInput;
    var p := offers[i];
    assert ProviderOk(p, resolve(p.capability, p.version), remoteRuntime, options);
    if Authorised(p, Network) {
      var a :| a in p.actions && EffectFor(a) == Some(Network);
      OnlyNetwork(a);
    }
    if Authorised(p, DataEgress) {
      var a :| a in p.actions && EffectFor(a) == Some(DataEgress);
      OnlyNetwork(a);
    }
  }

  lemma OnlyNetwork(a: string)
    ensures EffectFor(a) == Some(Network) ==> a == "network.connect"
    ensures EffectFor(a) == Some(DataEgress) ==> a == "data.egress"
  {}

  /** Where the capability may run away from this device. */
  predicate RunsAway(p: Provider, remoteRuntime: bool) {
    remoteRuntime || Peer in p.locality || Remote in p.locality || Hybrid in p.locality
  }

  /**
   A capability passes exactly when its declaration is complete and free of repetitions, it names the selected
   contract and suite, it stays inside the contract's envelope and covers what that requires, its protected
   effects are those its actions name, and where it runs agrees with what it declares.
   */
  lemma ProviderOkIff(p: Provider, lookup: Lookup, remoteRuntime: bool, options: Options)
    ensures ProviderOk(p, lookup, remoteRuntime, options) <==>
              && p.effects != [] && p.locality != [] && p.suite != "" && p.resourcesOk && p.isolation >= 2
              && NoDuplicates(p.locality) && NoDuplicates(p.actions) && NoDuplicates(p.effects)
              && lookup.Found? && lookup.version == p.version && lookup.suiteId == p.suite && lookup.suiteHash == p.suiteHash
              && (p.contractHash == Some(lookup.hash) || (p.contractHash.None? && options.allowMissingHash))
              && (forall port | port in p.representations :: lookup.accepts(port, p.representations[port]))
              && var c := lookup.contract;
                 && p.executionClass in c.allowedExecution
                 && (forall a | a in p.actions :: a in c.allowedAuthority && EffectFor(a).Some?)
                 && (forall a | a in c.requiredAuthority :: a in p.actions)
                 && (forall e | e in p.effects :: e in c.allowedEffects)
                 && (forall e | e in c.requiredEffects :: e in p.effects)
                 && (Pure in p.effects ==> forall e | e in p.effects :: e == Pure)
                 && (forall e | Protected(e) :: e in p.effects <==> exists a | a in p.actions :: EffectFor(a) == Some(e))
                 && (remoteRuntime ==> Local !in p.locality)
                 && (p.network != NoNetwork || RunsAway(p, remoteRuntime) ==> "network.connect" in p.actions)
                 && (RunsAway(p, remoteRuntime) && c.inputs != map[] ==> "data.egress" in p.actions)
                 && (if "data.egress" in p.actions then Policy else Deny) in c.allowedEgress
  {
    RunsAwayIff(p, remoteRuntime);
    MappedEffects(p);
    hide NoDuplicates, EffectFor, RemoteExecution, RunsAway, Protected;
    if lookup.Found? {
      EnvelopeIff(p, lookup.contract);
      if && (forall e | e in p.effects && Protected(e) :: Authorised(p, e))
         && (forall e | Protected(e) && Authorised(p, e) :: e in p.effects)
      {
        PlacementIff(p, lookup.contract, remoteRuntime);
      }
      ReflectedIff(p);
    }
  }

  lemma RunsAwayIff(p: Provider, remoteRuntime: bool)
    ensures RemoteExecution(p, remoteRuntime) <==> RunsAway(p, remoteRuntime)
  {
    if l :| l in p.locality && l != Local { assert l == Peer || l == Remote || l == Hybrid; }
  }

  lemma MappedEffects(p: Provider)
    ensures Authorised(p, Network) <==> "network.connect" in p.actions
    ensures Authorised(p, DataEgress) <==> "data.egress" in p.actions
    ensures Protected(Network) && Protected(DataEgress)
  {
    NetworkEffects();
    hide EffectFor;
    if Authorised(p, Network) {
      var a :| a in p.actions && EffectFor(a) == Some(Network);
      OnlyNetwork(a);
    }
    if Authorised(p, DataEgress) {
      var a :| a in p.actions && EffectFor(a) == Some(DataEgress);
      OnlyNetwork(a);
    }
  }

  lemma EnvelopeIff(p: Provider, c: Contract)
    ensures EnvelopesOk(p, c) && (forall e | e in p.effects && Protected(e) :: Authorised(p, e)) <==>
            && p.executionClass in c.allowedExecution && NoDuplicates(p.actions) && NoDuplicates(p.effects)
            && (forall a | a in p.actions :: a in c.allowedAuthority && EffectFor(a).Some?)
            && (forall a | a in c.requiredAuthority :: a in p.actions)
            && (forall e | e in p.effects :: e in c.allowedEffects)
            && (forall e | e in c.requiredEffects :: e in p.effects)
            && (Pure in p.effects ==> forall e | e in p.effects :: e == Pure)
            && (forall e | Protected(e) :: e in p.effects <==> exists a | a in p.actions :: EffectFor(a) == Some(e))
  {
    hide NoDuplicates, EffectFor, Protected;
    assert (forall a | a in p.actions && EffectFor(a).Some? :: EffectFor(a).value in p.effects) <==>
           (forall e | Protected(e) && (exists a | a in p.actions :: EffectFor(a) == Some(e)) :: e in p.effects) by {
      ReflectedIff(p);
    }
  }

  lemma ReflectedIff(p: Provider)
    ensures (forall a | a in p.actions && EffectFor(a).Some? :: EffectFor(a).value in p.effects) <==>
            (forall e | Protected(e) && (exists a | a in p.actions :: EffectFor(a) == Some(e)) :: e in p.effects)
  {
    hide EffectFor;
    if forall e | Protected(e) && (exists a | a in p.actions :: EffectFor(a) == Some(e)) :: e in p.effects {
      forall a | a in p.actions && EffectFor(a).Some? ensures EffectFor(a).value in p.effects {
        EffectForIsProtected(a);
        assert Protected(EffectFor(a).value);
      }
    }
  }

  lemma PlacementIff(p: Provider, c: Contract, remoteRuntime: bool)
    requires forall e | e in p.effects && Protected(e) :: Authorised(p, e)
    requires forall e | Protected(e) && Authorised(p, e) :: e in p.effects
    ensures PlacementOk(p, c, remoteRuntime) <==>
            && (remoteRuntime ==> Local !in p.locality)
            && (p.network != NoNetwork || RunsAway(p, remoteRuntime) ==> "network.connect" in p.actions)
            && (RunsAway(p, remoteRuntime) && c.inputs != map[] ==> "data.egress" in p.actions)
            && (if "data.egress" in p.actions then Policy else Deny) in c.allowedEgress
  {
    RunsAwayIff(p, remoteRuntime);
    MappedEffects(p);
    hide EffectFor, RemoteExecution, RunsAway, Protected, Authorised;
    assert |c.inputs| == 0 <==> c.inputs == map[];
    assert DataEgress in p.effects <==> "data.egress" in p.actions;
    assert Network in p.effects <==> "network.connect" in p.actions;
  }
}
