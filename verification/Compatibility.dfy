/** Whether an artifact may still be used (packages/core/src/artifact-compatibility.ts, assessArtifactCompatibility). */
module Compatibility {
  import opened Text

  datatype Server = Server(product: Text, version: Text, capabilityFingerprint: Text)

  datatype Source = Source(hash: Text, query: Option<Text>)

  datatype Identity = Identity(
    kind: Text, version: Text, algorithm: Option<Text>,
    core: Text, compiler: Option<Text>,
    grammar: Text, grammarVersion: Text, catalogRevision: Option<Text>, capabilityFingerprint: Text,
    server: Option<Server>,
    schemaFormat: nat, schemaHash: Text,
    typePolicyHash: Text, runtimeSettingsHash: Option<Text>,
    source: Option<Source>)

  datatype Reason =
    | ArtifactKind | ArtifactVersion | ArtifactAlgorithm | CoreCompatibility | CompilerCompatibility
    | Grammar | GrammarVersion | CatalogRevision | GrammarCapabilities
    | ServerProduct | ServerVersion | ServerCapabilities
    | SchemaFormat | SchemaContent | TypePolicy | RuntimeSettings | SourceContent | QueryContent

  datatype Outcome = Compatible | RequiresReanalysis | RequiresReintrospection | UnsupportedTarget

  /** What a reference asks for and a candidate does not give; what the reference leaves out is not asked for. */
  predicate Differs(reference: Option<Text>, candidate: Option<Text>) {
    reference.Some? && reference != candidate
  }

  function Product(server: Option<Server>): Option<Text> {
    if server.Some? then Some(server.value.product) else None
  }

  function Version(server: Option<Server>): Option<Text> {
    if server.Some? then Some(server.value.version) else None
  }

  function Capabilities(server: Option<Server>): Option<Text> {
    if server.Some? then Some(server.value.capabilityFingerprint) else None
  }

  function Hash(source: Option<Source>): Option<Text> {
    if source.Some? then Some(source.value.hash) else None
  }

  function Query(source: Option<Source>): Option<Text> {
    if source.Some? then source.value.query else None
  }

  /** What has changed between the two. */
  predicate Changed(reference: Identity, candidate: Identity, reason: Reason) {
    match reason
    case ArtifactKind => reference.kind != candidate.kind
    case ArtifactVersion => reference.version != candidate.version
    case ArtifactAlgorithm => Differs(reference.algorithm, candidate.algorithm)
    case CoreCompatibility => reference.core != candidate.core
    case CompilerCompatibility => Differs(reference.compiler, candidate.compiler)
    case Grammar => reference.grammar != candidate.grammar
    case GrammarVersion => reference.grammarVersion != candidate.grammarVersion
    case CatalogRevision => Differs(reference.catalogRevision, candidate.catalogRevision)
    case GrammarCapabilities => reference.capabilityFingerprint != candidate.capabilityFingerprint
    case ServerProduct => Differs(Product(reference.server), Product(candidate.server))
    case ServerVersion => Differs(Version(reference.server), Version(candidate.server))
    case ServerCapabilities => Differs(Capabilities(reference.server), Capabilities(candidate.server))
    case SchemaFormat => reference.schemaFormat != candidate.schemaFormat
    case SchemaContent => reference.schemaHash != candidate.schemaHash
    case TypePolicy => reference.typePolicyHash != candidate.typePolicyHash
    case RuntimeSettings => Differs(reference.runtimeSettingsHash, candidate.runtimeSettingsHash)
    case SourceContent => Differs(Hash(reference.source), Hash(candidate.source))
    case QueryContent => Differs(Query(reference.source), Query(candidate.source))
  }

  /** What a change calls for. */
  function Severity(reason: Reason): Outcome {
    match reason
    case ArtifactKind | ArtifactVersion | ArtifactAlgorithm | CoreCompatibility | Grammar => UnsupportedTarget
    case CompilerCompatibility | SchemaContent | TypePolicy | SourceContent | QueryContent => RequiresReanalysis
    case _ => RequiresReintrospection
  }

  function Rank(outcome: Outcome): nat {
    match outcome
    case Compatible => 0
    case RequiresReanalysis => 1
    case RequiresReintrospection => 2
    case UnsupportedTarget => 3
  }

  const ORDER: seq<Reason> := [
    ArtifactKind, ArtifactVersion, ArtifactAlgorithm, CoreCompatibility, CompilerCompatibility,
    Grammar, GrammarVersion, CatalogRevision, GrammarCapabilities, ServerProduct, ServerVersion, ServerCapabilities,
    SchemaFormat, SchemaContent, TypePolicy, RuntimeSettings, SourceContent, QueryContent]

  /** The changes that call for an outcome, among the first `n` in the order they are looked for. */
  function Reasons(reference: Identity, candidate: Identity, outcome: Outcome, n: nat): seq<Reason>
    requires n <= |ORDER|
  {
    if n == 0 then []
    else
      Reasons(reference, candidate, outcome, n - 1)
      + if Changed(reference, candidate, ORDER[n - 1]) && Severity(ORDER[n - 1]) == outcome then [ORDER[n - 1]] else []
  }

  lemma {:induction false} ReasonsAreChanges(reference: Identity, candidate: Identity, outcome: Outcome, n: nat)
    requires n <= |ORDER|
    ensures forall reason :: reason in Reasons(reference, candidate, outcome, n) <==>
      reason in ORDER[..n] && Changed(reference, candidate, reason) && Severity(reason) == outcome
  {
    if n > 0 {
      ReasonsAreChanges(reference, candidate, outcome, n - 1);
      assert ORDER[..n] == ORDER[..n - 1] + [ORDER[n - 1]];
    }
  }

  /** Compares part by part, sorting the changes by what they call for. */
  method Compare(reference: Identity, candidate: Identity)
    returns (unsupported: seq<Reason>, reintrospection: seq<Reason>, reanalysis: seq<Reason>)
    ensures unsupported == Reasons(reference, candidate, UnsupportedTarget, |ORDER|)
    ensures reintrospection == Reasons(reference, candidate, RequiresReintrospection, |ORDER|)
    ensures reanalysis == Reasons(reference, candidate, RequiresReanalysis, |ORDER|)
    ensures [] == Reasons(reference, candidate, Compatible, |ORDER|)
  {
    unsupported, reintrospection, reanalysis := [], [], [];
    for i := 0 to |ORDER|
      invariant unsupported == Reasons(reference, candidate, UnsupportedTarget, i)
      invariant reintrospection == Reasons(reference, candidate, RequiresReintrospection, i)
      invariant reanalysis == Reasons(reference, candidate, RequiresReanalysis, i)
      invariant [] == Reasons(reference, candidate, Compatible, i)
    {
      var change := [ORDER[i]];
      if Changed(reference, candidate, ORDER[i]) {
        match Severity(ORDER[i])
        case UnsupportedTarget => unsupported := unsupported + change;
        case RequiresReintrospection => reintrospection := reintrospection + change;
        case _ => reanalysis := reanalysis + change;
      }
    }
  }

  method Assess(reference: Identity, candidate: Identity) returns (outcome: Outcome, reasons: seq<Reason>)
    ensures IsAssessment(reference, candidate, outcome)
    ensures reasons == Reasons(reference, candidate, outcome, |ORDER|)
  {
    var unsupported, reintrospection, reanalysis := Compare(reference, candidate);
    outcome, reasons :=
      if unsupported != [] then UnsupportedTarget
      else if reintrospection != [] then RequiresReintrospection
      else if reanalysis != [] then RequiresReanalysis
      else Compatible,
      if unsupported != [] then unsupported else if reintrospection != [] then reintrospection else reanalysis;
    Decides(reference, candidate, outcome);
  }

  /** The outcome is the gravest any change calls for, and compatible when nothing has changed. */
  ghost predicate IsAssessment(reference: Identity, candidate: Identity, outcome: Outcome) {
    && (forall reason :: Changed(reference, candidate, reason) ==> Rank(Severity(reason)) <= Rank(outcome))
    && (!outcome.Compatible? ==> exists reason :: Changed(reference, candidate, reason) && Severity(reason) == outcome)
  }

  /** What a candidate gives of what a reference asks for. */
  function AskedFor(reference: Identity, candidate: Identity): Identity {
    candidate.(algorithm := Keep(reference.algorithm.Some?, candidate.algorithm),
               compiler := Keep(reference.compiler.Some?, candidate.compiler),
               catalogRevision := Keep(reference.catalogRevision.Some?, candidate.catalogRevision),
               runtimeSettingsHash := Keep(reference.runtimeSettingsHash.Some?, candidate.runtimeSettingsHash),
               server := Keep(reference.server.Some?, candidate.server),
               source := AskedSource(reference.source, candidate.source))
  }

  function AskedSource(asked: Option<Source>, given: Option<Source>): Option<Source> {
    if asked.None? || given.None? then None
    else Some(Source(given.value.hash, Keep(asked.value.query.Some?, given.value.query)))
  }

  function Keep<T>(asked: bool, given: Option<T>): Option<T> {
    if asked then given else None
  }

  ghost predicate NothingChanged(reference: Identity, candidate: Identity) {
    forall reason :: !Changed(reference, candidate, reason)
  }

  lemma CompatibleIffNothingChanged(reference: Identity, candidate: Identity)
    ensures IsAssessment(reference, candidate, Compatible) <==> NothingChanged(reference, candidate)
  {
  }

  lemma TargetIsTheSame(reference: Identity, candidate: Identity)
    requires NothingChanged(reference, candidate)
    ensures var r, c := reference, candidate;
      && c.kind == r.kind && c.version == r.version && c.core == r.core && c.grammar == r.grammar
      && Keep(r.algorithm.Some?, c.algorithm) == r.algorithm && Keep(r.compiler.Some?, c.compiler) == r.compiler
      && c.grammarVersion == r.grammarVersion && c.capabilityFingerprint == r.capabilityFingerprint
      && Keep(r.catalogRevision.Some?, c.catalogRevision) == r.catalogRevision
  {
    var r, c := reference, candidate;
    assert !Changed(r, c, ArtifactKind) && !Changed(r, c, ArtifactVersion) && !Changed(r, c, ArtifactAlgorithm);
    assert !Changed(r, c, CoreCompatibility) && !Changed(r, c, CompilerCompatibility) && !Changed(r, c, Grammar);
    assert !Changed(r, c, GrammarVersion) && !Changed(r, c, CatalogRevision) && !Changed(r, c, GrammarCapabilities);
  }

  lemma ContentIsTheSame(reference: Identity, candidate: Identity)
    requires NothingChanged(reference, candidate)
    ensures var r, c := reference, candidate;
      && c.schemaFormat == r.schemaFormat && c.schemaHash == r.schemaHash && c.typePolicyHash == r.typePolicyHash
      && Keep(r.runtimeSettingsHash.Some?, c.runtimeSettingsHash) == r.runtimeSettingsHash
      && Keep(r.server.Some?, c.server) == r.server && AskedSource(r.source, c.source) == r.source
  {
    var r, c := reference, candidate;
    assert !Changed(r, c, ServerProduct) && !Changed(r, c, ServerVersion) && !Changed(r, c, ServerCapabilities);
    assert !Changed(r, c, SchemaFormat) && !Changed(r, c, SchemaContent) && !Changed(r, c, TypePolicy);
    assert !Changed(r, c, RuntimeSettings) && !Changed(r, c, SourceContent) && !Changed(r, c, QueryContent);
  }

  lemma GivesAllAskedFor(reference: Identity, candidate: Identity)
    requires AskedFor(reference, candidate) == reference
    ensures NothingChanged(reference, candidate)
  {
  }

  /** A candidate is compatible exactly when it gives all that the reference asks for; what else it has is its own. */
  lemma CompatibleIffAllAskedForIsThere(reference: Identity, candidate: Identity)
    ensures IsAssessment(reference, candidate, Compatible) <==> AskedFor(reference, candidate) == reference
  {
    CompatibleIffNothingChanged(reference, candidate);
    if NothingChanged(reference, candidate) {
      TargetIsTheSame(reference, candidate);
      ContentIsTheSame(reference, candidate);
    }
    if AskedFor(reference, candidate) == reference {
      GivesAllAskedFor(reference, candidate);
    }
  }

  lemma OrderIsComplete(reason: Reason)
    ensures reason in ORDER
  {
    assert ORDER[0] == ArtifactKind && ORDER[1] == ArtifactVersion && ORDER[2] == ArtifactAlgorithm;
    assert ORDER[3] == CoreCompatibility && ORDER[4] == CompilerCompatibility && ORDER[5] == Grammar;
    assert ORDER[6] == GrammarVersion && ORDER[7] == CatalogRevision && ORDER[8] == GrammarCapabilities;
    assert ORDER[9] == ServerProduct && ORDER[10] == ServerVersion && ORDER[11] == ServerCapabilities;
    assert ORDER[12] == SchemaFormat && ORDER[13] == SchemaContent && ORDER[14] == TypePolicy;
    assert ORDER[15] == RuntimeSettings && ORDER[16] == SourceContent && ORDER[17] == QueryContent;
  }

  lemma HasReason(reference: Identity, candidate: Identity, outcome: Outcome)
    ensures Reasons(reference, candidate, outcome, |ORDER|) != [] <==>
      exists reason :: Changed(reference, candidate, reason) && Severity(reason) == outcome
  {
    ReasonsAreChanges(reference, candidate, outcome, |ORDER|);
    assert ORDER[..|ORDER|] == ORDER;
    if reason :| Changed(reference, candidate, reason) && Severity(reason) == outcome {
      OrderIsComplete(reason);
      assert reason in Reasons(reference, candidate, outcome, |ORDER|);
    }
    if Reasons(reference, candidate, outcome, |ORDER|) != [] {
      assert Reasons(reference, candidate, outcome, |ORDER|)[0] in Reasons(reference, candidate, outcome, |ORDER|);
    }
  }

  lemma Decides(reference: Identity, candidate: Identity, outcome: Outcome)
    requires outcome ==
      if Reasons(reference, candidate, UnsupportedTarget, |ORDER|) != [] then UnsupportedTarget
      else if Reasons(reference, candidate, RequiresReintrospection, |ORDER|) != [] then RequiresReintrospection
      else if Reasons(reference, candidate, RequiresReanalysis, |ORDER|) != [] then RequiresReanalysis
      else Compatible
    ensures IsAssessment(reference, candidate, outcome)
  {
    HasReason(reference, candidate, UnsupportedTarget);
    HasReason(reference, candidate, RequiresReintrospection);
    HasReason(reference, candidate, RequiresReanalysis);
  }
}
