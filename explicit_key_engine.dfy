/** DaneExplicitKeySignatureTrustEngine: decides whether an XML signature or a raw
    signature over bytes was made with a key the relying party trusts.  It first tries
    the credential the signer advertises (or the caller supplies), which must verify the
    signature and key-match the trusted pool, and then falls back to verifying the
    signature directly with each trusted credential, in the resolver's order. */
module ExplicitKeyEngine {
  import opened Security
  import opened Criteria
  import opened Collaborators

  const NullResolverMessage := "Credential resolver may not be null"

  /** The criteria the engine resolves trusted credentials with, built in a fresh
      CriteriaSet: the caller's set is copied, never changed. */
  method BuildCriteria(trustBasisCriteria: CriteriaSet, jcaAlgorithm: Option<string>) returns (criteriaSet: CriteriaSet)
    requires trustBasisCriteria.Valid()
    ensures fresh(criteriaSet) && criteriaSet.Valid()
    ensures criteriaSet.entries == Augment(trustBasisCriteria.entries, jcaAlgorithm)
  {
    criteriaSet := new CriteriaSet();
    criteriaSet.AddAll(trustBasisCriteria);
    if !criteriaSet.Contains(UsageClass) {
      criteriaSet.Add(UsageCriteria(Signing), false);
    }
    if !IsEmptyString(jcaAlgorithm) {
      criteriaSet.Add(KeyAlgorithmCriteria(jcaAlgorithm.value), true);
    }
  }

  /** The outcome of the structured validate once the trusted pool is known: an exception
      from the KeyInfo-derived path passes through; otherwise the signature is accepted when
      that path succeeds or some trusted credential verifies the signature. */
  function StructuredVerdict(base: BaseSignatureTrustEngine, signature: Signature, pool: seq<Credential>): (r: Result<bool, JavaException>)
    ensures base.validateWithKeyInfo(signature, pool).Failure? ==> r == base.validateWithKeyInfo(signature, pool)
    ensures base.validateWithKeyInfo(signature, pool).Success? ==> r.Success?
    ensures r == Success(true) <==>
              || base.validateWithKeyInfo(signature, pool) == Success(true)
              || (base.validateWithKeyInfo(signature, pool) == Success(false)
                  && exists t :: t in pool && base.verifySignature(signature, t))
    ensures pool == [] ==> r == base.validateWithKeyInfo(signature, pool)
  {
    match base.validateWithKeyInfo(signature, pool)
    case Failure(e) => Failure(e)
    case Success(true) => Success(true)
    case Success(false) => Success(AnyMatch(signature, pool, base.verifySignature))
  }

  /** The trusted credentials the structured fallback loop hands to the verifier: none
      unless the KeyInfo-derived path returned false. */
  function StructuredFallbackTrace(base: BaseSignatureTrustEngine, signature: Signature, pool: seq<Credential>): (tried: seq<Credential>)
  {
    if base.validateWithKeyInfo(signature, pool) == Success(false) then Attempts(signature, pool, base.verifySignature) else []
  }

  /** A signature without KeyInfo goes straight to the fallback: every trusted credential
      is tried in order up to the first that verifies, and an empty pool gives false rather
      than an error. */
  lemma NoKeyInfoFallsBack(base: BaseSignatureTrustEngine, signature: Signature, pool: seq<Credential>)
    requires base.NoKeyInfoDeclines()
    requires signature.keyInfo.None?
    ensures StructuredVerdict(base, signature, pool) == Success(AnyMatch(signature, pool, base.verifySignature))
    ensures StructuredFallbackTrace(base, signature, pool) == Attempts(signature, pool, base.verifySignature)
    ensures pool == [] ==> StructuredVerdict(base, signature, pool) == Success(false)
  {
    assert base.validateWithKeyInfo(signature, pool) == Success(false);
  }

  /** Scenario: a signature without KeyInfo, pool [a, b], only b verifies the signature:
      the signature is accepted, after the verifier was asked about a and then b. */
  lemma {:induction false} FallbackTriesPoolInOrder(base: BaseSignatureTrustEngine, signature: Signature, a: Credential, b: Credential)
    requires base.NoKeyInfoDeclines()
    requires signature.keyInfo.None?
    requires !base.verifySignature(signature, a) && base.verifySignature(signature, b)
    ensures StructuredVerdict(base, signature, [a, b]) == Success(true)
    ensures StructuredFallbackTrace(base, signature, [a, b]) == [a, b]
  {
    NoKeyInfoFallsBack(base, signature, [a, b]);
    StopsAtFirstMatch(signature, [a, b], base.verifySignature, 1);
  }

  class DaneExplicitKeySignatureTrustEngine {
    /** The KeyInfo resolver the base class's first phase works with. */
    const keyInfoResolver: KeyInfoCredentialResolver
    /** Where the trusted pool comes from. */
    const credentialResolver: CredentialResolver
    /** The key comparison of the ExplicitKeyTrustEvaluator that the Java constructor
        instantiates; here it is a constructor argument. */
    const keyTrust: ExplicitKeyTrustEvaluator

    constructor (resolver: CredentialResolver, keyInfoResolver: KeyInfoCredentialResolver, keyTrust: ExplicitKeyTrustEvaluator)
      ensures this.credentialResolver == resolver
      ensures this.keyInfoResolver == keyInfoResolver
      ensures this.keyTrust == keyTrust
    {
      this.keyInfoResolver := keyInfoResolver;
      this.credentialResolver := resolver;
      this.keyTrust := keyTrust;
    }

    /** The Java constructor, which throws when the credential resolver is null. */
    static method Create(resolver: Option<CredentialResolver>, keyInfoResolver: KeyInfoCredentialResolver, keyTrust: ExplicitKeyTrustEvaluator)
      returns (r: Result<DaneExplicitKeySignatureTrustEngine, JavaException>)
      ensures resolver.None? ==> r == Failure(IllegalArgumentException(NullResolverMessage))
      ensures resolver.Some? ==> && r.Success?
                                 && r.value.GetCredentialResolver() == resolver.value
                                 && r.value.keyInfoResolver == keyInfoResolver
                                 && r.value.keyTrust == keyTrust
    {
      if resolver.None? {
        return Failure(IllegalArgumentException(NullResolverMessage));
      }
      var engine := new DaneExplicitKeySignatureTrustEngine(resolver.value, keyInfoResolver, keyTrust);
      return Success(engine);
    }

    function GetCredentialResolver(): CredentialResolver
    {
      credentialResolver
    }

    /** evaluateTrust: the explicit key evaluator's verdict, nothing added. */
    function EvaluateTrust(untrustedCredential: Credential, trustedCredentials: seq<Credential>): (r: bool)
      ensures r <==> exists t :: t in trustedCredentials && keyTrust.sameKey(untrustedCredential, t)
    {
      keyTrust.Validate(untrustedCredential, trustedCredentials)
    }

    /** The verdict of the raw validate once the trusted pool is known: the candidate
        verifies and is trusted, or some trusted credential verifies the signature. */
    function RawVerdict(lib: SecurityLibrary, data: RawSignedData, candidate: Option<Credential>, pool: seq<Credential>): (r: bool)
      ensures r <==> || (candidate.Some? && lib.verifyWithURI(data, candidate.value)
                         && exists t :: t in pool && keyTrust.sameKey(candidate.value, t))
                     || (exists t :: t in pool && lib.verifyWithURI(data, t))
    {
      || (candidate.Some? && lib.verifyWithURI(data, candidate.value) && EvaluateTrust(candidate.value, pool))
      || AnyMatch(data, pool, lib.verifyWithURI)
    }

    /** Whether the raw validate accepts the supplied candidate without the fallback loop. */
    predicate CandidateAccepted(lib: SecurityLibrary, data: RawSignedData, candidate: Option<Credential>, pool: seq<Credential>)
    {
      candidate.Some? && lib.verifyWithURI(data, candidate.value) && EvaluateTrust(candidate.value, pool)
    }

    /** The trusted credentials the raw fallback loop hands to verifyWithURI. */
    function RawFallbackTrace(lib: SecurityLibrary, data: RawSignedData, candidate: Option<Credential>, pool: seq<Credential>): (tried: seq<Credential>)
    {
      if CandidateAccepted(lib, data, candidate, pool) then [] else Attempts(data, pool, lib.verifyWithURI)
    }

    /** validate(signature, trustBasisCriteria).  `queried` is the criteria the credential
        resolver was asked with, `fallbackTried` the trusted credentials the fallback loop
        verified with.  The caller's criteria set is not modified (no modifies clause). */
    method Validate(signature: Option<Signature>, trustBasisCriteria: CriteriaSet?, lib: SecurityLibrary, base: BaseSignatureTrustEngine)
      returns (r: Result<bool, JavaException>, ghost queried: Option<Criteria>, ghost fallbackTried: seq<Credential>)
      requires base.RejectsNull()
      requires trustBasisCriteria != null ==> trustBasisCriteria.Valid()
      // What the call returns.
      ensures signature.None? || trustBasisCriteria == null ==> r.Failure?
      ensures var check := base.checkParams(signature, Snapshot(trustBasisCriteria));
              check.Some? ==> r == Failure(check.value)
      ensures var check := base.checkParams(signature, Snapshot(trustBasisCriteria));
              check.None? ==>
                && signature.Some? && trustBasisCriteria != null
                && var criteria := Augment(trustBasisCriteria.entries, lib.keyAlgorithmFromURI(signature.value.signatureAlgorithm));
                   match credentialResolver.resolve(criteria)
                   case Failure(e) => r == Failure(e)
                   case Success(pool) => r == StructuredVerdict(base, signature.value, pool)
      // What a resolver and a verifier standing in for the real ones would observe.
      ensures var check := base.checkParams(signature, Snapshot(trustBasisCriteria));
              check.Some? ==> queried.None? && fallbackTried == []
      ensures var check := base.checkParams(signature, Snapshot(trustBasisCriteria));
              check.None? ==>
                && signature.Some? && trustBasisCriteria != null
                && queried == Some(Augment(trustBasisCriteria.entries, lib.keyAlgorithmFromURI(signature.value.signatureAlgorithm)))
      ensures queried.Some? ==>
                && signature.Some?
                && match credentialResolver.resolve(queried.value)
                   case Failure(_) => fallbackTried == []
                   case Success(pool) => fallbackTried == StructuredFallbackTrace(base, signature.value, pool)
    {
      queried, fallbackTried := None, [];
      var failure := base.checkParams(signature, Snapshot(trustBasisCriteria));
      if failure.Some? {
        return Failure(failure.value), queried, fallbackTried;
      }
      assert signature.Some? && trustBasisCriteria != null;
      var sig := signature.value;
      var jcaAlgorithm := lib.keyAlgorithmFromURI(sig.signatureAlgorithm);
      var criteriaSet := BuildCriteria(trustBasisCriteria, jcaAlgorithm);
      queried := Some(criteriaSet.entries);

      var resolved := GetCredentialResolver().resolve(criteriaSet.entries);
      if resolved.Failure? {
        return Failure(resolved.error), queried, fallbackTried;
      }
      var trustedCredentials := resolved.value;
      var keyInfoOutcome := base.validateWithKeyInfo(sig, trustedCredentials);
      if keyInfoOutcome.Failure? {
        return Failure(keyInfoOutcome.error), queried, fallbackTried;
      }
      if keyInfoOutcome.value {
        return Success(true), queried, fallbackTried;
      }

      // Phase 2: each trusted credential, in order, checked against the signature itself.
      for i := 0 to |trustedCredentials|
        invariant fallbackTried == trustedCredentials[..i]
        invariant forall j :: 0 <= j < i ==> !base.verifySignature(sig, trustedCredentials[j])
      {
        var trustedCredential := trustedCredentials[i];
        fallbackTried := fallbackTried + [trustedCredential];
        if base.verifySignature(sig, trustedCredential) {
          StopsAtFirstMatch(sig, trustedCredentials, base.verifySignature, i);
          return Success(true), queried, fallbackTried;
        }
      }
      assert fallbackTried == trustedCredentials;
      return Success(false), queried, fallbackTried;
    }

    /** validate(signature, content, algorithmURI, trustBasisCriteria, candidateCredential).
        `trustEvaluated` says whether evaluateTrust was called on the candidate. */
    method ValidateRaw(signature: Option<Bytes>, content: Option<Bytes>, algorithmURI: Option<string>,
                       trustBasisCriteria: CriteriaSet?, candidateCredential: Option<Credential>,
                       lib: SecurityLibrary, base: BaseSignatureTrustEngine)
      returns (r: Result<bool, JavaException>, ghost queried: Option<Criteria>, ghost trustEvaluated: bool,
               ghost fallbackTried: seq<Credential>)
      requires base.RejectsNull()
      requires trustBasisCriteria != null ==> trustBasisCriteria.Valid()
      // What the call returns.
      ensures signature.None? || content.None? || algorithmURI.None? || trustBasisCriteria == null ==> r.Failure?
      ensures var check := base.checkParamsRaw(signature, content, algorithmURI, Snapshot(trustBasisCriteria));
              check.Some? ==> r == Failure(check.value)
      ensures var check := base.checkParamsRaw(signature, content, algorithmURI, Snapshot(trustBasisCriteria));
              check.None? ==>
                && signature.Some? && content.Some? && algorithmURI.Some? && trustBasisCriteria != null
                && var data := RawSignedData(signature.value, content.value, algorithmURI.value);
                   var criteria := Augment(trustBasisCriteria.entries, lib.keyAlgorithmFromURI(algorithmURI.value));
                   match credentialResolver.resolve(criteria)
                   case Failure(e) => r == Failure(e)
                   case Success(pool) => r == Success(RawVerdict(lib, data, candidateCredential, pool))
      // What a resolver, a verifier and a trust evaluator standing in for the real ones would observe.
      ensures var check := base.checkParamsRaw(signature, content, algorithmURI, Snapshot(trustBasisCriteria));
              check.Some? ==> queried.None? && !trustEvaluated && fallbackTried == []
      ensures var check := base.checkParamsRaw(signature, content, algorithmURI, Snapshot(trustBasisCriteria));
              check.None? ==>
                && signature.Some? && content.Some? && algorithmURI.Some? && trustBasisCriteria != null
                && queried == Some(Augment(trustBasisCriteria.entries, lib.keyAlgorithmFromURI(algorithmURI.value)))
      ensures queried.Some? ==>
                && signature.Some? && content.Some? && algorithmURI.Some?
                && var data := RawSignedData(signature.value, content.value, algorithmURI.value);
                   match credentialResolver.resolve(queried.value)
                   case Failure(_) => !trustEvaluated && fallbackTried == []
                   case Success(pool) =>
                     && (trustEvaluated <==> candidateCredential.Some? && lib.verifyWithURI(data, candidateCredential.value))
                     && fallbackTried == RawFallbackTrace(lib, data, candidateCredential, pool)
    {
      queried, trustEvaluated, fallbackTried := None, false, [];
      var failure := base.checkParamsRaw(signature, content, algorithmURI, Snapshot(trustBasisCriteria));
      if failure.Some? {
        return Failure(failure.value), queried, trustEvaluated, fallbackTried;
      }
      assert signature.Some? && content.Some? && algorithmURI.Some? && trustBasisCriteria != null;
      var data := RawSignedData(signature.value, content.value, algorithmURI.value);
      var jcaAlgorithm := lib.keyAlgorithmFromURI(algorithmURI.value);
      var criteriaSet := BuildCriteria(trustBasisCriteria, jcaAlgorithm);
      queried := Some(criteriaSet.entries);

      var resolved := GetCredentialResolver().resolve(criteriaSet.entries);
      if resolved.Failure? {
        return Failure(resolved.error), queried, trustEvaluated, fallbackTried;
      }
      var trustedCredentials := resolved.value;

      // Phase 1: the caller's candidate, when one is given.
      if candidateCredential.Some? {
        if lib.verifyWithURI(data, candidateCredential.value) {
          trustEvaluated := true;
          if EvaluateTrust(candidateCredential.value, trustedCredentials) {
            return Success(true), queried, trustEvaluated, fallbackTried;
          }
        }
      }

      // Phase 2: each trusted credential, in order, checked against the bytes themselves.
      for i := 0 to |trustedCredentials|
        invariant fallbackTried == trustedCredentials[..i]
        invariant forall j :: 0 <= j < i ==> !lib.verifyWithURI(data, trustedCredentials[j])
      {
        var trustedCredential := trustedCredentials[i];
        fallbackTried := fallbackTried + [trustedCredential];
        if lib.verifyWithURI(data, trustedCredential) {
          StopsAtFirstMatch(data, trustedCredentials, lib.verifyWithURI, i);
          return Success(true), queried, trustEvaluated, fallbackTried;
        }
      }
      assert fallbackTried == trustedCredentials;
      return Success(false), queried, trustEvaluated, fallbackTried;
    }

    /** Neither path of the structured validate trusts an advertisement blindly: an accepted
        signature verifies under a KeyInfo-derived credential whose key matches the trusted
        pool, or directly under a member of the pool. */
    lemma StructuredAcceptsOnlyTrustedKeys(base: BaseSignatureTrustEngine, signature: Signature, pool: seq<Credential>)
      requires base.KeyInfoPathSound(keyInfoResolver, keyTrust)
      requires StructuredVerdict(base, signature, pool) == Success(true)
      ensures || (exists t :: t in pool && base.verifySignature(signature, t))
              || (&& signature.keyInfo.Some?
                  && var derived := keyInfoResolver.resolve(map[KeyInfoClass := KeyInfoCriteria(signature.keyInfo.value)]);
                     && derived.Success?
                     && exists c, t :: c in derived.value && t in pool && base.verifySignature(signature, c) && keyTrust.sameKey(c, t))
    {
      if base.validateWithKeyInfo(signature, pool) == Success(true) {
        var derived := keyInfoResolver.resolve(map[KeyInfoClass := KeyInfoCriteria(signature.keyInfo.value)]);
        var c :| c in derived.value && base.verifySignature(signature, c) && keyTrust.Validate(c, pool);
        var t :| t in pool && keyTrust.sameKey(c, t);
      }
    }

    /** With an empty trusted pool no KeyInfo-derived credential can be trusted and there
        is nothing to fall back on: the structured validate never accepts. */
    lemma EmptyPoolNeverAccepts(base: BaseSignatureTrustEngine, signature: Signature)
      requires base.KeyInfoPathSound(keyInfoResolver, keyTrust)
      ensures StructuredVerdict(base, signature, []) != Success(true)
      ensures StructuredFallbackTrace(base, signature, []) == []
    {
    }

    /** An advertised credential that verifies the signature and whose key matches a
        trusted credential is accepted by the first phase, and the fallback loop never runs. */
    lemma TrustedAdvertisedCredentialAccepted(base: BaseSignatureTrustEngine, signature: Signature, pool: seq<Credential>,
                                              c: Credential, t: Credential)
      requires base.KeyInfoPathComplete(keyInfoResolver, keyTrust)
      requires signature.keyInfo.Some?
      requires var derived := keyInfoResolver.resolve(map[KeyInfoClass := KeyInfoCriteria(signature.keyInfo.value)]);
               derived.Success? && c in derived.value
      requires base.verifySignature(signature, c)
      requires t in pool && keyTrust.sameKey(c, t)
      ensures StructuredVerdict(base, signature, pool) == Success(true)
      ensures StructuredFallbackTrace(base, signature, pool) == []
    {
      assert keyTrust.Validate(c, pool);
    }

    /** Every way the candidate path can fail (no candidate, no verification, no trust)
        leaves the verdict to the fallback over the trusted pool alone. */
    lemma CandidateFailureFallsBack(lib: SecurityLibrary, data: RawSignedData, candidate: Option<Credential>, pool: seq<Credential>)
      requires !CandidateAccepted(lib, data, candidate, pool)
      ensures RawVerdict(lib, data, candidate, pool) <==> exists t :: t in pool && lib.verifyWithURI(data, t)
      ensures RawFallbackTrace(lib, data, candidate, pool) == Attempts(data, pool, lib.verifyWithURI)
    {
    }

    /** Scenario: a supplied candidate verifies the raw signature but its key is not in the
        pool, while a pool member verifies it directly: accepted through the fallback, after
        trust in the candidate was evaluated and refused. */
    lemma UntrustedCandidateAcceptedByFallback(lib: SecurityLibrary, data: RawSignedData, candidate: Credential, pool: seq<Credential>, k: nat)
      requires lib.verifyWithURI(data, candidate)
      requires forall t :: t in pool ==> !keyTrust.sameKey(candidate, t)
      requires k < |pool| && lib.verifyWithURI(data, pool[k])
      ensures RawVerdict(lib, data, Some(candidate), pool)
      ensures !CandidateAccepted(lib, data, Some(candidate), pool)
      ensures RawFallbackTrace(lib, data, Some(candidate), pool) != []
    {
      assert pool[k] in pool;
    }
  }
}
