/** DaneTrustEngine: trusts a credential when its key matches the key of one of the
    trusted credentials the resolver returns for the caller's criteria. */
module TrustEngine {
  import opened Security
  import opened Criteria
  import opened Collaborators

  const NullResolverMessage := "Credential resolver may not be null"
  const NullCredentialMessage := "Untrusted credential was null"
  const NullCriteriaMessage := "Trust basis criteria set was null"
  const EmptyCriteriaMessage := "Trust basis criteria set was empty"

  /** checkParams: the exception thrown for missing parameters, checked in the order
      credential, criteria null, criteria empty; None when all are present. */
  function CheckParams(untrustedCredential: Option<Credential>, trustBasisCriteria: CriteriaSet?): (e: Option<JavaException>)
    reads trustBasisCriteria
    ensures e.None? <==> untrustedCredential.Some? && trustBasisCriteria != null && trustBasisCriteria.entries != map[]
    ensures untrustedCredential.None? ==> e == Some(SecurityException(NullCredentialMessage))
    ensures untrustedCredential.Some? && trustBasisCriteria == null ==> e == Some(SecurityException(NullCriteriaMessage))
    ensures untrustedCredential.Some? && trustBasisCriteria != null && trustBasisCriteria.entries == map[] ==>
              e == Some(SecurityException(EmptyCriteriaMessage))
  {
    if untrustedCredential.None? then Some(SecurityException(NullCredentialMessage))
    else if trustBasisCriteria == null then Some(SecurityException(NullCriteriaMessage))
    else if trustBasisCriteria.IsEmpty() then Some(SecurityException(EmptyCriteriaMessage))
    else None
  }

  class DaneTrustEngine {
    /** Where the trusted credentials come from. */
    const credentialResolver: CredentialResolver
    /** The key comparison of the ExplicitKeyTrustEvaluator that the Java constructor
        instantiates; here it is a constructor argument. */
    const trustEvaluator: ExplicitKeyTrustEvaluator

    constructor (resolver: CredentialResolver, trustEvaluator: ExplicitKeyTrustEvaluator)
      ensures credentialResolver == resolver && this.trustEvaluator == trustEvaluator
    {
      credentialResolver := resolver;
      this.trustEvaluator := trustEvaluator;
    }

    /** The Java constructor, which throws when the resolver is null. */
    static method Create(resolver: Option<CredentialResolver>, trustEvaluator: ExplicitKeyTrustEvaluator)
      returns (r: Result<DaneTrustEngine, JavaException>)
      ensures resolver.None? ==> r == Failure(IllegalArgumentException(NullResolverMessage))
      ensures resolver.Some? ==> && r.Success?
                                 && r.value.GetCredentialResolver() == resolver.value
                                 && r.value.trustEvaluator == trustEvaluator
    {
      if resolver.None? {
        return Failure(IllegalArgumentException(NullResolverMessage));
      }
      var engine := new DaneTrustEngine(resolver.value, trustEvaluator);
      return Success(engine);
    }

    function GetCredentialResolver(): CredentialResolver
    {
      credentialResolver
    }

    /** validate(untrustedCredential, trustBasisCriteria): the caller's criteria go to the
        resolver as they are, and the credential is trusted exactly when its key matches
        a resolved trusted credential. */
    function Validate(untrustedCredential: Option<Credential>, trustBasisCriteria: CriteriaSet?): (r: Result<bool, JavaException>)
      reads trustBasisCriteria
      ensures CheckParams(untrustedCredential, trustBasisCriteria).Some? ==>
                r == Failure(CheckParams(untrustedCredential, trustBasisCriteria).value)
      ensures untrustedCredential.None? ==> r == Failure(SecurityException(NullCredentialMessage))
      ensures CheckParams(untrustedCredential, trustBasisCriteria).None? ==>
                && trustBasisCriteria != null
                && match credentialResolver.resolve(trustBasisCriteria.entries)
                   case Failure(e) => r == Failure(e)
                   case Success(pool) => r.Success?
      ensures r == Success(true) <==>
                && untrustedCredential.Some? && trustBasisCriteria != null && trustBasisCriteria.entries != map[]
                && credentialResolver.resolve(trustBasisCriteria.entries).Success?
                && exists t :: t in credentialResolver.resolve(trustBasisCriteria.entries).value
                               && trustEvaluator.sameKey(untrustedCredential.value, t)
    {
      match CheckParams(untrustedCredential, trustBasisCriteria)
      case Some(e) => Failure(e)
      case None =>
        match GetCredentialResolver().resolve(trustBasisCriteria.entries)
        case Failure(e) => Failure(e)
        case Success(trustedCredentials) => Success(trustEvaluator.Validate(untrustedCredential.value, trustedCredentials))
    }

    /** The verdict depends on the trusted credentials resolved for the caller's criteria
        exactly as given: unlike the signature engine, no usage or key-algorithm criterion
        is added first. */
    lemma QueriesWithCallerCriteria(untrustedCredential: Credential, trustBasisCriteria: CriteriaSet, pool: seq<Credential>)
      requires trustBasisCriteria.entries != map[]
      requires credentialResolver.resolve(trustBasisCriteria.entries) == Success(pool)
      ensures Validate(Some(untrustedCredential), trustBasisCriteria) ==
                Success(exists t :: t in pool && trustEvaluator.sameKey(untrustedCredential, t))
    {
    }
  }
}
