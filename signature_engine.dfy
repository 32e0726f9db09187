/** DaneSignatureTrustEngine: a KeyInfo-only signature trust engine.  It verifies the
    signature with each credential derived from the signature's KeyInfo and asks its
    trust evaluation about every credential that verifies; that evaluation and the raw
    validate are fixed to refuse, so the engine never accepts a signature. */
module SignatureEngine {
  import opened Security
  import opened Criteria
  import opened Collaborators

  const NullKeyInfoResolverMessage := "KeyInfo credential resolver may not be null"

  /** verifySignature: false exactly when the signature validator throws ValidationException. */
  function VerifySignature(lib: SecurityLibrary, signature: Signature, credential: Credential): (r: bool)
    ensures r <==> !lib.signatureValidator(credential, signature).ValidationException?
  {
    match lib.signatureValidator(credential, signature)
    case ValidationException(_) => false
    case Validated => true
  }

  /** The KeyInfo-derived credentials that verify the signature, in resolver order. */
  function Verifying(lib: SecurityLibrary, signature: Signature, derived: seq<Credential>): (vs: seq<Credential>)
    ensures |vs| <= |derived|
    ensures forall c :: c in vs <==> c in derived && VerifySignature(lib, signature, c)
    ensures |derived| == 1 ==> vs == (if VerifySignature(lib, signature, derived[0]) then derived else [])
    decreases |derived|
  {
    if derived == [] then []
    else
      var last := derived[|derived| - 1];
      Verifying(lib, signature, derived[..|derived| - 1]) + (if VerifySignature(lib, signature, last) then [last] else [])
  }

  /** Filtering keeps resolver order: the verifying credentials of a concatenation are
      those of the first part followed by those of the second.  With the single-credential
      case of `Verifying`, this fixes the order in which evaluateTrust is asked. */
  lemma {:induction false} VerifyingKeepsOrder(lib: SecurityLibrary, signature: Signature, a: seq<Credential>, b: seq<Credential>)
    ensures Verifying(lib, signature, a + b) == Verifying(lib, signature, a) + Verifying(lib, signature, b)
    decreases |b|
  {
    if b == [] {
      assert a + b == a;
    } else {
      var init := b[..|b| - 1];
      var last := b[|b| - 1];
      assert (a + b)[..|a + b| - 1] == a + init;
      assert (a + b)[|a + b| - 1] == last;
      VerifyingKeepsOrder(lib, signature, a, init);
    }
  }

  class DaneSignatureTrustEngine {
    /** Turns a signature's KeyInfo into the credentials that may have signed it. */
    const keyInfoCredentialResolver: KeyInfoCredentialResolver

    constructor (keyInfoResolver: KeyInfoCredentialResolver)
      ensures keyInfoCredentialResolver == keyInfoResolver
    {
      keyInfoCredentialResolver := keyInfoResolver;
    }

    /** The Java constructor, which throws when the KeyInfo resolver is null. */
    static method Create(keyInfoResolver: Option<KeyInfoCredentialResolver>) returns (r: Result<DaneSignatureTrustEngine, JavaException>)
      ensures keyInfoResolver.None? ==> r == Failure(IllegalArgumentException(NullKeyInfoResolverMessage))
      ensures keyInfoResolver.Some? ==> r.Success? && r.value.GetKeyInfoResolver() == keyInfoResolver.value
    {
      if keyInfoResolver.None? {
        return Failure(IllegalArgumentException(NullKeyInfoResolverMessage));
      }
      var engine := new DaneSignatureTrustEngine(keyInfoResolver.value);
      return Success(engine);
    }

    function GetKeyInfoResolver(): KeyInfoCredentialResolver
    {
      keyInfoCredentialResolver
    }

    /** evaluateTrust: never establishes trust. */
    function EvaluateTrust(untrustedCredential: Credential, trustEngineCriteria: CriteriaSet?): (r: bool)
      ensures !r
    {
      false
    }

    /** The raw validate: refuses every input. */
    function ValidateRaw(signature: Option<Bytes>, content: Option<Bytes>, algorithmURI: Option<string>,
                         trustEngineCriteria: CriteriaSet?, candidateCredential: Option<Credential>): (r: Result<bool, JavaException>)
      ensures r == Success(false)
    {
      Success(false)
    }

    /** validate(token, trustBasisCriteria).  `keyInfoQueried` says whether the KeyInfo
        resolver was consulted, `trustEvaluated` lists the credentials evaluateTrust was
        asked about. */
    method Validate(token: Option<Signature>, trustBasisCriteria: CriteriaSet?, lib: SecurityLibrary)
      returns (r: Result<bool, JavaException>, ghost keyInfoQueried: bool, ghost trustEvaluated: seq<Credential>)
      ensures r != Success(true)
      ensures token.None? ==> r == Failure(NullPointerException) && !keyInfoQueried
      ensures token.Some? && token.value.keyInfo.None? ==> r == Success(false) && !keyInfoQueried
      ensures token.Some? && token.value.keyInfo.Some? ==>
                && keyInfoQueried
                && match keyInfoCredentialResolver.resolve(map[KeyInfoClass := KeyInfoCriteria(token.value.keyInfo.value)])
                   case Failure(e) => r == Failure(e) && trustEvaluated == []
                   case Success(derived) =>
                     && r == Success(exists c :: c in derived && VerifySignature(lib, token.value, c)
                                                  && EvaluateTrust(c, trustBasisCriteria))
                     && trustEvaluated == Verifying(lib, token.value, derived)
      ensures forall c :: c in trustEvaluated ==> token.Some? && VerifySignature(lib, token.value, c)
    {
      keyInfoQueried, trustEvaluated := false, [];
      if token.None? {
        return Failure(NullPointerException), keyInfoQueried, trustEvaluated;
      }
      var sig := token.value;
      if sig.keyInfo.None? {
        // Without KeyInfo there is nothing to ask the resolver about.
        return Success(false), keyInfoQueried, trustEvaluated;
      }
      var keyInfoCriteriaSet := new CriteriaSet.Of(KeyInfoCriteria(sig.keyInfo.value));
      keyInfoQueried := true;
      var resolved := GetKeyInfoResolver().resolve(keyInfoCriteriaSet.entries);
      if resolved.Failure? {
        return Failure(resolved.error), keyInfoQueried, trustEvaluated;
      }
      var derived := resolved.value;
      for i := 0 to |derived|
        invariant trustEvaluated == Verifying(lib, sig, derived[..i])
      {
        var kiCred := derived[i];
        assert derived[..i + 1][..i] == derived[..i];
        if VerifySignature(lib, sig, kiCred) {
          trustEvaluated := trustEvaluated + [kiCred];
          if EvaluateTrust(kiCred, trustBasisCriteria) {
            return Success(true), keyInfoQueried, trustEvaluated;
          }
        }
      }
      assert derived[..|derived|] == derived;
      return Success(false), keyInfoQueried, trustEvaluated;
    }
  }
}
