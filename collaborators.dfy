/** The services the DANE engines call but do not implement.  Each is a datatype
    holding total functions, so that every statement about the engines holds for
    whatever resolver, verifier or key comparison the deployment plugs in. */
module Collaborators {
  import opened Security
  import opened Criteria

  /** CredentialResolver.resolve: the trusted credentials matching a criteria set, in
      the resolver's order, or the SecurityException the backing store raised. */
  datatype CredentialResolver = CredentialResolver(resolve: Criteria -> Result<seq<Credential>, JavaException>)

  /** KeyInfoCredentialResolver.resolve: the credentials a signature's KeyInfo yields. */
  datatype KeyInfoCredentialResolver = KeyInfoCredentialResolver(resolve: Criteria -> Result<seq<Credential>, JavaException>)

  /** ExplicitKeyTrustEvaluator: trust by exact key match.  `sameKey(untrusted, trusted)`
      is its comparison of two credentials' key material. */
  datatype ExplicitKeyTrustEvaluator = ExplicitKeyTrustEvaluator(sameKey: (Credential, Credential) -> bool)
  {
    /** validate(untrusted, trustedCredentials): tries the trusted credentials in order and
        succeeds at the first whose key matches. */
    function Validate(untrusted: Credential, trusted: seq<Credential>): (r: bool)
      ensures r <==> exists t :: t in trusted && sameKey(untrusted, t)
    {
      AnyMatch(untrusted, trusted, sameKey)
    }
  }

  /** The arguments of a raw signature check: signature bytes, signed content, algorithm URI. */
  datatype RawSignedData = RawSignedData(signature: Bytes, content: Bytes, algorithmURI: string)

  /** What SignatureValidator.validate does: returns, or throws ValidationException. */
  datatype ValidationResult = Validated | ValidationException(message: string)

  /** Static library calls.
      - keyAlgorithmFromURI: SecurityHelper.getKeyAlgorithmFromURI (None stands for null);
      - verifyWithURI: SigningUtil.verifyWithURI(credential, algorithmURI, signature, content);
      - signatureValidator: new SignatureValidator(credential).validate(signature). */
  datatype SecurityLibrary = SecurityLibrary(
    keyAlgorithmFromURI: string -> Option<string>,
    verifyWithURI: (RawSignedData, Credential) -> bool,
    signatureValidator: (Credential, Signature) -> ValidationResult)

  /** The members DaneExplicitKeySignatureTrustEngine inherits from BaseSignatureTrustEngine,
      whose code is not part of this model:
      - checkParams(signature, criteria) and checkParamsRaw(signature, content, algorithmURI,
        criteria): the exception they throw, or None when they return;
      - validateWithKeyInfo: validate(signature, trustedCredentials), the KeyInfo-derived path,
        which returns a verdict or throws SecurityException (from the KeyInfo resolver or
        from trust evaluation);
      - verifySignature(signature, credential). */
  datatype BaseSignatureTrustEngine = BaseSignatureTrustEngine(
    checkParams: (Option<Signature>, Option<Criteria>) -> Option<JavaException>,
    checkParamsRaw: (Option<Bytes>, Option<Bytes>, Option<string>, Option<Criteria>) -> Option<JavaException>,
    validateWithKeyInfo: (Signature, seq<Credential>) -> Result<bool, JavaException>,
    verifySignature: (Signature, Credential) -> bool)
  {
    /** The parameter checks throw on every null argument they are given. */
    ghost predicate RejectsNull()
    {
      && (forall c :: checkParams(None, c).Some?)
      && (forall s :: checkParams(s, None).Some?)
      && (forall c, u, t :: checkParamsRaw(None, c, u, t).Some?)
      && (forall s, u, t :: checkParamsRaw(s, None, u, t).Some?)
      && (forall s, c, t :: checkParamsRaw(s, c, None, t).Some?)
      && (forall s, c, u :: checkParamsRaw(s, c, u, None).Some?)
    }

    /** The "only if" half of the documented promise of the KeyInfo-derived path: it
        returns true only when some credential resolved from the signature's KeyInfo
        verifies the signature and is trusted by `trust` against the trusted credentials. */
    ghost predicate KeyInfoPathSound(keyInfoResolver: KeyInfoCredentialResolver, trust: ExplicitKeyTrustEvaluator)
    {
      forall sig, pool :: validateWithKeyInfo(sig, pool) == Success(true) ==>
        && sig.keyInfo.Some?
        && var derived := keyInfoResolver.resolve(map[KeyInfoClass := KeyInfoCriteria(sig.keyInfo.value)]);
           && derived.Success?
           && exists c :: c in derived.value && verifySignature(sig, c) && trust.Validate(c, pool)
    }

    /** The KeyInfo-derived path declines a signature that carries no KeyInfo: it returns
        false at once, without consulting any resolver and without throwing. */
    ghost predicate NoKeyInfoDeclines()
    {
      forall sig: Signature, pool: seq<Credential> :: sig.keyInfo.None? ==> validateWithKeyInfo(sig, pool) == Success(false)
    }

    /** The "if" half of the same promise: when the KeyInfo resolver yields a credential
        that verifies the signature and is trusted against the trusted credentials, the
        KeyInfo-derived path returns true. */
    ghost predicate KeyInfoPathComplete(keyInfoResolver: KeyInfoCredentialResolver, trust: ExplicitKeyTrustEvaluator)
    {
      forall sig: Signature, pool: seq<Credential>, c: Credential ::
        && sig.keyInfo.Some?
        && keyInfoResolver.resolve(map[KeyInfoClass := KeyInfoCriteria(sig.keyInfo.value)]).Success?
        && c in keyInfoResolver.resolve(map[KeyInfoClass := KeyInfoCriteria(sig.keyInfo.value)]).value
        && verifySignature(sig, c) && trust.Validate(c, pool)
        ==> validateWithKeyInfo(sig, pool) == Success(true)
    }
  }
}
