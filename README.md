# DANE signature trust engines, modelled in Dafny

This project models the trust decisions of the Shibboleth IdP DANE extension
(package `se.danetest.shibboleth.extension`), which has three engines:

- `DaneExplicitKeySignatureTrustEngine` decides whether an XML signature or a raw
  signature (bytes, content and algorithm URI) was made with a trusted key. Before
  resolving the trusted pool, it copies the caller's criteria into a fresh criteria set.
  If the caller gave no usage criterion, it adds SIGNING. If the signature algorithm maps
  to a key algorithm, it adds a key-algorithm criterion for it. It then runs two phases:
  1. The advertised or supplied credential must verify the signature and key-match the pool.
  2. Otherwise it verifies directly with each pool member, in order, and the first success wins.
- `DaneTrustEngine` checks its parameters. It then trusts a credential when its key
  matches the key of a credential resolved from the caller's criteria, used unchanged.
- `DaneSignatureTrustEngine` is a KeyInfo-only engine. Its trust evaluation and its raw
  validate are fixed to `false`, so it never accepts a signature.

Layout:

- `security.dfy` (module `Security`) holds the shared values. Java nulls are `Option`,
  exceptions are `Result`. It also holds the ordered first-match search that models a
  for-each loop with an early `return true`.
- `criteria.dfy` (module `Criteria`) holds criteria and the mutable, class-indexed
  `CriteriaSet`. It also holds `Augment`, the criteria the signature engine resolves with.
- `collaborators.dfy` (module `Collaborators`) holds the services the engines call but
  do not implement:
  - the resolvers;
  - `SigningUtil.verifyWithURI`, `SecurityHelper.getKeyAlgorithmFromURI` and `SignatureValidator`;
  - the key comparison of `ExplicitKeyTrustEvaluator`;
  - the members inherited from `BaseSignatureTrustEngine`.

  Each service is a datatype of total functions. Every result therefore holds for any
  implementation of these services that meets the assumptions listed under "## Left out".
- `explicit_key_engine.dfy`, `trust_engine.dfy` and `signature_engine.dfy` hold one
  engine class each.

Each engine's fields become `const` fields, so the resolver passed to the constructor is
the one the getter returns for the engine's whole life. A Java constructor that throws
becomes a static `Create` method that returns `Failure(IllegalArgumentException(..))`.
The `validate` methods have no `modifies` clause. The verifier therefore guarantees that
the caller's `CriteriaSet` is never changed: the criteria are copied into a fresh set.
Ghost out-parameters record what a test double would observe:
- the criteria the resolver was asked with;
- whether trust was evaluated;
- the credentials the fallback loop passed to the verifier.

## Model

| member | source | states |
|---|---|---|
| `Security.FirstMatch` | src/main/java/se/danetest/shibboleth/extension/DaneExplicitKeySignatureTrustEngine.java:122-128 | the for-each with early return reaches index i only if every earlier element failed, and stops at i only if element i succeeds |
| `Security.AnyMatch` | src/main/java/se/danetest/shibboleth/extension/DaneExplicitKeySignatureTrustEngine.java:181-190 | the ordered search succeeds exactly when some element of the pool succeeds |
| `Security.Attempts` | src/main/java/se/danetest/shibboleth/extension/DaneExplicitKeySignatureTrustEngine.java:122-130 | the elements the loop tries form a prefix of the pool; all but the last fail; the last succeeds exactly when some element succeeds; with no success the whole pool is tried |
| `Security.StopsAtFirstMatch` | src/main/java/se/danetest/shibboleth/extension/DaneExplicitKeySignatureTrustEngine.java:122-127 | a loop that returns at the first success at index i has tried exactly pool[..i+1] |
| `Security.FirstMatchIgnoresSuffix` | src/main/java/se/danetest/shibboleth/extension/DaneExplicitKeySignatureTrustEngine.java:122-127 | once some credential succeeds, credentials after the first success are never consulted: appending to the pool changes neither the first success nor the credentials tried |
| `Criteria.Augment` | src/main/java/se/danetest/shibboleth/extension/DaneExplicitKeySignatureTrustEngine.java:93-108 | the resolved-with criteria always hold a usage criterion; the caller's usage criterion is kept, and SIGNING is added only when there is none; a key-algorithm criterion replaces any existing one exactly when the derived algorithm is non-empty, otherwise the caller's is kept or absent; all other criteria are kept and nothing else is added |
| `Criteria.AugmentKeepsComplete` | src/main/java/se/danetest/shibboleth/extension/DaneExplicitKeySignatureTrustEngine.java:144-155 | criteria that already carry a usage criterion are passed on unchanged when the algorithm maps to an empty key algorithm |
| `Criteria.CriteriaSet.constructor` | src/main/java/se/danetest/shibboleth/extension/DaneExplicitKeySignatureTrustEngine.java:93 | a new criteria set is empty |
| `Criteria.CriteriaSet.Of` | src/main/java/se/danetest/shibboleth/extension/DaneSignatureTrustEngine.java:73-74 | a set built from one criterion holds exactly that criterion |
| `Criteria.CriteriaSet.Add` | src/main/java/se/danetest/shibboleth/extension/DaneExplicitKeySignatureTrustEngine.java:97-108 | adding puts the criterion under its class, replacing only when asked to, and keeps the set class-indexed |
| `Criteria.CriteriaSet.AddAll` | src/main/java/se/danetest/shibboleth/extension/DaneExplicitKeySignatureTrustEngine.java:93-95 | copying the caller's criteria into an empty set yields exactly the caller's criteria |
| `Collaborators.ExplicitKeyTrustEvaluator.Validate` | src/main/java/se/danetest/shibboleth/extension/DaneTrustEngine.java:78 | the explicit key evaluator trusts a credential exactly when its key matches a trusted credential's key |
| `ExplicitKeyEngine.BuildCriteria` | src/main/java/se/danetest/shibboleth/extension/DaneExplicitKeySignatureTrustEngine.java:140-155 | the criteria are built in a fresh set whose contents are `Augment` of the caller's; the caller's set is not modified |
| `ExplicitKeyEngine.StructuredVerdict` | src/main/java/se/danetest/shibboleth/extension/DaneExplicitKeySignatureTrustEngine.java:112-130 | an exception thrown by the KeyInfo-derived path passes through unchanged; otherwise the signature is accepted exactly when that path returns true, or it returns false and some trusted credential verifies the signature directly; with an empty pool the outcome is the KeyInfo-derived path's |
| `ExplicitKeyEngine.NoKeyInfoFallsBack` | src/main/java/se/danetest/shibboleth/extension/DaneExplicitKeySignatureTrustEngine.java:43-47 | a signature with no KeyInfo is decided by the fallback alone: accepted exactly when some trusted credential verifies it, the pool is tried in order up to the first success, and an empty pool gives false rather than an error |
| `ExplicitKeyEngine.FallbackTriesPoolInOrder` | src/main/java/se/danetest/shibboleth/extension/DaneExplicitKeySignatureTrustEngine.java:117-128 | for a signature with no KeyInfo and pool [a, b], where only b verifies, the signature is accepted after the verifier was asked about a and then b |
| `ExplicitKeyEngine.DaneExplicitKeySignatureTrustEngine.constructor` | src/main/java/se/danetest/shibboleth/extension/DaneExplicitKeySignatureTrustEngine.java:69-80 | the engine keeps the resolver, the KeyInfo resolver and the key comparison of the explicit key evaluator it is given |
| `ExplicitKeyEngine.DaneExplicitKeySignatureTrustEngine.Create` | src/main/java/se/danetest/shibboleth/extension/DaneExplicitKeySignatureTrustEngine.java:69-86 | a null credential resolver fails with IllegalArgumentException and no engine is made; otherwise getCredentialResolver returns the resolver passed in |
| `ExplicitKeyEngine.DaneExplicitKeySignatureTrustEngine.EvaluateTrust` | src/main/java/se/danetest/shibboleth/extension/DaneExplicitKeySignatureTrustEngine.java:194-198 | evaluateTrust is the explicit key evaluator's verdict: the untrusted credential's key matches some trusted credential's key |
| `ExplicitKeyEngine.DaneExplicitKeySignatureTrustEngine.RawVerdict` | src/main/java/se/danetest/shibboleth/extension/DaneExplicitKeySignatureTrustEngine.java:160-190 | the raw verdict is: a candidate is supplied, verifies, and key-matches the pool; or some trusted credential verifies the bytes directly |
| `ExplicitKeyEngine.DaneExplicitKeySignatureTrustEngine.Validate` | src/main/java/se/danetest/shibboleth/extension/DaneExplicitKeySignatureTrustEngine.java:89-131 | a failed parameter check propagates, and a null signature or criteria always fails; otherwise the resolver is asked with `Augment` of the caller's criteria, and a resolver failure propagates; the result is `StructuredVerdict` of the resolved pool, so an exception from the KeyInfo-derived path propagates too; when the KeyInfo path succeeds no fallback verification happens, otherwise the fallback verifies pool members in order up to the first success |
| `ExplicitKeyEngine.DaneExplicitKeySignatureTrustEngine.ValidateRaw` | src/main/java/se/danetest/shibboleth/extension/DaneExplicitKeySignatureTrustEngine.java:134-191 | a failed parameter check propagates, and a null signature, content, URI or criteria always fails; otherwise the resolver is asked with `Augment` of the criteria for the algorithm URI; the result is `RawVerdict`; trust is evaluated exactly when a candidate is supplied and verifies; the fallback runs in order unless the candidate was accepted |
| `ExplicitKeyEngine.DaneExplicitKeySignatureTrustEngine.StructuredAcceptsOnlyTrustedKeys` | src/main/java/se/danetest/shibboleth/extension/DaneExplicitKeySignatureTrustEngine.java:110-130 | given the documented contract of the KeyInfo path, an accepted signature either verifies under a KeyInfo-derived credential whose key matches a pool member, or verifies directly under a pool member |
| `ExplicitKeyEngine.DaneExplicitKeySignatureTrustEngine.EmptyPoolNeverAccepts` | src/main/java/se/danetest/shibboleth/extension/DaneExplicitKeySignatureTrustEngine.java:110-130 | given the "only if" half of the KeyInfo-path contract, an empty trusted pool is never accepted and the fallback verifies nothing |
| `ExplicitKeyEngine.DaneExplicitKeySignatureTrustEngine.TrustedAdvertisedCredentialAccepted` | src/main/java/se/danetest/shibboleth/extension/DaneExplicitKeySignatureTrustEngine.java:110-115 | given the "if" half of the KeyInfo-path contract, a KeyInfo-derived credential that verifies the signature and key-matches a pool member gets the signature accepted by the first phase, with no fallback verification |
| `ExplicitKeyEngine.DaneExplicitKeySignatureTrustEngine.CandidateFailureFallsBack` | src/main/java/se/danetest/shibboleth/extension/DaneExplicitKeySignatureTrustEngine.java:160-187 | whenever the candidate path fails (no candidate, no verification, or no trust), the verdict is the fallback's alone and the fallback runs in order |
| `ExplicitKeyEngine.DaneExplicitKeySignatureTrustEngine.UntrustedCandidateAcceptedByFallback` | src/main/java/se/danetest/shibboleth/extension/DaneExplicitKeySignatureTrustEngine.java:164-186 | a candidate that verifies but whose key is not in the pool is not accepted by the first phase; a pool member that verifies still gets the signature accepted, through the fallback |
| `TrustEngine.CheckParams` | src/main/java/se/danetest/shibboleth/extension/DaneTrustEngine.java:88-102 | a null credential fails first; then null criteria fail with "was null"; then empty criteria fail with "was empty"; there is no error exactly when all three parameters are present |
| `TrustEngine.DaneTrustEngine.constructor` | src/main/java/se/danetest/shibboleth/extension/DaneTrustEngine.java:52-62 | the engine keeps the resolver and the key comparison of the explicit key evaluator it is given |
| `TrustEngine.DaneTrustEngine.Create` | src/main/java/se/danetest/shibboleth/extension/DaneTrustEngine.java:52-68 | a null resolver fails with IllegalArgumentException; otherwise getCredentialResolver returns exactly the resolver passed in |
| `TrustEngine.DaneTrustEngine.Validate` | src/main/java/se/danetest/shibboleth/extension/DaneTrustEngine.java:71-79 | parameter errors come first, in checkParams order; then the caller's criteria go to the resolver unchanged, and a resolver failure propagates; the result is true exactly when the credential's key matches a resolved trusted credential |
| `TrustEngine.DaneTrustEngine.QueriesWithCallerCriteria` | src/main/java/se/danetest/shibboleth/extension/DaneTrustEngine.java:76-78 | with valid parameters the verdict is the key match against the pool resolved for the caller's criteria as given, with no usage or algorithm criterion added |
| `SignatureEngine.VerifySignature` | src/main/java/se/danetest/shibboleth/extension/DaneSignatureTrustEngine.java:106-116 | verifySignature is false exactly when the validator throws ValidationException |
| `SignatureEngine.Verifying` | src/main/java/se/danetest/shibboleth/extension/DaneSignatureTrustEngine.java:76-79 | the KeyInfo-derived credentials passed on to trust evaluation are exactly those that verify the signature; a single credential is kept exactly when it verifies |
| `SignatureEngine.VerifyingKeepsOrder` | src/main/java/se/danetest/shibboleth/extension/DaneSignatureTrustEngine.java:76-86 | the credentials reach trust evaluation in resolver order: filtering a concatenation gives the filtered first part followed by the filtered second part |
| `SignatureEngine.DaneSignatureTrustEngine.constructor` | src/main/java/se/danetest/shibboleth/extension/DaneSignatureTrustEngine.java:43-50 | the engine keeps the KeyInfo resolver it is given |
| `SignatureEngine.DaneSignatureTrustEngine.Create` | src/main/java/se/danetest/shibboleth/extension/DaneSignatureTrustEngine.java:43-56 | a null KeyInfo resolver fails with IllegalArgumentException; otherwise getKeyInfoResolver returns the resolver passed in |
| `SignatureEngine.DaneSignatureTrustEngine.EvaluateTrust` | src/main/java/se/danetest/shibboleth/extension/DaneSignatureTrustEngine.java:128-132 | evaluateTrust never establishes trust |
| `SignatureEngine.DaneSignatureTrustEngine.ValidateRaw` | src/main/java/se/danetest/shibboleth/extension/DaneSignatureTrustEngine.java:134-139 | the raw validate returns false for every input |
| `SignatureEngine.DaneSignatureTrustEngine.Validate` | src/main/java/se/danetest/shibboleth/extension/DaneSignatureTrustEngine.java:70-97 | the result is never true; a null token raises NullPointerException; a signature without KeyInfo gives false without consulting the KeyInfo resolver; otherwise a resolver failure propagates, trust is evaluated for exactly the derived credentials that verify, and the result is whether one of them is also trusted |

## Left out

- `simpleLookupDNS` (DaneSignatureTrustEngine.java:22-32) is left out. It is a live DNS lookup that prints to the console.
- Logging (all `log.*` calls) is left out. It has no effect on any result.
- The Spring configuration layer is not part of this model: the factory beans, bean-definition parsers and namespace handlers. They only assemble resolvers and engines through Spring and DOM helpers.
- The commented-out code after the engine classes is dead code and is not modelled.
- The members inherited from `BaseSignatureTrustEngine` are abstract functions: `checkParams`, `checkParamsRaw`, `validate(Signature, Iterable)` (the KeyInfo-derived first phase, which may return a verdict or throw) and `verifySignature`. Their code is not part of this model. Four assumptions are made about them:
  - `RejectsNull`: each parameter check throws on a null argument. The engine's `validate` methods require this.
  - `KeyInfoPathSound`: the "only if" half of the documented promise of the KeyInfo-derived path (the doc comment at DaneSignatureTrustEngine.java:58-67). Only `StructuredAcceptsOnlyTrustedKeys` and `EmptyPoolNeverAccepts` require it.
  - `KeyInfoPathComplete`: the "if" half of the same promise. Only `TrustedAdvertisedCredentialAccepted` requires it. It ignores a resolver or trust exception raised on an earlier KeyInfo-derived credential.
  - `NoKeyInfoDeclines`: the KeyInfo-derived path returns false, without throwing, for a signature that has no KeyInfo (DaneSignatureTrustEngine.java:72 and 91-96 show the same shape). Only `NoKeyInfoFallsBack` and `FallbackTriesPoolInOrder` require it.
- The base-class constructor called with the KeyInfo resolver is not part of this model. `DaneExplicitKeySignatureTrustEngine.Create` takes that resolver as non-null.
- Cryptography is left out and modelled as uninterpreted total functions: signature verification, `SigningUtil.verifyWithURI`, `SignatureValidator` and the key comparison inside `ExplicitKeyTrustEvaluator`. Exceptions these may throw on malformed input are not modelled. Resolver exceptions, parameter-check exceptions and exceptions from the inherited KeyInfo-derived first phase are modelled and propagate.
- `ExplicitKeyEngine.DaneExplicitKeySignatureTrustEngine.constructor`: the Java constructor instantiates its own `ExplicitKeyTrustEvaluator`. The model takes the evaluator's key comparison as an argument, so it does not capture that every engine uses the same library comparison.
- `TrustEngine.DaneTrustEngine.constructor`: likewise takes the key comparison as an argument. This engine and `DaneExplicitKeySignatureTrustEngine` may therefore be given different comparisons, where the Java code always uses the library's.
- `SecurityHelper.getKeyAlgorithmFromURI` is a library table lookup. It is modelled as an uninterpreted function from a URI to a possibly-null string.
- `Criteria.IsEmptyString`: models `DatatypeHelper.isEmpty` as "null or the empty string". Any whitespace trimming the library helper does is not modelled.
- `Criteria.CriteriaSet.Add`: a duplicate class added without `replace` makes the library throw. The model does not include that error path; a precondition excludes it instead, and every call in the engines meets it.
- `Criteria.CriteriaSet.AddAll`: requires the two sets to hold disjoint classes, which always holds when copying into a fresh set.
- The resolver's lazy `Iterable` is modelled as one `seq` snapshot. The structured path iterates the pool twice: inside the inherited first phase, and in the fallback loop. Both iterations see the same credentials.
- Concurrency is not modelled. The engines keep no mutable state between calls.
- `SignatureEngine.DaneSignatureTrustEngine.EvaluateTrust`: the unchecked generic cast of the criteria to `TrustEngineType` is dropped. The parameter is taken as the criteria set itself.
