/** The criteria a trust engine hands to a credential resolver.  A CriteriaSet is
    indexed by the criterion's class: it holds at most one criterion of each class. */
module Criteria {
  import opened Security

  /** The Java class a criterion is indexed by. */
  datatype CriterionClass = UsageClass | KeyAlgorithmClass | KeyInfoClass | OtherClass(name: string)

  datatype Criterion =
    | UsageCriteria(usage: UsageType)
    | KeyAlgorithmCriteria(keyAlgorithm: string)
    | KeyInfoCriteria(keyInfo: KeyInfo)
    | OtherCriteria(className: string, value: string)

  function ClassOf(c: Criterion): CriterionClass
  {
    match c
    case UsageCriteria(_) => UsageClass
    case KeyAlgorithmCriteria(_) => KeyAlgorithmClass
    case KeyInfoCriteria(_) => KeyInfoClass
    case OtherCriteria(name, _) => OtherClass(name)
  }

  /** The contents of a CriteriaSet at one moment. */
  type Criteria = map<CriterionClass, Criterion>

  /** Every entry sits under its own class. */
  ghost predicate ClassIndexed(m: Criteria)
  {
    forall k :: k in m ==> ClassOf(m[k]) == k
  }

  /** DatatypeHelper.isEmpty on a possibly-null string. */
  predicate IsEmptyString(s: Option<string>)
  {
    s.None? || s.value == ""
  }

  /** The criteria the signature trust engine resolves with: the caller's criteria, plus a
      SIGNING usage criterion when they carry no usage criterion, plus (replacing any present)
      a key-algorithm criterion when the key algorithm derived from the signature algorithm
      is not empty. */
  function Augment(basis: Criteria, jcaAlgorithm: Option<string>): (r: Criteria)
    ensures UsageClass in r
    ensures UsageClass in basis ==> r[UsageClass] == basis[UsageClass]
    ensures UsageClass !in basis ==> r[UsageClass] == UsageCriteria(Signing)
    ensures !IsEmptyString(jcaAlgorithm) ==>
              KeyAlgorithmClass in r && r[KeyAlgorithmClass] == KeyAlgorithmCriteria(jcaAlgorithm.value)
    ensures IsEmptyString(jcaAlgorithm) ==>
              (KeyAlgorithmClass in r <==> KeyAlgorithmClass in basis)
    ensures forall k :: k in basis && k != UsageClass && (k != KeyAlgorithmClass || IsEmptyString(jcaAlgorithm))
              ==> k in r && r[k] == basis[k]
    ensures forall k :: k in r ==> k in basis || k == UsageClass || k == KeyAlgorithmClass
    ensures ClassIndexed(basis) ==> ClassIndexed(r)
  {
    var withUsage := if UsageClass in basis then basis else basis[UsageClass := UsageCriteria(Signing)];
    if IsEmptyString(jcaAlgorithm) then withUsage
    else withUsage[KeyAlgorithmClass := KeyAlgorithmCriteria(jcaAlgorithm.value)]
  }

  /** Augmenting criteria that already carry a usage criterion and need no key-algorithm
      criterion leaves them exactly as they were. */
  lemma AugmentKeepsComplete(basis: Criteria, jcaAlgorithm: Option<string>)
    requires UsageClass in basis && IsEmptyString(jcaAlgorithm)
    ensures Augment(basis, jcaAlgorithm) == basis
  {
    var r := Augment(basis, jcaAlgorithm);
    assert r.Keys == basis.Keys;
  }

  /** A mutable, class-indexed set of criteria (org.opensaml CriteriaSet). */
  class CriteriaSet {
    var entries: Criteria

    ghost predicate Valid()
      reads this
    {
      ClassIndexed(entries)
    }

    /** new CriteriaSet() */
    constructor ()
      ensures Valid() && entries == map[]
    {
      entries := map[];
    }

    /** new CriteriaSet(criterion) */
    constructor Of(c: Criterion)
      ensures Valid() && entries == map[ClassOf(c) := c]
    {
      entries := map[ClassOf(c) := c];
    }

    /** contains(criterionClass) */
    predicate Contains(k: CriterionClass)
      reads this
    {
      k in entries
    }

    /** isEmpty() */
    predicate IsEmpty()
      reads this
    {
      |entries| == 0
    }

    /** add(criterion, replace): a second criterion of a class already present is
        accepted only when `replace` is set, and then replaces the first. */
    method Add(c: Criterion, replace: bool)
      requires Valid()
      requires replace || ClassOf(c) !in entries
      modifies this
      ensures Valid()
      ensures entries == old(entries)[ClassOf(c) := c]
    {
      entries := entries[ClassOf(c) := c];
    }

    /** addAll(other), for criteria of classes not yet present. */
    method AddAll(other: CriteriaSet)
      requires Valid() && other.Valid()
      requires entries.Keys !! other.entries.Keys
      modifies this
      ensures Valid()
      ensures entries == old(entries) + other.entries
    {
      entries := entries + other.entries;
    }
  }

  /** The contents of a possibly-null CriteriaSet. */
  function Snapshot(s: CriteriaSet?): (r: Option<Criteria>)
    reads s
    ensures r.None? <==> s == null
  {
    if s == null then None else Some(s.entries)
  }
}
