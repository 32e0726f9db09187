/** Values shared by the three DANE trust engines: the opaque security objects
    they pass around, Java's nullable references and exceptions, and the
    ordered "first success wins" search over a credential pool. */
module Security {

  /** A Java reference that may be null. */
  datatype Option<+T> = None | Some(value: T)

  /** A call that either returns a value or throws. */
  datatype Result<+R, +E> = Success(value: R) | Failure(error: E)

  /** The exceptions the engines raise or let through. */
  datatype JavaException =
    | SecurityException(message: string)
    | IllegalArgumentException(message: string)
    | NullPointerException

  /** UsageType of a credential or of a usage criterion. */
  datatype UsageType = Signing | Encryption | Unspecified

  /** A key-bearing credential; its key material is opaque and identified by `handle`. */
  datatype Credential = Credential(handle: nat, usage: UsageType)

  /** The KeyInfo block a signer may embed in an XML signature. */
  datatype KeyInfo = KeyInfo(handle: nat)

  /** An XML-structured signature: its declared algorithm URI and optional KeyInfo. */
  datatype Signature = Signature(handle: nat, signatureAlgorithm: string, keyInfo: Option<KeyInfo>)

  type Bytes = seq<bv8>

  /** Index of the first element `x` of `s` with `p(a, x)`, or `|s|` when there is none.
      This is the iteration order of a Java for-each with an early return. */
  function FirstMatch<A, T>(a: A, s: seq<T>, p: (A, T) -> bool): (i: nat)
    ensures i <= |s|
    ensures forall j :: 0 <= j < i ==> !p(a, s[j])
    ensures i < |s| ==> p(a, s[i])
    decreases |s|
  {
    if |s| == 0 then 0
    else if p(a, s[0]) then 0
    else 1 + FirstMatch(a, s[1..], p)
  }

  /** Some element of `s` satisfies `p(a, _)`. */
  function AnyMatch<A, T>(a: A, s: seq<T>, p: (A, T) -> bool): (r: bool)
    ensures r <==> exists t :: t in s && p(a, t)
  {
    FirstMatch(a, s, p) < |s|
  }

  /** The elements a for-each loop that stops at the first success hands to `p`. */
  function Attempts<A, T>(a: A, s: seq<T>, p: (A, T) -> bool): (tried: seq<T>)
    ensures tried <= s
    ensures forall j :: 0 <= j < |tried| - 1 ==> !p(a, tried[j])
    ensures AnyMatch(a, s, p) <==> |tried| > 0 && p(a, tried[|tried| - 1])
    ensures !AnyMatch(a, s, p) ==> tried == s
  {
    var i := FirstMatch(a, s, p);
    if i < |s| then s[..i + 1] else s
  }

  /** A loop that stops at the first success at index `i` has tried exactly `Attempts`. */
  lemma StopsAtFirstMatch<A, T>(a: A, s: seq<T>, p: (A, T) -> bool, i: nat)
    requires i < |s| && p(a, s[i])
    requires forall j :: 0 <= j < i ==> !p(a, s[j])
    ensures FirstMatch(a, s, p) == i
    ensures Attempts(a, s, p) == s[..i + 1]
  {
  }

  /** Credentials after the first success are never looked at: appending to the pool
      changes neither the first success nor the credentials tried. */
  lemma {:induction false} FirstMatchIgnoresSuffix<A, T>(a: A, s: seq<T>, rest: seq<T>, p: (A, T) -> bool)
    requires AnyMatch(a, s, p)
    ensures FirstMatch(a, s + rest, p) == FirstMatch(a, s, p)
    ensures Attempts(a, s + rest, p) == Attempts(a, s, p)
    decreases |s|
  {
    if !p(a, s[0]) {
      assert (s + rest)[1..] == s[1..] + rest;
      FirstMatchIgnoresSuffix(a, s[1..], rest, p);
    }
  }
}
