/**
 * Go error values as the deploy engine builds and inspects them: sentinel
 * errors made by errors.New, errors wrapped by fmt.Errorf with one %w verb,
 * errors.Is along the wrap chain, and the text comparisons done with
 * strings.Contains on err.Error().
 */
module GoErrors {

  /** The identities that errors.Is is asked about in the engine. */
  datatype Sentinel =
    | Anonymous                      // any error nobody compares by identity
    | UnknownContract                // neorpc.ErrUnknownContract
    | MissingDomain                  // errMissingDomain
    | MissingDomainRecord            // errMissingDomainRecord
    | InvalidContractDomainRecord    // errInvalidContractDomainRecord

  /**
   * Leaf: an error made by errors.New (or returned by a collaborator).
   * Wrapped: fmt.Errorf("<before>%w<after>", cause).
   */
  datatype Error =
    | Leaf(sentinel: Sentinel, msg: string)
    | Wrapped(before: string, cause: Error, after: string)

  /** err.Error() */
  function Text(e: Error): string
  {
    match e
    case Leaf(_, m) => m
    case Wrapped(b, c, a) => b + Text(c) + a
  }

  /** errors.Is(e, s): some error on the wrap chain is the sentinel s. */
  predicate Is(e: Error, s: Sentinel)
  {
    match e
    case Leaf(t, _) => s != Anonymous && t == s
    case Wrapped(_, c, _) => Is(c, s)
  }

  /** fmt.Errorf("<context>: %w", cause), the engine's usual wrapping. */
  function Wrap(context: string, cause: Error): (r: Error)
    ensures Text(r) == context + ": " + Text(cause)
    ensures forall s :: Is(r, s) == Is(cause, s)
  {
    Wrapped(context + ": ", cause, "")
  }

  /** sub occurs in s starting at index i. */
  predicate OccursAt(s: string, sub: string, i: int)
  {
    0 <= i <= |s| - |sub| && s[i..i + |sub|] == sub
  }

  /** strings.Contains(s, sub) */
  predicate Contains(s: string, sub: string)
  {
    exists i :: 0 <= i <= |s| && OccursAt(s, sub, i)
  }

  /** Text found in an error is still found after the error is wrapped, whatever the wrapping adds. */
  lemma ContainsSurvivesWrapping(b: string, cause: Error, a: string, sub: string)
    requires Contains(Text(cause), sub)
    ensures Contains(Text(Wrapped(b, cause, a)), sub)
  {
    var t := Text(cause);
    var i :| 0 <= i <= |t| && OccursAt(t, sub, i);
    var w := b + t + a;
    assert w[|b| + i..|b| + i + |sub|] == t[i..i + |sub|];
    assert OccursAt(w, sub, |b| + i);
    assert Text(Wrapped(b, cause, a)) == w;
  }
}
