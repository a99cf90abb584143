/** The `CheckNull` guard extensions on object references. */
module ObjectExtensions {
  import opened Wrappers
  import opened Platform

  /** o.CheckNull(paramName): raises ArgumentNullException(paramName) when o is null. */
  function CheckNullNamed<T>(o: Option<T>, paramName: NString): (r: Result<(), Error>)
    ensures r.Failure? <==> o.None?
    ensures r.Failure? ==> r.error == ArgumentNull(paramName)
  {
    if o.None? then Failure(ArgumentNull(paramName)) else Success(())
  }

  /** o.CheckNull(): the same guard with no parameter name. */
  function CheckNull<T>(o: Option<T>): (r: Result<(), Error>)
    ensures r.Failure? <==> o.None?
    ensures r.Failure? ==> r.error == ArgumentNull(None)
  {
    CheckNullNamed(o, None)
  }
}

/** The emptiness guards on string references. */
module StringExtensions {
  import opened Wrappers
  import opened Platform

  /** s.IsNullOrEmptyTrimmed(): s is null, or nothing is left once s is trimmed. */
  function IsNullOrEmptyTrimmed(s: NString): (r: bool)
    ensures r <==> s.None? || AllWhiteSpace(s.value)
  {
    IsNullOrEmpty(if s.Some? then Some(Trim(s.value)) else None)
  }

  /** s.CheckNullOrEmpty(obj): raises ArgumentException when s is null, empty or white space only. */
  function CheckNullOrEmptyNamed(s: NString, obj: NString): (r: Result<(), Error>)
    ensures r.Failure? <==> s.None? || AllWhiteSpace(s.value)
    ensures r.Failure? ==> r.error == Argument(StringCannotBeEmpty, obj)
  {
    if IsNullOrEmptyTrimmed(s) then Failure(Argument(StringCannotBeEmpty, obj)) else Success(())
  }

  /** s.CheckNullOrEmpty(): the same guard with no parameter name. */
  function CheckNullOrEmpty(s: NString): (r: Result<(), Error>)
    ensures r.Failure? <==> s.None? || AllWhiteSpace(s.value)
    ensures r.Failure? ==> r.error == Argument(StringCannotBeEmpty, None)
  {
    CheckNullOrEmptyNamed(s, None)
  }

  /** The fixture's cases: "" and null are rejected, "not empty" is accepted, by both overloads. */
  lemma CheckNullOrEmptyExamples()
    ensures CheckNullOrEmptyNamed(Some(""), Some("s1")).Failure? && CheckNullOrEmpty(Some("")).Failure?
    ensures CheckNullOrEmptyNamed(None, Some("s1")).Failure? && CheckNullOrEmpty(None).Failure?
    ensures CheckNullOrEmptyNamed(Some("not empty"), Some("s2")).Success?
    ensures CheckNullOrEmpty(Some("not empty")).Success?
  {
  }
}
