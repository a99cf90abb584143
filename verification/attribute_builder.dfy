/**
 DynamoDbAttributeBuilder: turns one object into one typed attribute, S
 (string), N (numeric) or B (binary), or raises.
 */
module DynamoDbAttributeBuilder {
  import opened Wrappers
  import opened Platform
  import opened Types
  import ObjectExtensions
  import StringExtensions

  /**
   Information.IsNumeric applied to an object's text. The predicate on
   non-null text is a parameter of the model; a null text is never numeric.
   */
  predicate IsNumericText(isNumeric: string -> bool, text: NString) {
    text.Some? && isNumeric(text.value)
  }

  /** BuildAttributeForTypeBinary: the object's serialized form as B. */
  function BuildAttributeForTypeBinary(logItem: Option<Obj>): (r: Result<AttributeValue, Error>)
    ensures logItem.None? ==> r == Failure(ArgumentNull(Some("logItem")))
    ensures logItem.Some? && logItem.value.serialized.None? ==> r == Failure(Serialization)
    ensures r.Success? <==> logItem.Some? && logItem.value.serialized.Some?
    ensures r.Success? ==> PopulatedCount(r.value) == 1 && r.value.b == logItem.value.serialized
  {
    var _ :- ObjectExtensions.CheckNullNamed(logItem, Some("logItem"));
    match logItem.value.serialized
    case None => Failure(Serialization)
    case Some(bytes) => Success(AttributeValue(None, None, Some(bytes)))
  }

  /** BuildAttributeForTypeString: the object's text as S, unless it is null or blank. */
  function BuildAttributeForTypeString(logItem: Option<Obj>): (r: Result<AttributeValue, Error>)
    ensures logItem.None? ==> r == Failure(ArgumentNull(Some("logItem")))
    ensures logItem.Some? ==>
              (r.Failure? <==> logItem.value.text.None? || AllWhiteSpace(logItem.value.text.value))
    ensures logItem.Some? && r.Failure? ==> r.error == Argument(StringCannotBeEmpty, Some("logItem"))
    ensures r.Success? ==> PopulatedCount(r.value) == 1 && r.value.s == logItem.value.text
  {
    var _ :- ObjectExtensions.CheckNullNamed(logItem, Some("logItem"));
    var _ :- StringExtensions.CheckNullOrEmptyNamed(logItem.value.text, Some("logItem"));
    Success(StringAttribute(logItem.value.text.value))
  }

  /** BuildAttributeForTypeNumeric: the object's unchanged text as N, if that text is numeric. */
  function BuildAttributeForTypeNumeric(isNumeric: string -> bool, logItem: Option<Obj>): (r: Result<AttributeValue, Error>)
    ensures logItem.None? ==> r == Failure(ArgumentNull(Some("logItem")))
    ensures logItem.Some? ==> (r.Failure? <==> !IsNumericText(isNumeric, logItem.value.text))
    ensures logItem.Some? && r.Failure? ==> r.error == Argument(ItemNotNumeric, None)
    ensures r.Success? ==> PopulatedCount(r.value) == 1 && r.value.n == logItem.value.text
  {
    var _ :- ObjectExtensions.CheckNullNamed(logItem, Some("logItem"));
    if !IsNumericText(isNumeric, logItem.value.text) then Failure(Argument(ItemNotNumeric, None))
    else Success(AttributeValue(None, Some(logItem.value.text.value), None))
  }

  /** The fixture's string case: "TESTING1234" comes back unchanged as S. */
  lemma StringAttributeKeepsText(o: Obj)
    requires o.text == Some("TESTING1234")
    ensures BuildAttributeForTypeString(Some(o)) == Success(StringAttribute("TESTING1234"))
  {
  }

  /**
   The fixture's numeric case, for every integer: the N of an integer whose
   text is numeric parses back to that integer.
   */
  lemma NumericAttributeParsesBack(isNumeric: string -> bool, n: int, o: Obj)
    requires o.text == Some(IntToText(n)) && isNumeric(IntToText(n))
    ensures BuildAttributeForTypeNumeric(isNumeric, Some(o)).Success?
    ensures ParseInt(BuildAttributeForTypeNumeric(isNumeric, Some(o)).value.n.value) == Some(n)
  {
    ParseIntRoundTrip(n);
  }
}
