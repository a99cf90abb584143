/**
 DynamoDbAppenderParameter: binds a column name to a layout and an attribute
 type, and adds the rendered value of an event to a put request.
 */
module DynamoDbAppenderParameter {
  import opened Wrappers
  import opened Platform
  import opened Types
  import opened DynamoDbAttributeBuilder
  import ObjectExtensions

  /** The ParameterType enum. Configuration may store any integer in it. */
  newtype ParameterType = int

  const TypeS: ParameterType := 0
  const TypeN: ParameterType := 2
  const TypeB: ParameterType := 4

  /**
   A configured parameter: its Name (a column name, possibly null), its Type
   (TypeS unless configured) and its Layout (possibly null).
   */
  datatype Parameter = Parameter(name: NString, kind: ParameterType, layout: Option<Layout>)

  /** The switch on Type: B and N select their builders, every other value the string builder. */
  function BuildAttribute(kind: ParameterType, isNumeric: string -> bool, logItem: Option<Obj>): (r: Result<AttributeValue, Error>)
    ensures kind == TypeB ==> r == BuildAttributeForTypeBinary(logItem)
    ensures kind == TypeN ==> r == BuildAttributeForTypeNumeric(isNumeric, logItem)
    ensures kind != TypeB && kind != TypeN ==> r == BuildAttributeForTypeString(logItem)
  {
    if kind == TypeB then BuildAttributeForTypeBinary(logItem)
    else if kind == TypeN then BuildAttributeForTypeNumeric(isNumeric, logItem)
    else BuildAttributeForTypeString(logItem)
  }

  /** The skip test: a null value, or one whose text is null or "" (not trimmed). */
  predicate Skips(logItem: Option<Obj>) {
    logItem.None? || IsNullOrEmpty(logItem.value.text)
  }

  /**
   AddToItemsIfNotNullOrEmpty: skips a null or empty value; otherwise builds
   the attribute and adds it under Name with Dictionary.Add, so a null or
   already present Name raises instead of overwriting.
   */
  function AddToItemsIfNotNullOrEmpty(p: Parameter, isNumeric: string -> bool, request: Option<PutItemRequest>, logItem: Option<Obj>)
    : (r: Result<PutItemRequest, Error>)
    ensures request.None? ==> r == Failure(ArgumentNull(Some("request")))
    ensures request.Some? && Skips(logItem) ==> r == Success(request.value)
    ensures request.Some? && !Skips(logItem) ==>
              (r.Success? <==> && BuildAttribute(p.kind, isNumeric, logItem).Success?
                               && p.name.Some?
                               && p.name.value !in request.value.item)
    ensures request.Some? && !Skips(logItem) && BuildAttribute(p.kind, isNumeric, logItem).Failure? ==>
              r == Failure(BuildAttribute(p.kind, isNumeric, logItem).error)
    ensures request.Some? && !Skips(logItem) && BuildAttribute(p.kind, isNumeric, logItem).Success? && p.name.None? ==>
              r == Failure(ArgumentNull(Some("key")))
    ensures request.Some? && !Skips(logItem) && BuildAttribute(p.kind, isNumeric, logItem).Success? &&
            p.name.Some? && p.name.value in request.value.item ==>
              r == Failure(Argument(DuplicateKey, None))
    ensures r.Success? && !Skips(logItem) ==>
              && r.value.tableName == request.value.tableName
              && r.value.item.Keys == request.value.item.Keys + {p.name.value}
              && r.value.item[p.name.value] == BuildAttribute(p.kind, isNumeric, logItem).value
              && forall k :: k in request.value.item ==> r.value.item[k] == request.value.item[k]
  {
    var _ :- ObjectExtensions.CheckNullNamed(request, Some("request"));
    if Skips(logItem) then Success(request.value)
    else
      var attribute :- BuildAttribute(p.kind, isNumeric, logItem);
      var item :- DictionaryAdd(request.value.item, p.name, attribute);
      Success(request.value.(item := item))
  }

  /**
   AddFormatParameter: checks its arguments, renders the event through the
   layout (a null layout raises NullReferenceException) and adds the result.
   */
  function AddFormatParameter(p: Parameter, isNumeric: string -> bool, request: Option<PutItemRequest>, loggingEvent: Option<LoggingEvent>)
    : (r: Result<PutItemRequest, Error>)
    ensures request.None? ==> r == Failure(ArgumentNull(Some("request")))
    ensures request.Some? && loggingEvent.None? ==> r == Failure(ArgumentNull(Some("loggingEvent")))
    ensures request.Some? && loggingEvent.Some? && p.layout.None? ==> r == Failure(NullReference)
    ensures request.Some? && loggingEvent.Some? && p.layout.Some? ==>
              r == AddToItemsIfNotNullOrEmpty(p, isNumeric, request, p.layout.value(loggingEvent.value))
  {
    var _ :- ObjectExtensions.CheckNullNamed(request, Some("request"));
    var _ :- ObjectExtensions.CheckNullNamed(loggingEvent, Some("loggingEvent"));
    if p.layout.None? then Failure(NullReference)
    else AddToItemsIfNotNullOrEmpty(p, isNumeric, request, p.layout.value(loggingEvent.value))
  }

  /** The parameter has a layout and renders the event to a value that is not skipped. */
  predicate Contributes(p: Parameter, ev: LoggingEvent) {
    p.layout.Some? && !Skips(p.layout.value(ev))
  }

  /** The attribute a contributing parameter builds for the event. */
  function AttributeFor(p: Parameter, isNumeric: string -> bool, ev: LoggingEvent): Result<AttributeValue, Error>
    requires p.layout.Some?
  {
    BuildAttribute(p.kind, isNumeric, p.layout.value(ev))
  }

  /** The parameter's layout renders the event to an object whose text is t. */
  predicate RendersText(p: Parameter, ev: LoggingEvent, t: string) {
    p.layout.Some? && p.layout.value(ev).Some? && p.layout.value(ev).value.text == Some(t)
  }

  /**
   A white-space-only rendering is not skipped: a string-typed parameter
   rejects it with the builder's empty-string error.
   */
  lemma WhiteSpaceValueIsRejected(p: Parameter, isNumeric: string -> bool, request: PutItemRequest, ev: LoggingEvent, t: string)
    requires p.kind != TypeB && p.kind != TypeN
    requires RendersText(p, ev, t) && t != "" && AllWhiteSpace(t)
    ensures AddFormatParameter(p, isNumeric, Some(request), Some(ev))
            == Failure(Argument(StringCannotBeEmpty, Some("logItem")))
  {
  }

  /** A numeric parameter whose rendering is not numeric propagates the builder's error. */
  lemma NonNumericValueIsRejected(p: Parameter, isNumeric: string -> bool, request: PutItemRequest, ev: LoggingEvent, t: string)
    requires p.kind == TypeN
    requires RendersText(p, ev, t) && t != "" && !isNumeric(t)
    ensures AddFormatParameter(p, isNumeric, Some(request), Some(ev))
            == Failure(Argument(ItemNotNumeric, None))
  {
  }
}
