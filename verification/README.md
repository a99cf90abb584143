# log4net.dynamodb in Dafny

This project models log4net.dynamodb, a log4net appender that stores logging
events in an Amazon DynamoDB table, and proves properties of that model. It
models two appenders and their helpers.

- The **configurable appender** (`DynamoDbAppender` in the `Appender`
  folder) holds a table name, an optional service endpoint and an ordered
  list of **parameters**. A parameter binds a column name to a layout and to
  an attribute type: S (string), N (numeric) or B (binary). On every flush,
  the appender builds one `PutItemRequest` per event. It starts from an empty
  item and applies each parameter in order. Then it writes the request
  through a **data writer**. The appender creates the data writer on its
  first flush and releases it on close or dispose.
- The **legacy appender** (`DynamoDbAppender` at the project root) maps each
  event onto a fixed set of columns (`ColumnKey`).
- The **attribute builder** turns one object into an S, N or B attribute.
  The **guard extensions** (`CheckNull`, `CheckNullOrEmpty`,
  `IsNullOrEmptyTrimmed`) raise on null or blank arguments.

Modules follow the source classes:

- `wrappers.dfy`: `Option` and `Result`.
- `platform.dfy`: the .NET pieces the code relies on. These are null-aware
  strings, `string.IsNullOrEmpty`, `Char.IsWhiteSpace`/`String.Trim`,
  `Dictionary.Add`, and integer text as used by the builder's fixture.
- `types.dfy`: logging events, objects, attribute values, put requests and
  client calls.
- `extensions.dfy`: `ObjectExtensions` and `StringExtensions`.
- `attribute_builder.dfy`: `DynamoDbAttributeBuilder`.
- `appender_parameter.dfy`: `DynamoDbAppenderParameter`.
- `data_writer.dfy`: `DynamoDbDataWriter`, plus the client protocol
  (`Session`, `Replay`).
- `appender.dfy`: the configurable `DynamoDbAppender`, and
  `DynamoDbAppenderLifecycle` for its invariant and flush/close lemmas.
- `legacy_appender.dfy`: `ColumnKey` and `LegacyDynamoDbAppender`.

How the external collaborators are represented:

- **Exceptions** are `Failure` values of a `Result`.
- **An object** is represented by what the library can observe of it:
  - its `ToString()` text, which may be null;
  - the bytes the binary formatter writes for it, or `None` if the formatter
    rejects it.
- **`Information.IsNumeric`** is a parameter `isNumeric: string -> bool`. A
  null text never counts as numeric.
- **Layouts** are functions from an event to a possibly-null object.
- **The table service** is a trace of client calls: `Connect`, `Put` and
  `Release`. Whether the service rejects the call at trace position `k` is
  the input `fails(k)`.
- **The `DEBUG` build** is the flag `debug`.
- **The GUID, the machine name and the rendered time stamp** are inputs.

Behaviours of the code that the model makes explicit:

- **Duplicate column names.** A second parameter with the same column name
  does not overwrite the first. Parameters are added to the item with
  `Dictionary.Add`, which raises `ArgumentException` on a key that is
  already present (`Appender/DynamoDbAppenderParameter.cs:97-103`;
  `DynamoDbAppender.ApplyParametersSucceedsIff`,
  `DynamoDbAppender.DuplicateColumnRaises`). The error reaches the caller
  unchanged (`DynamoDbAppender.ApplyParametersFirstError`).
- **Failures end a flush.** Nothing in the configurable appender's
  `SendBuffer` catches an error (`Appender/DynamoDbAppender.cs:79-93`).
  So the first event whose request cannot be built ends the flush, and the
  later events are not written
  (`DynamoDbAppenderLifecycle.FlushStopsAtFailingEvent`). `Write` swallows
  client errors in a release build. In a debug build it rethrows them
  (`Appender/DynamoDbDataWriter.cs:58-63`), so a rejected write ends the
  flush as well (`DynamoDbAppenderLifecycle.DebugFlushRaisesOnRejectedWrite`).
- **White-space-only values.** The skip test in
  `AddToItemsIfNotNullOrEmpty` is `string.IsNullOrEmpty`, which does not
  trim (`Appender/DynamoDbAppenderParameter.cs:91`). So a rendered value made
  only of white space is not skipped. A string-typed parameter then reaches
  the string builder, whose `CheckNullOrEmpty` trims and raises
  `ArgumentException` (`DynamoDbAppenderParameter.WhiteSpaceValueIsRejected`).

## Model

| member | source | states |
|---|---|---|
| `Platform.Trim` | log4net.dynamodb/Extensions/StringExtensions.cs:19 | trimming leaves nothing exactly when every character is white space; a non-empty result starts and ends with a non-white character |
| `Platform.TrimIsInfix` | log4net.dynamodb/Extensions/StringExtensions.cs:19 | trimming removes only a white-space prefix and a white-space suffix, never a character from the middle |
| `Platform.DictionaryAdd` | log4net.dynamodb/Appender/DynamoDbAppenderParameter.cs:97-103 | a null key raises ArgumentNullException("key") and an existing key raises ArgumentException; otherwise exactly one entry is added and every other entry is unchanged |
| `Platform.ParseIntRoundTrip` | log4net.dynamodb.Tests/Appender/DynamoDbAttributeBuilderFixture.cs:35-39 | parsing the invariant text of any integer gives that integer back |
| `ObjectExtensions.CheckNullNamed` | log4net.dynamodb/Extensions/ObjectExtensions.cs:24-30 | raises exactly when the object is null, and the ArgumentNullException carries the given parameter name |
| `ObjectExtensions.CheckNull` | log4net.dynamodb/Extensions/ObjectExtensions.cs:14-17 | the one-argument overload raises exactly on null, with a null parameter name |
| `StringExtensions.IsNullOrEmptyTrimmed` | log4net.dynamodb/Extensions/StringExtensions.cs:17-20 | holds exactly for null and for strings made only of white space (so "" and "  " both count as empty) |
| `StringExtensions.CheckNullOrEmptyNamed` | log4net.dynamodb/Extensions/StringExtensions.cs:36-41 | raises ArgumentException(StringCannotBeEmpty, obj) exactly when the string is null or blank, and otherwise has no effect |
| `StringExtensions.CheckNullOrEmpty` | log4net.dynamodb/Extensions/StringExtensions.cs:26-29 | the one-argument overload raises exactly on null or blank strings, with a null parameter name |
| `StringExtensions.CheckNullOrEmptyExamples` | log4net.dynamodb.Tests/Extensions/StringExtensionsFixture.cs:13-23 | "" and null are rejected and "not empty" is accepted, by both overloads |
| `DynamoDbAttributeBuilder.BuildAttributeForTypeBinary` | log4net.dynamodb/Appender/DynamoDbAttributeBuilder.cs:22-32 | null raises ArgumentNullException("logItem") and a value the formatter rejects raises SerializationException; on success only B is set, and it holds the value's serialized bytes |
| `DynamoDbAttributeBuilder.BuildAttributeForTypeString` | log4net.dynamodb/Appender/DynamoDbAttributeBuilder.cs:39-45 | null raises ArgumentNullException("logItem"); a null or blank text raises ArgumentException; otherwise only S is set, and it holds the text unchanged |
| `DynamoDbAttributeBuilder.BuildAttributeForTypeNumeric` | log4net.dynamodb/Appender/DynamoDbAttributeBuilder.cs:52-62 | null raises ArgumentNullException("logItem"); a text that is not numeric raises ArgumentException(ItemNotNumeric); otherwise only N is set, and it holds the text unchanged |
| `DynamoDbAttributeBuilder.StringAttributeKeepsText` | log4net.dynamodb.Tests/Appender/DynamoDbAttributeBuilderFixture.cs:17-23 | "TESTING1234" comes back unchanged as S |
| `DynamoDbAttributeBuilder.NumericAttributeParsesBack` | log4net.dynamodb.Tests/Appender/DynamoDbAttributeBuilderFixture.cs:33-39 | for every integer whose text is numeric, the N built from it parses back to the integer |
| `DynamoDbAppenderParameter.BuildAttribute` | log4net.dynamodb/Appender/DynamoDbAppenderParameter.cs:94-105 | type 4 (B) uses the binary builder and type 2 (N) the numeric builder; every other value, including the default 0 (S), uses the string builder |
| `DynamoDbAppenderParameter.AddToItemsIfNotNullOrEmpty` | log4net.dynamodb/Appender/DynamoDbAppenderParameter.cs:87-109 | a null request raises; a null value or empty text leaves the request unchanged; otherwise the call succeeds exactly when the builder succeeds and Name is non-null and not yet in the item, and then exactly one entry is added under Name while the table and every other entry stay unchanged; builder errors propagate; a null Name raises ArgumentNullException("key") and a Name already present raises ArgumentException(DuplicateKey) |
| `DynamoDbAppenderParameter.AddFormatParameter` | log4net.dynamodb/Appender/DynamoDbAppenderParameter.cs:72-79 | a null request and then a null event raise ArgumentNullException before anything is rendered; a null layout raises NullReferenceException; otherwise the rendered value is added as above |
| `DynamoDbAppenderParameter.WhiteSpaceValueIsRejected` | log4net.dynamodb/Appender/DynamoDbAppenderParameter.cs:91-103 | a white-space-only rendering is not skipped: a string-typed parameter raises the builder's empty-string error |
| `DynamoDbAppenderParameter.NonNumericValueIsRejected` | log4net.dynamodb/Appender/DynamoDbAppenderParameter.cs:99-100 | a numeric parameter whose rendering is not numeric propagates the builder's not-numeric error |
| `DynamoDbDataWriter.ServiceUrl` | log4net.dynamodb/Appender/DynamoDbDataWriter.cs:36-43 | a null or empty endpoint selects "http://dynamodb.us-east-1.amazonaws.com"; any other endpoint is used unchanged; the URL is never empty |
| `DynamoDbDataWriter.Create` | log4net.dynamodb/Appender/DynamoDbDataWriter.cs:36-44 | the new writer holds a client for the resolved URL, and constructing it is the only call recorded |
| `DynamoDbDataWriter.CreateDefault` | log4net.dynamodb/Appender/DynamoDbDataWriter.cs:27-30 | the parameterless constructor connects to the default endpoint |
| `DynamoDbDataWriter.Write` | log4net.dynamodb/Appender/DynamoDbDataWriter.cs:50-65 | a null item raises ArgumentNullException("item") and calls nothing; otherwise PutItem is called exactly once, with no retry; in a release build every client error is swallowed; in a debug build the call raises exactly when the client is released or the service rejects the call |
| `DynamoDbDataWriter.DisposeWith` | log4net.dynamodb/Appender/DynamoDbDataWriter.cs:80-90 | Dispose(false) changes nothing; Dispose(true) leaves no client, and releases the client only if there was one |
| `DynamoDbDataWriter.Dispose` | log4net.dynamodb/Appender/DynamoDbDataWriter.cs:70-74 | afterwards no client is held; the old trace is kept, and the only call added is the Release of the held client, if there was one |
| `DynamoDbDataWriter.DisposeIsIdempotent` | log4net.dynamodb/Appender/DynamoDbDataWriter.cs:84-88 | a second Dispose changes neither the writer nor the trace, so the client is released at most once |
| `DynamoDbDataWriter.CreateOpensSession` | log4net.dynamodb/Appender/DynamoDbDataWriter.cs:43 | constructing a writer while no client is open opens exactly that writer's client |
| `DynamoDbDataWriter.WriteKeepsSession` | log4net.dynamodb/Appender/DynamoDbDataWriter.cs:54-64 | writes only reach the open client and leave the client protocol in the same state |
| `DynamoDbDataWriter.DisposeKeepsSession` | log4net.dynamodb/Appender/DynamoDbDataWriter.cs:80-90 | disposing keeps the client protocol intact, and afterwards no client is open |
| `DynamoDbAppender.New` | log4net.dynamodb/Appender/DynamoDbAppender.cs:45-49 | a new appender has TableName "log4net", no endpoint, no parameters, no writer and no calls |
| `DynamoDbAppender.AddParameter` | log4net.dynamodb/Appender/DynamoDbAppender.cs:55-63 | a null parameter changes nothing; any other parameter is appended at the end and nothing else changes |
| `DynamoDbAppender.ApplyParameters` | log4net.dynamodb/Appender/DynamoDbAppender.cs:87-90 | applying the parameters keeps the table and every existing entry; with a null event it succeeds exactly when there are no parameters, and otherwise raises ArgumentNullException("loggingEvent") |
| `DynamoDbAppender.ApplyParametersSucceedsIff` | log4net.dynamodb/Appender/DynamoDbAppender.cs:87-90 | the fold succeeds exactly when every layout is set, every contributing parameter builds its attribute under a fresh name, and no two contributing parameters share a name; a duplicate name is an error, not an overwrite |
| `DynamoDbAppender.ApplyParametersContents` | log4net.dynamodb/Appender/DynamoDbAppender.cs:87-90 | on success each contributing parameter's attribute is in the item under its name, and every other key was already there |
| `DynamoDbAppender.ApplyParametersFirstError` | log4net.dynamodb/Appender/DynamoDbAppender.cs:87-90 | a fold that fails raises, unchanged, the error of the first parameter that failed: every parameter before it applied, and applying it raised that error |
| `DynamoDbAppender.DuplicateColumnRaises` | log4net.dynamodb/Appender/DynamoDbAppenderParameter.cs:97-103 | two contributing parameters with the same column name make the fold raise ArgumentException(DuplicateKey) instead of overwriting |
| `DynamoDbAppender.RequestFor` | log4net.dynamodb/Appender/DynamoDbAppender.cs:81-90 | each built request targets the configured TableName |
| `DynamoDbAppender.SendEvents` | log4net.dynamodb/Appender/DynamoDbAppender.cs:79-93 | one put per written event, in event order, each carrying that event's request; every event is written on success; on failure the flush stopped at the first event whose request could not be built, or (debug build only) at a rejected write; in a debug build every put except a last one that raised the service error was accepted |
| `DynamoDbAppender.SendBuffer` | log4net.dynamodb/Appender/DynamoDbAppender.cs:72-94 | the writer is created from ServiceEndpoint only when absent and is reused otherwise; the configuration is unchanged; the puts that follow satisfy the contract of SendEvents |
| `DynamoDbAppender.DisposeDataWriter` | log4net.dynamodb/Appender/DynamoDbAppender.cs:134-141 | afterwards no writer is held; without a writer nothing changes; with one, its client is released through the writer's Dispose, so the trace gains exactly the Release of that client |
| `DynamoDbAppender.OnClose` | log4net.dynamodb/Appender/DynamoDbAppender.cs:104-108 | closing leaves no writer; the trace gains exactly the Release of the held client, if any; the configuration is unchanged |
| `DynamoDbAppender.DisposeWith` | log4net.dynamodb/Appender/DynamoDbAppender.cs:123-129 | Dispose(false) changes nothing; Dispose(true) leaves no writer and adds exactly the Release of the held client, if any |
| `DynamoDbAppender.Dispose` | log4net.dynamodb/Appender/DynamoDbAppender.cs:113-117 | Dispose() leaves no writer and adds exactly the Release of the held client, if any; the configuration is unchanged |
| `DynamoDbAppenderLifecycle.NewIsValid` | log4net.dynamodb/Appender/DynamoDbAppender.cs:45-49 | a new appender satisfies the client-protocol invariant |
| `DynamoDbAppenderLifecycle.AddParameterKeepsValid` | log4net.dynamodb/Appender/DynamoDbAppender.cs:55-63 | adding a parameter keeps the invariant |
| `DynamoDbAppenderLifecycle.PutsKeepSession` | log4net.dynamodb/Appender/DynamoDbAppender.cs:79-93 | any run of puts to the open client leaves that client open |
| `DynamoDbAppenderLifecycle.SendBufferKeepsValid` | log4net.dynamodb/Appender/DynamoDbAppender.cs:72-94 | a flush keeps the invariant: at most one client is connected, and every put goes to the open client |
| `DynamoDbAppenderLifecycle.DisposeDataWriterKeepsValid` | log4net.dynamodb/Appender/DynamoDbAppender.cs:134-141 | releasing the writer keeps the invariant and leaves no client open |
| `DynamoDbAppenderLifecycle.CloseKeepsValid` | log4net.dynamodb/Appender/DynamoDbAppender.cs:104-129 | OnClose, Dispose() and Dispose(disposing) keep the invariant |
| `DynamoDbAppenderLifecycle.DisposeDataWriterIsIdempotent` | log4net.dynamodb/Appender/DynamoDbAppender.cs:134-141 | a second DisposeDataWriter changes nothing; the first keeps the old trace and adds only the Release of the held client, if any |
| `DynamoDbAppenderLifecycle.EmptyFlushWritesNothing` | log4net.dynamodb/Appender/DynamoDbAppender.cs:79-93 | a flush of no events succeeds and issues no write |
| `DynamoDbAppenderLifecycle.FlushReusesWriter` | log4net.dynamodb/Appender/DynamoDbAppender.cs:74-77 | with a writer present, a flush keeps that writer and adds only puts |
| `DynamoDbAppenderLifecycle.FlushAfterCloseReconnects` | log4net.dynamodb/Appender/DynamoDbAppender.cs:74-77 | after a close, the next flush connects a fresh client for the configured endpoint, and the invariant still holds |
| `DynamoDbAppenderLifecycle.FlushWritesEveryEvent` | log4net.dynamodb/Appender/DynamoDbAppender.cs:79-93 | a successful flush issues exactly one put per event, in event order; each put goes to the writer's client and carries that event's request, which targets TableName |
| `DynamoDbAppenderLifecycle.DebugFlushRaisesOnRejectedWrite` | log4net.dynamodb/Appender/DynamoDbDataWriter.cs:54-64 | in a debug build a successful flush had every put accepted, and a flush with a rejected put raises the service error |
| `DynamoDbAppenderLifecycle.FlushStopsAtFailingEvent` | log4net.dynamodb/Appender/DynamoDbAppender.cs:79-93 | in a release build a failed flush wrote events 0..n-1, and failed with event n's build error; event n and the events after it were not written |
| `DynamoDbAppenderLifecycle.AppLogsExample` | log4net.dynamodb/Appender/DynamoDbAppender.cs:79-93 | a table "AppLogs" with one string parameter "Message" rendering "boom" writes exactly {table "AppLogs", item {Message: S "boom"}} |
| `ColumnKey.AllDistinct` | log4net.dynamodb/ColumnKey.cs:11-66 | the twelve column names are distinct |
| `LegacyDynamoDbAppender.New` | log4net.dynamodb/DynamoDbAppender.cs:58-62 | a new appender has TableName "log4net", no prefix, and SerializeExceptions false |
| `LegacyDynamoDbAppender.TableNameWithPrefix` | log4net.dynamodb/DynamoDbAppender.cs:49-52 | the table name is the prefix followed by the name, where null counts as empty |
| `LegacyDynamoDbAppender.NullPrefixActsAsEmpty` | log4net.dynamodb/DynamoDbAppender.cs:49-52 | a null or empty prefix leaves the table name as it is |
| `LegacyDynamoDbAppender.AddToItemsIfNotEmpty` | log4net.dynamodb/DynamoDbAppender.cs:165-174 | a null or empty value changes nothing; otherwise the value is added as S under the column; the call fails only if the column is already present, with ArgumentException(DuplicateKey) |
| `LegacyDynamoDbAppender.AddAllIfNotEmpty` | log4net.dynamodb/DynamoDbAppender.cs:116-121 | with fresh, distinct columns the run succeeds, and each column is present exactly when its value is non-empty, holding that value; existing entries are kept and no other key appears |
| `LegacyDynamoDbAppender.AddExceptionToItemsIfNotNull` | log4net.dynamodb/DynamoDbAppender.cs:133-157 | without an exception nothing changes; with one, ExceptionMessage and StackTrace are present exactly when non-empty, and Exception is present exactly when SerializeExceptions is set, holding the serialized bytes; the only failure is a formatter rejection |
| `LegacyDynamoDbAppender.MessageItem` | log4net.dynamodb/DynamoDbAppender.cs:105-115 | the item starts with Id and TimeStamp, and has Message exactly when the rendered message is non-empty |
| `LegacyDynamoDbAppender.StringItem` | log4net.dynamodb/DynamoDbAppender.cs:105-121 | the string part fails exactly when the event has no Level, with NullReferenceException |
| `LegacyDynamoDbAppender.StringItemKeys` | log4net.dynamodb/DynamoDbAppender.cs:105-121 | the string part holds Id and TimeStamp and only string-column keys |
| `LegacyDynamoDbAppender.StringItemColumns` | log4net.dynamodb/DynamoDbAppender.cs:115-121 | each of Message, Level, Username, MachineName, ThreadName, AppDomain and Identity is present exactly when its source is non-null and non-empty, and then holds it unchanged |
| `LegacyDynamoDbAppender.BuildItem` | log4net.dynamodb/DynamoDbAppender.cs:105-123 | an event without a Level raises NullReferenceException |
| `LegacyDynamoDbAppender.BuildItemFailsIff` | log4net.dynamodb/DynamoDbAppender.cs:105-150 | building an item fails exactly on a missing Level (NullReferenceException), or on an exception the formatter rejects while SerializeExceptions is set (SerializationException, the only error once a Level is present); a duplicate column never occurs |
| `LegacyDynamoDbAppender.BuildItemKeys` | log4net.dynamodb/DynamoDbAppender.cs:105-157 | an event with a Level builds an item, unless its exception cannot be serialized while SerializeExceptions is set; the item holds Id and TimeStamp and only ColumnKey columns; ExceptionMessage and StackTrace need an exception; Exception is present exactly when there is an exception and SerializeExceptions is set, and then holds the serialized bytes |
| `LegacyDynamoDbAppender.ExceptionKeepsStringColumns` | log4net.dynamodb/DynamoDbAppender.cs:138-150 | adding the exception columns neither adds, removes nor changes a string column |
| `LegacyDynamoDbAppender.BuildItemStringColumns` | log4net.dynamodb/DynamoDbAppender.cs:115-123 | in every built item, each of the seven string columns is present exactly when its value is non-null and non-empty, and then holds it unchanged |
| `LegacyDynamoDbAppender.SendEvent` | log4net.dynamodb/DynamoDbAppender.cs:93-126 | a null event produces no request; a null client raises ArgumentNullException("client"); an item that cannot be built raises the build's own error; otherwise the one request handed to PutItem targets the prefixed table and carries the built item |

## Left out

- DynamoDbDataWriter.Create: cannot fail in the model. In the source, constructing `AmazonDynamoDBClient` can throw, for example when no credentials are configured (`Appender/DynamoDbDataWriter.cs:43`). `SendBuffer` would then raise before any event is written, and `DataWriter` would stay null.
- The transport of the AWS SDK client: `PutItem` is a `Put` entry in the trace, and its failure is the input `fails`.
- The byte layout of `BinaryFormatter` and `ToString()`: an object is represented by its text and its serialized bytes. The model assumes `ToString()` returns the same text each time it is called.
- `Information.IsNumeric`: it is the parameter `isNumeric`.
- The `MemoryStream` that wraps B: a binary attribute holds the bytes. The model does not represent that the stream is disposed before the request is sent. The attribute builder disposes it when `BuildAttributeForTypeBinary` returns (`Appender/DynamoDbAttributeBuilder.cs:26-31`). The legacy `AddExceptionToItemsIfNotNull` disposes it (`DynamoDbAppender.cs:152-155`) before `PutItem` runs (line 125).
- `Guid.NewGuid`, `DateTime` formatting in the invariant culture, and `Environment.MachineName`: they are inputs.
- `Trace` and `Debug` diagnostic output, and `GC.SuppressFinalize`: these are side channels with no effect on the model.
- log4net's `BufferingAppenderSkeleton`: it decides when `SendBuffer` runs and whether the buffer drains on close. `base.OnClose()` is not modelled. `OnClose` releases the data writer before calling `base.OnClose()` (`Appender/DynamoDbAppender.cs:106-107`). For a non-lossy buffer, that base method flushes the remaining events, so `SendBuffer` creates a new data writer that nothing releases afterwards. `DynamoDbAppenderLifecycle.FlushAfterCloseReconnects` shows the reconnect that such a flush performs.
- The legacy appender's `SendBuffer`: it sends through `Parallel.ForEach` and catches errors around the whole batch. This is concurrency. Only the per-event `SendEvent` is modelled.
- LegacyDynamoDbAppender.SendEvent: returns the request handed to `PutItem`. The outcome of that call is not modelled: it is caught by the legacy `SendBuffer`, which is left out.
- DynamoDbAppender.SendBuffer: requires that a held writer still has its client (`WriterOpen`). The appender's own operations cannot break this, because `DisposeDataWriter` clears the field when it releases the client. A subclass that disposes the protected field directly is not modelled.
- DynamoDbAppender.SendBuffer: takes the batch as a sequence. A null array, which would raise NullReferenceException after the writer is created, is not modelled.
- `Platform.ParseInt`: models `int.Parse` only on an optional minus sign followed by digits. Surrounding white space, a leading plus sign and 32-bit overflow are not modelled. It is used only for the fixture's round trip.
- `IDataWriter.cs`: it is an interface with no behaviour. The writer exposes `Write` directly.
- `NewGuidPatternLayoutConverter.cs`: it writes a random GUID to a text writer. This is I/O plus randomness.
- The two integration fixtures (`DynamoDbAppenderFixture.cs`): they call the live service and only check that nothing throws.
