/**
 The records the appender reads and writes: the logging framework's event,
 the objects a layout renders, and the table service's attribute values,
 put requests and client calls.
 */
module Types {
  import opened Wrappers
  import opened Platform

  /**
   A non-null object handed to the library. The library looks at an object
   only through two platform services, so an object is represented by what
   they return for it: `text` is its ToString() (which may itself be null) and
   `serialized` is what the binary formatter writes for it, or None when the
   formatter rejects it (a type that is not serializable).
   */
  datatype Obj = Obj(text: NString, serialized: Option<seq<byte>>)

  /**
   The table service's AttributeValue, restricted to the three scalar members
   this library sets: S (string), N (number, kept as its text) and B (binary).
   */
  datatype AttributeValue = AttributeValue(s: NString, n: NString, b: Option<seq<byte>>)

  /** Number of the members S, N and B that are set. */
  function PopulatedCount(a: AttributeValue): nat {
    (if a.s.Some? then 1 else 0) + (if a.n.Some? then 1 else 0) + (if a.b.Some? then 1 else 0)
  }

  /** `new AttributeValue { S = text }` */
  function StringAttribute(text: string): AttributeValue {
    AttributeValue(Some(text), None, None)
  }

  /** The item of a put request: column name to attribute. */
  type Item = map<string, AttributeValue>

  /** PutItemRequest: the target table and the item to store. */
  datatype PutItemRequest = PutItemRequest(tableName: NString, item: Item)

  /** The exception attached to a logging event, seen through the members the legacy appender reads. */
  datatype ExceptionObject = ExceptionObject(message: NString, stackTrace: NString, serialized: Option<seq<byte>>)

  /**
   A logging event of the host framework. `level` is the text of the event's
   Level object (None when the event has no Level) and `timeStamp` is the
   invariant-culture rendering of its time stamp.
   */
  datatype LoggingEvent = LoggingEvent(
    renderedMessage: NString,
    level: NString,
    userName: NString,
    threadName: NString,
    domain: NString,
    identity: NString,
    timeStamp: string,
    exceptionObject: Option<ExceptionObject>)

  /** A raw layout: renders an event into an object, or into null. */
  type Layout = LoggingEvent -> Option<Obj>

  /** A table service client, known by the service URL it was configured with. */
  datatype Client = Client(serviceUrl: string)

  /** One call made on a table service client, as recorded in the trace of calls. */
  datatype Call =
    | Connect(url: string)                         // a client is constructed
    | Put(url: string, request: PutItemRequest)    // PutItem on the client for url
    | Release(url: string)                         // the client is disposed
}
