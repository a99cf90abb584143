/**
 DynamoDbDataWriter: owns one table service client, writes put requests
 through it and releases it on Dispose. Client calls are recorded in a trace;
 whether the service rejects a call is an input of the model.
 */
module DynamoDbDataWriter {
  import opened Wrappers
  import opened Platform
  import opened Types
  import ObjectExtensions

  const DefaultServiceEndpoint: string := "http://dynamodb.us-east-1.amazonaws.com"

  /** A data writer; `client` is its DynamoDbClient field, None once released. */
  datatype Writer = Writer(client: Option<Client>)

  /** A writer together with the trace of client calls made so far. */
  datatype WriterTrace = WriterTrace(writer: Writer, trace: seq<Call>)

  /** The trace after a call to Write, and whether Write raised. */
  datatype WriteOutcome = WriteOutcome(trace: seq<Call>, result: Result<(), Error>)

  /** The service URL the constructor configures: a null or empty endpoint selects the default. */
  function ServiceUrl(endpoint: NString): (url: string)
    ensures url != ""
    ensures IsNullOrEmpty(endpoint) ==> url == DefaultServiceEndpoint
    ensures !IsNullOrEmpty(endpoint) ==> url == endpoint.value
  {
    if IsNullOrEmpty(endpoint) then DefaultServiceEndpoint else endpoint.value
  }

  /** new DynamoDbDataWriter(endpoint): constructs a client for the resolved URL. */
  function Create(endpoint: NString, trace: seq<Call>): (r: WriterTrace)
    ensures r.writer.client == Some(Client(ServiceUrl(endpoint)))
    ensures r.trace == trace + [Connect(ServiceUrl(endpoint))]
  {
    var url := ServiceUrl(endpoint);
    WriterTrace(Writer(Some(Client(url))), trace + [Connect(url)])
  }

  /** new DynamoDbDataWriter(): the default endpoint. */
  function CreateDefault(trace: seq<Call>): (r: WriterTrace)
    ensures r.writer.client == Some(Client("http://dynamodb.us-east-1.amazonaws.com"))
    ensures r.trace == trace + [Connect("http://dynamodb.us-east-1.amazonaws.com")]
  {
    Create(Some(DefaultServiceEndpoint), trace)
  }

  /**
   Write(item): a null item raises ArgumentNullException before the client is
   touched. Otherwise PutItem is called once; `fails(k)` says whether the
   service rejects the call recorded at position k of the trace. A released
   client raises NullReferenceException. An exception raised by the call is
   rethrown in a debug build and swallowed otherwise; nothing is retried.
   */
  function Write(w: Writer, item: Option<PutItemRequest>, debug: bool, fails: nat -> bool, trace: seq<Call>)
    : (r: WriteOutcome)
    ensures item.None? ==> r == WriteOutcome(trace, Failure(ArgumentNull(Some("item"))))
    ensures item.Some? && w.client.Some? ==> r.trace == trace + [Put(w.client.value.serviceUrl, item.value)]
    ensures item.Some? && w.client.None? ==> r.trace == trace
    ensures item.Some? && !debug ==> r.result.Success?
    ensures item.Some? && debug ==> (r.result.Failure? <==> w.client.None? || fails(|trace|))
    ensures item.Some? && debug && w.client.None? ==> r.result == Failure(NullReference)
    ensures item.Some? && debug && w.client.Some? && fails(|trace|) ==> r.result == Failure(Service)
  {
    if ObjectExtensions.CheckNullNamed(item, Some("item")).Failure? then
      WriteOutcome(trace, Failure(ArgumentNull(Some("item"))))
    else
      var (trace', raised) :=
        if w.client.None? then (trace, Some(NullReference))
        else (trace + [Put(w.client.value.serviceUrl, item.value)], if fails(|trace|) then Some(Service) else None);
      if raised.Some? && debug then WriteOutcome(trace', Failure(raised.value))
      else WriteOutcome(trace', Success(()))
  }

  /** Dispose(disposing): releases the client once when disposing; Dispose(false) does nothing. */
  function DisposeWith(w: Writer, disposing: bool, trace: seq<Call>): (r: WriterTrace)
    ensures !disposing ==> r == WriterTrace(w, trace)
    ensures disposing ==> r.writer.client.None?
    ensures disposing && w.client.Some? ==> r.trace == trace + [Release(w.client.value.serviceUrl)]
    ensures disposing && w.client.None? ==> r.trace == trace
  {
    if disposing && w.client.Some? then WriterTrace(Writer(None), trace + [Release(w.client.value.serviceUrl)])
    else WriterTrace(w, trace)
  }

  /** Dispose(): releases the client, if one is held, and records nothing else. */
  function Dispose(w: Writer, trace: seq<Call>): (r: WriterTrace)
    ensures r.writer.client.None?
    ensures r.trace == trace + (if w.client.Some? then [Release(w.client.value.serviceUrl)] else [])
  {
    DisposeWith(w, true, trace)
  }

  /** Disposing twice is the same as disposing once: the client is released at most once. */
  lemma DisposeIsIdempotent(w: Writer, trace: seq<Call>)
    ensures var d := Dispose(w, trace); Dispose(d.writer, d.trace) == d
  {
  }

  /** What the trace says about the client: none open, one open for url, or a misuse. */
  datatype Session = Idle | Open(url: string) | Broken

  /**
   The client protocol: a client is constructed only when none is open, puts
   and the release go to the open client, and a release closes it.
   */
  function Step(s: Session, c: Call): Session {
    match c
    case Connect(url) => if s == Idle then Open(url) else Broken
    case Put(url, _) => if s == Open(url) then s else Broken
    case Release(url) => if s == Open(url) then Idle else Broken
  }

  /** The session a trace leaves behind. */
  function Replay(trace: seq<Call>): Session
    decreases |trace|
  {
    if trace == [] then Idle else Step(Replay(trace[..|trace| - 1]), trace[|trace| - 1])
  }

  /** The session a writer's client stands for. */
  function SessionOf(w: Writer): Session {
    if w.client.Some? then Open(w.client.value.serviceUrl) else Idle
  }

  lemma ReplayAppend(trace: seq<Call>, c: Call)
    ensures Replay(trace + [c]) == Step(Replay(trace), c)
  {
  }

  /** Constructing a writer when no client is open opens exactly its client. */
  lemma CreateOpensSession(endpoint: NString, trace: seq<Call>)
    requires Replay(trace) == Idle
    ensures var c := Create(endpoint, trace); Replay(c.trace) == SessionOf(c.writer) != Idle
  {
  }

  /** A write keeps the protocol: puts go only to the open client, and the session is unchanged. */
  lemma WriteKeepsSession(w: Writer, item: Option<PutItemRequest>, debug: bool, fails: nat -> bool, trace: seq<Call>)
    requires Replay(trace) == SessionOf(w)
    ensures Replay(Write(w, item, debug, fails, trace).trace) == SessionOf(w)
  {
  }

  /** Disposing keeps the protocol and ends with no client open. */
  lemma DisposeKeepsSession(w: Writer, disposing: bool, trace: seq<Call>)
    requires Replay(trace) == SessionOf(w)
    ensures var d := DisposeWith(w, disposing, trace); Replay(d.trace) == SessionOf(d.writer)
    ensures disposing ==> Replay(DisposeWith(w, disposing, trace).trace) == Idle
  {
  }
}
