/**
 The configurable DynamoDbAppender: a table name, an optional service
 endpoint and an ordered list of parameters. Each flush builds one put request
 per event by applying every parameter in order to an empty item, and writes
 it through a data writer that is created on first use and released on close.
 */
module DynamoDbAppender {
  import opened Wrappers
  import opened Platform
  import opened Types
  import opened DynamoDbAppenderParameter
  import opened DynamoDbDataWriter

  const DefaultTableName: string := "log4net"

  /**
   The appender's state: its configuration, its DataWriter field, and the
   trace of every client call made on its behalf.
   */
  datatype Appender = Appender(
    tableName: NString,
    serviceEndpoint: NString,
    parameters: seq<Parameter>,
    dataWriter: Option<Writer>,
    trace: seq<Call>)

  /** The appender after a flush, and whether the flush raised. */
  datatype Flush = Flush(appender: Appender, result: Result<(), Error>)

  /** new DynamoDbAppender() */
  function New(): (a: Appender)
    ensures a.tableName == Some("log4net") && a.serviceEndpoint.None?
    ensures a.parameters == [] && a.dataWriter.None? && a.trace == []
  {
    Appender(Some(DefaultTableName), None, [], None, [])
  }

  /** AddParameter: a null parameter is ignored, any other is appended. */
  function AddParameter(a: Appender, parameter: Option<Parameter>): (r: Appender)
    ensures parameter.None? ==> r == a
    ensures parameter.Some? ==> |r.parameters| == |a.parameters| + 1
                                && r.parameters[..|a.parameters|] == a.parameters
                                && r.parameters[|a.parameters|] == parameter.value
    ensures r.(parameters := a.parameters) == a
  {
    if parameter.None? then a else a.(parameters := a.parameters + [parameter.value])
  }

  /** The inner loop of SendBuffer: each parameter in turn adds its column to the request. */
  function ApplyParameters(ps: seq<Parameter>, isNumeric: string -> bool, request: PutItemRequest, ev: Option<LoggingEvent>)
    : (r: Result<PutItemRequest, Error>)
    ensures r.Success? ==> r.value.tableName == request.tableName
    ensures r.Success? ==> forall k :: k in request.item ==> k in r.value.item && r.value.item[k] == request.item[k]
    ensures ev.None? ==> (r.Success? <==> ps == [])
    ensures ev.None? && ps != [] ==> r == Failure(ArgumentNull(Some("loggingEvent")))
    decreases |ps|
  {
    if ps == [] then Success(request)
    else
      var next :- AddFormatParameter(ps[0], isNumeric, Some(request), ev);
      ApplyParameters(ps[1..], isNumeric, next, ev)
  }

  /**
   When the parameters accept an event: every layout is set, every
   contributing parameter builds its attribute under a name that is not yet
   taken, and no two contributing parameters share a name.
   */
  ghost predicate Admits(ps: seq<Parameter>, isNumeric: string -> bool, keys: set<string>, ev: LoggingEvent) {
    && (forall i :: 0 <= i < |ps| ==> ps[i].layout.Some?)
    && (forall i :: 0 <= i < |ps| && Contributes(ps[i], ev) ==>
          AttributeFor(ps[i], isNumeric, ev).Success? && ps[i].name.Some? && ps[i].name.value !in keys)
    && (forall i, j :: 0 <= i < j < |ps| && Contributes(ps[i], ev) && Contributes(ps[j], ev) ==>
          ps[i].name != ps[j].name)
  }

  /** Admits for a list splits into its head and the tail with the head's column taken. */
  lemma AdmitsCons(ps: seq<Parameter>, isNumeric: string -> bool, keys: set<string>, keys': set<string>, ev: LoggingEvent)
    requires ps != [] && ps[0].layout.Some?
    requires Contributes(ps[0], ev) ==> AttributeFor(ps[0], isNumeric, ev).Success? && ps[0].name.Some?
                                        && ps[0].name.value !in keys && keys' == keys + {ps[0].name.value}
    requires !Contributes(ps[0], ev) ==> keys' == keys
    ensures Admits(ps, isNumeric, keys, ev) <==> Admits(ps[1..], isNumeric, keys', ev)
  {
  }

  /**
   The fold succeeds exactly when the parameters admit the event: a
   duplicate column name is an error, never an overwrite.
   */
  lemma {:induction false} ApplyParametersSucceedsIff(ps: seq<Parameter>, isNumeric: string -> bool, request: PutItemRequest, ev: LoggingEvent)
    ensures ApplyParameters(ps, isNumeric, request, Some(ev)).Success? <==> Admits(ps, isNumeric, request.item.Keys, ev)
    decreases |ps|
  {
    if ps != [] {
      var p := ps[0];
      var step := AddFormatParameter(p, isNumeric, Some(request), Some(ev));
      if step.Success? {
        ApplyParametersSucceedsIff(ps[1..], isNumeric, step.value, ev);
        AdmitsCons(ps, isNumeric, request.item.Keys, step.value.item.Keys, ev);
      } else {
        assert !Admits(ps, isNumeric, request.item.Keys, ev) by {
          if p.layout.Some? {
            assert ps[0] == p;
          }
        }
      }
    }
  }

  /**
   On success the item holds the request's entries, plus one entry per
   contributing parameter, under its name, holding the attribute it built,
   and nothing else.
   */
  lemma {:induction false} ApplyParametersContents(ps: seq<Parameter>, isNumeric: string -> bool, request: PutItemRequest, ev: LoggingEvent)
    requires ApplyParameters(ps, isNumeric, request, Some(ev)).Success?
    ensures var item := ApplyParameters(ps, isNumeric, request, Some(ev)).value.item;
            forall i :: 0 <= i < |ps| && Contributes(ps[i], ev) ==>
              && AttributeFor(ps[i], isNumeric, ev).Success?
              && ps[i].name.Some? && ps[i].name.value in item
              && item[ps[i].name.value] == AttributeFor(ps[i], isNumeric, ev).value
    ensures var item := ApplyParameters(ps, isNumeric, request, Some(ev)).value.item;
            forall k :: k in item ==>
              k in request.item || exists i :: 0 <= i < |ps| && Contributes(ps[i], ev) && ps[i].name == Some(k)
    decreases |ps|
  {
    if ps != [] {
      var step := AddFormatParameter(ps[0], isNumeric, Some(request), Some(ev));
      var tail := ps[1..];
      ApplyParametersContents(tail, isNumeric, step.value, ev);
      var item := ApplyParameters(ps, isNumeric, request, Some(ev)).value.item;
      assert item == ApplyParameters(tail, isNumeric, step.value, Some(ev)).value.item;
      forall i | 0 <= i < |ps| && Contributes(ps[i], ev)
        ensures && AttributeFor(ps[i], isNumeric, ev).Success?
                && ps[i].name.Some? && ps[i].name.value in item
                && item[ps[i].name.value] == AttributeFor(ps[i], isNumeric, ev).value
      {
        if i > 0 { assert ps[i] == tail[i - 1]; }
      }
      forall k | k in item
        ensures k in request.item || exists i :: 0 <= i < |ps| && Contributes(ps[i], ev) && ps[i].name == Some(k)
      {
        if k !in step.value.item {
          var i :| 0 <= i < |tail| && Contributes(tail[i], ev) && tail[i].name == Some(k);
          assert ps[i + 1] == tail[i];
        } else if k !in request.item {
          assert Contributes(ps[0], ev) && ps[0].name == Some(k);
        }
      }
    }
  }

  /**
   Parameter i is where the fold fails with error e: the parameters before it
   all applied, and applying it to their result raised e.
   */
  ghost predicate FailsAt(ps: seq<Parameter>, isNumeric: string -> bool, request: PutItemRequest, ev: LoggingEvent, i: int, e: Error) {
    && 0 <= i < |ps|
    && ApplyParameters(ps[..i], isNumeric, request, Some(ev)).Success?
    && AddFormatParameter(ps[i], isNumeric, Some(ApplyParameters(ps[..i], isNumeric, request, Some(ev)).value), Some(ev))
       == Failure(e)
  }

  /**
   Nothing in the loop catches: a fold that fails raises the error of the
   first parameter that failed, unchanged.
   */
  lemma {:induction false} ApplyParametersFirstError(ps: seq<Parameter>, isNumeric: string -> bool, request: PutItemRequest, ev: LoggingEvent)
    requires ApplyParameters(ps, isNumeric, request, Some(ev)).Failure?
    ensures exists i :: FailsAt(ps, isNumeric, request, ev, i, ApplyParameters(ps, isNumeric, request, Some(ev)).error)
    decreases |ps|
  {
    var e := ApplyParameters(ps, isNumeric, request, Some(ev)).error;
    var step := AddFormatParameter(ps[0], isNumeric, Some(request), Some(ev));
    if step.Failure? {
      assert ps[..0] == [];
      assert FailsAt(ps, isNumeric, request, ev, 0, e);
    } else {
      var tail := ps[1..];
      ApplyParametersFirstError(tail, isNumeric, step.value, ev);
      var j :| FailsAt(tail, isNumeric, step.value, ev, j, e);
      var prefix := ps[..j + 1];
      assert prefix[0] == ps[0] && prefix[1..] == tail[..j];
      assert ApplyParameters(prefix, isNumeric, request, Some(ev)) == ApplyParameters(tail[..j], isNumeric, step.value, Some(ev));
      assert ps[j + 1] == tail[j];
      assert FailsAt(ps, isNumeric, request, ev, j + 1, e);
    }
  }

  /** A second parameter with the same column name raises ArgumentException instead of overwriting the first. */
  lemma DuplicateColumnRaises(p: Parameter, q: Parameter, isNumeric: string -> bool, tableName: NString, ev: LoggingEvent)
    requires p.name.Some? && q.name == p.name
    requires Contributes(p, ev) && Contributes(q, ev)
    requires AttributeFor(p, isNumeric, ev).Success? && AttributeFor(q, isNumeric, ev).Success?
    ensures ApplyParameters([p, q], isNumeric, PutItemRequest(tableName, map[]), Some(ev)) == Failure(Argument(DuplicateKey, None))
  {
    var first := AddFormatParameter(p, isNumeric, Some(PutItemRequest(tableName, map[])), Some(ev));
    assert first.Success? && p.name.value in first.value.item;
    assert [p, q][1..] == [q];
  }

  /** The request SendBuffer builds for one event: the configured table, the parameters applied to an empty item. */
  function RequestFor(tableName: NString, ps: seq<Parameter>, isNumeric: string -> bool, ev: Option<LoggingEvent>)
    : (r: Result<PutItemRequest, Error>)
    ensures r.Success? ==> r.value.tableName == tableName
  {
    ApplyParameters(ps, isNumeric, PutItemRequest(tableName, map[]), ev)
  }

  /**
   What one flush leaves in the trace, from t0 to t1: one put to url per
   written event, in event order, each carrying that event's request; all
   events written on success; on failure, writing stopped at the first event
   whose request could not be built, or (debug build only) at a rejected write.
   In a debug build every rejected write ends the flush: each put but the last
   was accepted, and the last one too unless the flush failed with the
   service's error.
   */
  ghost predicate SentInOrder(t0: seq<Call>, t1: seq<Call>, url: string, tableName: NString, ps: seq<Parameter>,
                              isNumeric: string -> bool, events: seq<Option<LoggingEvent>>, debug: bool,
                              fails: nat -> bool, result: Result<(), Error>)
  {
    && |t0| <= |t1| <= |t0| + |events|
    && t1[..|t0|] == t0
    && (forall k :: 0 <= k < |t1| - |t0| ==>
          && RequestFor(tableName, ps, isNumeric, events[k]).Success?
          && t1[|t0| + k] == Put(url, RequestFor(tableName, ps, isNumeric, events[k]).value))
    && (result.Success? ==> |t1| == |t0| + |events|)
    && (result.Failure? ==>
          || (|t1| - |t0| < |events| && RequestFor(tableName, ps, isNumeric, events[|t1| - |t0|]) == Failure(result.error))
          || (debug && |t0| < |t1| && fails(|t1| - 1) && result.error == Service))
    && (debug ==> forall k :: |t0| <= k < |t1| - 1 ==> !fails(k))
    && (debug && |t0| < |t1| && result != Failure(Service) ==> !fails(|t1| - 1))
  }

  /** A first event written with a put, followed by the rest of the flush, is a flush of the whole batch. */
  lemma SentInOrderCons(t0: seq<Call>, t1: seq<Call>, url: string, tableName: NString, ps: seq<Parameter>,
                        isNumeric: string -> bool, events: seq<Option<LoggingEvent>>, debug: bool,
                        fails: nat -> bool, result: Result<(), Error>)
    requires events != [] && RequestFor(tableName, ps, isNumeric, events[0]).Success?
    requires debug ==> !fails(|t0|)
    requires SentInOrder(t0 + [Put(url, RequestFor(tableName, ps, isNumeric, events[0]).value)], t1, url,
                         tableName, ps, isNumeric, events[1..], debug, fails, result)
    ensures SentInOrder(t0, t1, url, tableName, ps, isNumeric, events, debug, fails, result)
  {
  }

  /** The foreach over the events of one flush, writing through an open writer. */
  function SendEvents(w: Writer, tableName: NString, ps: seq<Parameter>, isNumeric: string -> bool,
                      events: seq<Option<LoggingEvent>>, debug: bool, fails: nat -> bool, trace: seq<Call>)
    : (r: WriteOutcome)
    requires w.client.Some?
    ensures SentInOrder(trace, r.trace, w.client.value.serviceUrl, tableName, ps, isNumeric, events, debug, fails, r.result)
    decreases |events|
  {
    if events == [] then WriteOutcome(trace, Success(()))
    else
      match RequestFor(tableName, ps, isNumeric, events[0])
      case Failure(e) => WriteOutcome(trace, Failure(e))
      case Success(request) =>
        var o := Write(w, Some(request), debug, fails, trace);
        if o.result.Failure? then o
        else
          var r := SendEvents(w, tableName, ps, isNumeric, events[1..], debug, fails, o.trace);
          SentInOrderCons(trace, r.trace, w.client.value.serviceUrl, tableName, ps, isNumeric, events, debug, fails, r.result);
          r
  }

  /** The appender's DataWriter field, when set, holds a client that has not been released. */
  predicate WriterOpen(a: Appender) {
    a.dataWriter.Some? ==> a.dataWriter.value.client.Some?
  }

  /** Where the puts of a flush start in the trace: after the Connect of a writer created by it. */
  function FlushStart(a: Appender): nat {
    if a.dataWriter.None? then |a.trace| + 1 else |a.trace|
  }

  /**
   SendBuffer: creates the data writer from ServiceEndpoint if there is none,
   then builds and writes one request per event. Nothing catches an error, so
   the first failing event ends the flush.
   */
  function SendBuffer(a: Appender, events: seq<Option<LoggingEvent>>, isNumeric: string -> bool, debug: bool, fails: nat -> bool)
    : (r: Flush)
    requires WriterOpen(a)
    ensures r.appender.(dataWriter := a.dataWriter, trace := a.trace) == a
    ensures a.dataWriter.Some? ==> r.appender.dataWriter == a.dataWriter
    ensures a.dataWriter.None? ==>
              && r.appender.dataWriter == Some(Writer(Some(Client(ServiceUrl(a.serviceEndpoint)))))
              && |a.trace| < |r.appender.trace|
              && r.appender.trace[..|a.trace| + 1] == a.trace + [Connect(ServiceUrl(a.serviceEndpoint))]
    ensures r.appender.dataWriter.Some? && r.appender.dataWriter.value.client.Some?
    ensures FlushStart(a) <= |r.appender.trace| && r.appender.trace[..|a.trace|] == a.trace
    ensures SentInOrder(r.appender.trace[..FlushStart(a)], r.appender.trace,
                        r.appender.dataWriter.value.client.value.serviceUrl,
                        a.tableName, a.parameters, isNumeric, events, debug, fails, r.result)
  {
    var WriterTrace(w, t) := if a.dataWriter.None? then Create(a.serviceEndpoint, a.trace) else WriterTrace(a.dataWriter.value, a.trace);
    var o := SendEvents(w, a.tableName, a.parameters, isNumeric, events, debug, fails, t);
    assert o.trace[..|t|] == t;
    Flush(a.(dataWriter := Some(w), trace := o.trace), o.result)
  }

  /** The one call that releasing the appender's data writer records: a Release of its client, if it holds one. */
  function ReleaseOf(a: Appender): seq<Call> {
    if a.dataWriter.Some? && a.dataWriter.value.client.Some? then [Release(a.dataWriter.value.client.value.serviceUrl)]
    else []
  }

  /** DisposeDataWriter: releases the writer's client if there is a writer, and forgets the writer. */
  function DisposeDataWriter(a: Appender): (r: Appender)
    ensures r.dataWriter.None?
    ensures r.(dataWriter := a.dataWriter, trace := a.trace) == a
    ensures a.dataWriter.None? ==> r == a
    ensures a.dataWriter.Some? ==> r.trace == DynamoDbDataWriter.Dispose(a.dataWriter.value, a.trace).trace
    ensures r.trace == a.trace + ReleaseOf(a)
  {
    if a.dataWriter.Some? then
      a.(dataWriter := None, trace := DynamoDbDataWriter.Dispose(a.dataWriter.value, a.trace).trace)
    else a
  }

  /** OnClose: releases the data writer (the framework's own closing is not modelled). */
  function OnClose(a: Appender): (r: Appender)
    ensures r.dataWriter.None? && r.(dataWriter := a.dataWriter, trace := a.trace) == a
    ensures r.trace == a.trace + ReleaseOf(a)
  {
    DisposeDataWriter(a)
  }

  /** Dispose(disposing): releases the data writer only when disposing. */
  function DisposeWith(a: Appender, disposing: bool): (r: Appender)
    ensures !disposing ==> r == a
    ensures disposing ==> r.dataWriter.None? && r.(dataWriter := a.dataWriter, trace := a.trace) == a
    ensures disposing ==> r.trace == a.trace + ReleaseOf(a)
  {
    if disposing then DisposeDataWriter(a) else a
  }

  /** Dispose() */
  function Dispose(a: Appender): (r: Appender)
    ensures r.dataWriter.None? && r.(dataWriter := a.dataWriter, trace := a.trace) == a
    ensures r.trace == a.trace + ReleaseOf(a)
  {
    DisposeWith(a, true)
  }
}

/** The configurable appender's lifecycle: the client protocol its trace keeps, and what a flush and a close promise. */
module DynamoDbAppenderLifecycle {
  import opened Wrappers
  import opened Platform
  import opened Types
  import opened DynamoDbAppenderParameter
  import opened DynamoDbDataWriter
  import opened DynamoDbAppender

  /**
   The appender's invariant: its DataWriter field holds an unreleased client
   exactly when the trace has that client open, and the trace never misuses
   a client (no put or release without an open client, no second client).
   */
  ghost predicate Valid(a: Appender) {
    && WriterOpen(a)
    && Replay(a.trace) == (if a.dataWriter.Some? then SessionOf(a.dataWriter.value) else Idle)
  }

  /** Puts to the open client keep the session open. */
  lemma {:induction false} PutsKeepSession(t0: seq<Call>, t1: seq<Call>, url: string)
    requires Replay(t0) == Open(url)
    requires |t0| <= |t1| && t1[..|t0|] == t0
    requires forall k :: |t0| <= k < |t1| ==> t1[k].Put? && t1[k].url == url
    ensures Replay(t1) == Open(url)
    decreases |t1| - |t0|
  {
    if |t1| > |t0| {
      var t := t1[..|t1| - 1];
      assert t[..|t0|] == t0;
      PutsKeepSession(t0, t, url);
      var c := t1[|t1| - 1];
      assert c.Put? && c.url == url;
      ReplayAppend(t, c);
      assert t + [c] == t1;
    } else {
      assert t1 == t1[..|t0|];
    }
  }

  lemma NewIsValid()
    ensures Valid(New())
  {
  }

  lemma AddParameterKeepsValid(a: Appender, p: Option<Parameter>)
    requires Valid(a)
    ensures Valid(AddParameter(a, p))
  {
  }

  /** A flush keeps the invariant: at most one Connect, then only puts to that client. */
  lemma SendBufferKeepsValid(a: Appender, events: seq<Option<LoggingEvent>>, isNumeric: string -> bool, debug: bool, fails: nat -> bool)
    requires Valid(a)
    ensures Valid(SendBuffer(a, events, isNumeric, debug, fails).appender)
  {
    var r := SendBuffer(a, events, isNumeric, debug, fails).appender;
    var url := r.dataWriter.value.client.value.serviceUrl;
    var t0 := r.trace[..FlushStart(a)];
    if a.dataWriter.None? {
      ReplayAppend(a.trace, Connect(url));
    } else {
      assert t0 == a.trace;
    }
    assert Replay(t0) == Open(url);
    forall k | |t0| <= k < |r.trace| ensures r.trace[k].Put? && r.trace[k].url == url {
      var j := k - |t0|;
      assert RequestFor(a.tableName, a.parameters, isNumeric, events[j]).Success?;
    }
    PutsKeepSession(t0, r.trace, url);
  }

  /** Releasing the writer keeps the invariant and leaves no client open. */
  lemma DisposeDataWriterKeepsValid(a: Appender)
    requires Valid(a)
    ensures Valid(DisposeDataWriter(a)) && Replay(DisposeDataWriter(a).trace) == Idle
  {
  }

  lemma CloseKeepsValid(a: Appender, disposing: bool)
    requires Valid(a)
    ensures Valid(OnClose(a)) && Valid(DynamoDbAppender.Dispose(a))
    ensures Valid(DynamoDbAppender.DisposeWith(a, disposing))
  {
  }

  /**
   DisposeDataWriter is idempotent: a second call releases nothing and changes
   nothing; the first records at most the Release of the held client.
   */
  lemma DisposeDataWriterIsIdempotent(a: Appender)
    ensures DisposeDataWriter(DisposeDataWriter(a)) == DisposeDataWriter(a)
    ensures DisposeDataWriter(a).trace == a.trace + ReleaseOf(a)
  {
  }

  /** A flush with no events writes nothing and succeeds; it still creates the writer if there was none. */
  lemma EmptyFlushWritesNothing(a: Appender, isNumeric: string -> bool, debug: bool, fails: nat -> bool)
    requires WriterOpen(a)
    ensures var r := SendBuffer(a, [], isNumeric, debug, fails);
            r.result.Success? && |r.appender.trace| == FlushStart(a)
  {
  }

  /** A flush writes through the existing writer and adds no Connect when there is one. */
  lemma FlushReusesWriter(a: Appender, events: seq<Option<LoggingEvent>>, isNumeric: string -> bool, debug: bool, fails: nat -> bool)
    requires Valid(a) && a.dataWriter.Some?
    ensures var r := SendBuffer(a, events, isNumeric, debug, fails).appender;
            r.dataWriter == a.dataWriter
            && forall k :: |a.trace| <= k < |r.trace| ==> r.trace[k].Put?
  {
    var r := SendBuffer(a, events, isNumeric, debug, fails).appender;
    assert r.trace[..FlushStart(a)] == a.trace;
    forall k | |a.trace| <= k < |r.trace| ensures r.trace[k].Put? {
      var j := k - |a.trace|;
      assert RequestFor(a.tableName, a.parameters, isNumeric, events[j]).Success?;
    }
  }

  /** After a close, the next flush connects a fresh client for the configured endpoint. */
  lemma FlushAfterCloseReconnects(a: Appender, events: seq<Option<LoggingEvent>>, isNumeric: string -> bool, debug: bool, fails: nat -> bool)
    requires Valid(a)
    ensures var c := OnClose(a);
            var r := SendBuffer(c, events, isNumeric, debug, fails).appender;
            && r.dataWriter == Some(Writer(Some(Client(ServiceUrl(a.serviceEndpoint)))))
            && r.trace[|c.trace|] == Connect(ServiceUrl(a.serviceEndpoint))
            && Valid(r)
  {
    var c := OnClose(a);
    DisposeDataWriterKeepsValid(a);
    var r := SendBuffer(c, events, isNumeric, debug, fails).appender;
    assert r.trace[|c.trace|] == r.trace[..|c.trace| + 1][|c.trace|];
    SendBufferKeepsValid(c, events, isNumeric, debug, fails);
  }

  /**
   A flush that succeeds wrote exactly one put per event, in event order, each
   to the writer's client and with that event's request for TableName.
   */
  lemma FlushWritesEveryEvent(a: Appender, events: seq<Option<LoggingEvent>>, isNumeric: string -> bool, debug: bool,
                              fails: nat -> bool, f: Flush)
    requires WriterOpen(a)
    requires f == SendBuffer(a, events, isNumeric, debug, fails) && f.result.Success?
    ensures |f.appender.trace| == FlushStart(a) + |events|
    ensures forall k :: 0 <= k < |events| ==>
              && RequestFor(a.tableName, a.parameters, isNumeric, events[k]).Success?
              && RequestFor(a.tableName, a.parameters, isNumeric, events[k]).value.tableName == a.tableName
              && f.appender.trace[FlushStart(a) + k] ==
                 Put(f.appender.dataWriter.value.client.value.serviceUrl,
                     RequestFor(a.tableName, a.parameters, isNumeric, events[k]).value)
  {
  }

  /** In a debug build every rejected write raises, so a flush that succeeds had each of its puts accepted. */
  lemma DebugFlushRaisesOnRejectedWrite(a: Appender, events: seq<Option<LoggingEvent>>, isNumeric: string -> bool,
                                        fails: nat -> bool, f: Flush)
    requires WriterOpen(a)
    requires f == SendBuffer(a, events, isNumeric, true, fails)
    ensures f.result.Success? ==> forall k :: FlushStart(a) <= k < |f.appender.trace| ==> !fails(k)
    ensures (exists k :: FlushStart(a) <= k < |f.appender.trace| && fails(k)) ==> f.result == Failure(Service)
  {
  }

  /**
   In a release build a flush fails only on a request that cannot be built:
   the events before it were written, it and the events after it were not.
   */
  lemma FlushStopsAtFailingEvent(a: Appender, events: seq<Option<LoggingEvent>>, isNumeric: string -> bool, fails: nat -> bool)
    requires WriterOpen(a)
    requires SendBuffer(a, events, isNumeric, false, fails).result.Failure?
    ensures var r := SendBuffer(a, events, isNumeric, false, fails);
            var n := |r.appender.trace| - FlushStart(a);
            && 0 <= n < |events|
            && (forall k :: 0 <= k < n ==> RequestFor(a.tableName, a.parameters, isNumeric, events[k]).Success?)
            && RequestFor(a.tableName, a.parameters, isNumeric, events[n]) == Failure(r.result.error)
  {
  }

  /**
   The example of a table "AppLogs" with one string parameter "Message"
   rendering "boom": one flush of one event writes one request
   {table: "AppLogs", item: {Message: S("boom")}}.
   */
  lemma AppLogsExample(layout: Layout, ev: LoggingEvent, isNumeric: string -> bool, debug: bool, fails: nat -> bool)
    requires layout(ev) == Some(Obj(Some("boom"), None))
    ensures var a := AddParameter(New().(tableName := Some("AppLogs")), Some(Parameter(Some("Message"), TypeS, Some(layout))));
            var r := SendBuffer(a, [Some(ev)], isNumeric, debug, fails);
            r.appender.trace[1..] == [Put(DefaultServiceEndpoint,
                                          PutItemRequest(Some("AppLogs"), map["Message" := StringAttribute("boom")]))]
  {
    var a := AddParameter(New().(tableName := Some("AppLogs")), Some(Parameter(Some("Message"), TypeS, Some(layout))));
    assert !IsWhiteSpace("boom"[0]);
    var expected := PutItemRequest(Some("AppLogs"), map["Message" := StringAttribute("boom")]);
    var empty := PutItemRequest(Some("AppLogs"), map[]);
    assert BuildAttribute(TypeS, isNumeric, layout(ev)) == Success(StringAttribute("boom"));
    assert AddFormatParameter(a.parameters[0], isNumeric, Some(empty), Some(ev)) == Success(expected);
    assert a.parameters[1..] == [];
    assert ApplyParameters([], isNumeric, expected, Some(ev)) == Success(expected);
    assert ApplyParameters(a.parameters, isNumeric, empty, Some(ev)) == Success(expected);
    assert RequestFor(a.tableName, a.parameters, isNumeric, Some(ev)) == Success(expected);
  }
}
