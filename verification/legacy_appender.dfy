/** The column names of the fixed-schema table. */
module ColumnKey {
  const Id: string := "Id"
  const Timestamp: string := "TimeStamp"
  const Message: string := "Message"
  const Level: string := "Level"
  const Username: string := "Username"
  const MachineName: string := "MachineName"
  const ThreadName: string := "ThreadName"
  const Identity: string := "Identity"
  const AppDomain: string := "AppDomain"
  const StackTrace: string := "StackTrace"
  const ExceptionMessage: string := "ExceptionMessage"
  const Exception: string := "Exception"

  /** Every column of the fixed schema. */
  const All: set<string> := {Id, Timestamp, Message, Level, Username, MachineName, ThreadName,
                             Identity, AppDomain, StackTrace, ExceptionMessage, Exception}

  /** The twelve column names are distinct. */
  lemma AllDistinct()
    ensures |All| == 12
  {
  }
}

/**
 The legacy fixed-schema DynamoDbAppender: every event becomes one item with
 an Id, a TimeStamp, the non-empty string properties of the event and,
 optionally, its exception.
 */
module LegacyDynamoDbAppender {
  import opened Wrappers
  import opened Platform
  import opened Types
  import ColumnKey

  const DefaultTableName: string := "log4net"

  /** The appender's configuration. */
  datatype Config = Config(tableName: NString, tablePrefix: NString, serializeExceptions: bool)

  /** new DynamoDbAppender() */
  function New(): (c: Config)
    ensures c.tableName == Some("log4net") && c.tablePrefix.None? && !c.serializeExceptions
  {
    Config(Some(DefaultTableName), None, false)
  }

  /** TableNameWithPrefix: string.Concat of prefix and name, where null counts as "". */
  function TableNameWithPrefix(c: Config): (r: string)
    ensures |r| == |Text(c.tablePrefix)| + |Text(c.tableName)|
    ensures r[..|Text(c.tablePrefix)|] == Text(c.tablePrefix) && r[|Text(c.tablePrefix)|..] == Text(c.tableName)
  {
    Text(c.tablePrefix) + Text(c.tableName)
  }

  /** A null prefix and an empty prefix both leave the table name as it is. */
  lemma NullPrefixActsAsEmpty(c: Config)
    requires c.tablePrefix.None? || c.tablePrefix == Some("")
    ensures TableNameWithPrefix(c) == Text(c.tableName)
  {
  }

  /** AddToItemsIfNotEmpty: adds the string under the column with Dictionary.Add unless it is null or empty. */
  function AddToItemsIfNotEmpty(item: Item, logItem: NString, itemName: string): (r: Result<Item, Error>)
    ensures IsNullOrEmpty(logItem) ==> r == Success(item)
    ensures !IsNullOrEmpty(logItem) && itemName in item ==> r == Failure(Argument(DuplicateKey, None))
    ensures itemName !in item ==> r.Success?
    ensures r.Success? && !IsNullOrEmpty(logItem) ==>
              r.value == item[itemName := StringAttribute(logItem.value)]
  {
    if IsNullOrEmpty(logItem) then Success(item)
    else DictionaryAdd(item, Some(itemName), StringAttribute(logItem.value))
  }

  /** The columns are not yet in the item and are pairwise distinct. */
  predicate FreshColumns(item: Item, columns: seq<(string, NString)>) {
    && (forall i :: 0 <= i < |columns| ==> columns[i].0 !in item)
    && (forall i, j :: 0 <= i < j < |columns| ==> columns[i].0 != columns[j].0)
  }

  /** The run of AddToItemsIfNotEmpty calls in SendEvent, one per (column, value) pair, in order. */
  function AddAllIfNotEmpty(item: Item, columns: seq<(string, NString)>): (r: Result<Item, Error>)
    ensures FreshColumns(item, columns) ==> r.Success?
    ensures r.Success? ==> forall k :: k in item ==> k in r.value && r.value[k] == item[k]
    ensures r.Success? ==> forall k :: k in r.value && k !in item ==>
                              exists i :: 0 <= i < |columns| && columns[i].0 == k
    ensures r.Success? && FreshColumns(item, columns) ==>
              forall i :: 0 <= i < |columns| ==>
                && (columns[i].0 in r.value <==> !IsNullOrEmpty(columns[i].1))
                && (columns[i].0 in r.value ==> r.value[columns[i].0] == StringAttribute(columns[i].1.value))
    decreases |columns|
  {
    if columns == [] then Success(item)
    else
      var next :- AddToItemsIfNotEmpty(item, columns[0].1, columns[0].0);
      var r := AddAllIfNotEmpty(next, columns[1..]);
      assert FreshColumns(item, columns) ==> FreshColumns(next, columns[1..]) by {
        if FreshColumns(item, columns) {
          forall i | 0 <= i < |columns[1..]| ensures columns[1..][i].0 !in next {
            assert columns[1..][i] == columns[i + 1];
          }
          forall i, j | 0 <= i < j < |columns[1..]| ensures columns[1..][i].0 != columns[1..][j].0 {
            assert columns[1..][i] == columns[i + 1] && columns[1..][j] == columns[j + 1];
          }
        }
      }
      assert r.Success? ==> forall k :: k in r.value && k !in item ==> exists i :: 0 <= i < |columns| && columns[i].0 == k by {
        if r.Success? {
          forall k | k in r.value && k !in item ensures exists i :: 0 <= i < |columns| && columns[i].0 == k {
            if k in next {
              assert columns[0].0 == k;
            } else {
              var i :| 0 <= i < |columns[1..]| && columns[1..][i].0 == k;
              assert columns[i + 1].0 == k;
            }
          }
        }
      }
      assert r.Success? && FreshColumns(item, columns) ==>
               forall i :: 0 <= i < |columns| ==>
                 && (columns[i].0 in r.value <==> !IsNullOrEmpty(columns[i].1))
                 && (columns[i].0 in r.value ==> r.value[columns[i].0] == StringAttribute(columns[i].1.value)) by {
        if r.Success? && FreshColumns(item, columns) {
          forall i | 0 <= i < |columns|
            ensures && (columns[i].0 in r.value <==> !IsNullOrEmpty(columns[i].1))
                    && (columns[i].0 in r.value ==> r.value[columns[i].0] == StringAttribute(columns[i].1.value))
          {
            if i > 0 {
              assert columns[i] == columns[1..][i - 1];
            } else if columns[0].0 !in next {
              forall j | 0 <= j < |columns[1..]| ensures columns[1..][j].0 != columns[0].0 {
                assert columns[1..][j] == columns[j + 1];
              }
            }
          }
        }
      }
      r
  }

  /** The event's string columns after Message, in the order SendEvent adds them. */
  function LaterStringColumns(ev: LoggingEvent, machineName: NString): seq<(string, NString)> {
    [ (ColumnKey.Level, ev.level),
      (ColumnKey.Username, ev.userName),
      (ColumnKey.MachineName, machineName),
      (ColumnKey.ThreadName, ev.threadName),
      (ColumnKey.AppDomain, ev.domain),
      (ColumnKey.Identity, ev.identity) ]
  }

  /** Every optional string column of an item, with the value it is taken from. */
  function StringColumns(ev: LoggingEvent, machineName: NString): seq<(string, NString)> {
    [(ColumnKey.Message, ev.renderedMessage)] + LaterStringColumns(ev, machineName)
  }

  /** The exception columns are absent from the item. */
  predicate ExceptionColumnsFree(item: Item) {
    ColumnKey.ExceptionMessage !in item && ColumnKey.StackTrace !in item && ColumnKey.Exception !in item
  }

  /**
   AddExceptionToItemsIfNotNull: for an event with an exception, adds its
   message and stack trace when not empty, and its serialized form when
   SerializeExceptions is set.
   */
  function AddExceptionToItemsIfNotNull(c: Config, ev: LoggingEvent, item: Item): (r: Result<Item, Error>)
    ensures ev.exceptionObject.None? ==> r == Success(item)
    ensures ExceptionColumnsFree(item) ==>
              (r.Failure? <==> ev.exceptionObject.Some? && c.serializeExceptions && ev.exceptionObject.value.serialized.None?)
    ensures r.Failure? && ExceptionColumnsFree(item) ==> r.error == Serialization
    ensures r.Success? ==> forall k :: k in item ==> k in r.value && r.value[k] == item[k]
    ensures r.Success? ==> r.value.Keys <= item.Keys + {ColumnKey.ExceptionMessage, ColumnKey.StackTrace, ColumnKey.Exception}
    ensures r.Success? && ExceptionColumnsFree(item) && ev.exceptionObject.Some? ==>
              var e := ev.exceptionObject.value;
              && (ColumnKey.ExceptionMessage in r.value <==> !IsNullOrEmpty(e.message))
              && (ColumnKey.ExceptionMessage in r.value ==> r.value[ColumnKey.ExceptionMessage] == StringAttribute(e.message.value))
              && (ColumnKey.StackTrace in r.value <==> !IsNullOrEmpty(e.stackTrace))
              && (ColumnKey.StackTrace in r.value ==> r.value[ColumnKey.StackTrace] == StringAttribute(e.stackTrace.value))
              && (ColumnKey.Exception in r.value <==> c.serializeExceptions)
              && (ColumnKey.Exception in r.value ==> r.value[ColumnKey.Exception] == AttributeValue(None, None, e.serialized))
  {
    if ev.exceptionObject.None? then Success(item)
    else
      var e := ev.exceptionObject.value;
      var withMessage :- AddToItemsIfNotEmpty(item, e.message, ColumnKey.ExceptionMessage);
      var withTrace :- AddToItemsIfNotEmpty(withMessage, e.stackTrace, ColumnKey.StackTrace);
      if !c.serializeExceptions then Success(withTrace)
      else if e.serialized.None? then Failure(Serialization)
      else DictionaryAdd(withTrace, Some(ColumnKey.Exception), AttributeValue(None, None, e.serialized))
  }

  /** The columns SendEvent fills from strings: Id, TimeStamp and the string columns. */
  const StringKeys: set<string> := {ColumnKey.Id, ColumnKey.Timestamp, ColumnKey.Message, ColumnKey.Level,
                                    ColumnKey.Username, ColumnKey.MachineName, ColumnKey.ThreadName,
                                    ColumnKey.AppDomain, ColumnKey.Identity}

  /** Id and TimeStamp, then Message if it is not empty. */
  function MessageItem(ev: LoggingEvent, id: string): (r: Item)
    ensures r.Keys <= {ColumnKey.Id, ColumnKey.Timestamp, ColumnKey.Message}
    ensures ColumnKey.Id in r && r[ColumnKey.Id] == StringAttribute(id)
    ensures ColumnKey.Timestamp in r && r[ColumnKey.Timestamp] == StringAttribute(ev.timeStamp)
    ensures ColumnKey.Message in r <==> !IsNullOrEmpty(ev.renderedMessage)
    ensures ColumnKey.Message in r ==> r[ColumnKey.Message] == StringAttribute(ev.renderedMessage.value)
  {
    var initial := map[ColumnKey.Id := StringAttribute(id), ColumnKey.Timestamp := StringAttribute(ev.timeStamp)];
    AddToItemsIfNotEmpty(initial, ev.renderedMessage, ColumnKey.Message).value
  }

  lemma LaterColumnsAreFresh(ev: LoggingEvent, id: string, machineName: NString)
    ensures FreshColumns(MessageItem(ev, id), LaterStringColumns(ev, machineName))
  {
  }

  /**
   The string part of the item SendEvent builds: Id and TimeStamp, then the
   string columns. `id` stands for the fresh GUID and `machineName` for the
   host's name. A null Level raises NullReferenceException once Message is in.
   */
  function StringItem(ev: LoggingEvent, id: string, machineName: NString): (r: Result<Item, Error>)
    ensures r.Failure? <==> ev.level.None?
    ensures ev.level.None? ==> r == Failure(NullReference)
  {
    var withMessage := MessageItem(ev, id);
    if ev.level.None? then Failure(NullReference)
    else
      LaterColumnsAreFresh(ev, id, machineName);
      AddAllIfNotEmpty(withMessage, LaterStringColumns(ev, machineName))
  }

  /** The string part holds Id and TimeStamp and no column outside the string columns. */
  lemma StringItemKeys(ev: LoggingEvent, id: string, machineName: NString)
    requires ev.level.Some?
    ensures var item := StringItem(ev, id, machineName).value;
            && item.Keys <= StringKeys
            && ColumnKey.Id in item && item[ColumnKey.Id] == StringAttribute(id)
            && ColumnKey.Timestamp in item && item[ColumnKey.Timestamp] == StringAttribute(ev.timeStamp)
  {
  }

  /** Each string column is in the string part exactly when its value is not null or empty, and holds that value. */
  lemma StringItemColumns(ev: LoggingEvent, id: string, machineName: NString)
    requires ev.level.Some?
    ensures var item := StringItem(ev, id, machineName).value;
            forall col :: col in StringColumns(ev, machineName) ==>
              && (col.0 in item <==> !IsNullOrEmpty(col.1))
              && (col.0 in item ==> item[col.0] == StringAttribute(col.1.value))
  {
    var withMessage := MessageItem(ev, id);
    var later := LaterStringColumns(ev, machineName);
    var item := StringItem(ev, id, machineName).value;
    LaterColumnsAreFresh(ev, id, machineName);
    forall col | col in StringColumns(ev, machineName)
      ensures && (col.0 in item <==> !IsNullOrEmpty(col.1))
              && (col.0 in item ==> item[col.0] == StringAttribute(col.1.value))
    {
      var i :| 0 <= i < |StringColumns(ev, machineName)| && StringColumns(ev, machineName)[i] == col;
      if i > 0 {
        assert later[i - 1] == col;
      } else {
        assert forall j :: 0 <= j < |later| ==> later[j].0 != ColumnKey.Message;
      }
    }
  }

  /** The item SendEvent builds: the string part, then the exception columns. */
  function BuildItem(c: Config, ev: LoggingEvent, id: string, machineName: NString): (r: Result<Item, Error>)
    ensures ev.level.None? ==> r == Failure(NullReference)
  {
    var strings :- StringItem(ev, id, machineName);
    AddExceptionToItemsIfNotNull(c, ev, strings)
  }

  lemma ExceptionColumnsNotStringKeys(item: Item)
    requires item.Keys <= StringKeys
    ensures ExceptionColumnsFree(item)
  {
  }

  /**
   Building an item fails only on a null Level (NullReferenceException) or an
   exception the formatter rejects (SerializationException).
   */
  lemma BuildItemFailsIff(c: Config, ev: LoggingEvent, id: string, machineName: NString)
    ensures BuildItem(c, ev, id, machineName).Failure? <==>
              || ev.level.None?
              || (ev.exceptionObject.Some? && c.serializeExceptions && ev.exceptionObject.value.serialized.None?)
    ensures ev.level.Some? && BuildItem(c, ev, id, machineName).Failure? ==>
              BuildItem(c, ev, id, machineName).error == Serialization
  {
    if ev.level.Some? {
      StringItemKeys(ev, id, machineName);
      ExceptionColumnsNotStringKeys(StringItem(ev, id, machineName).value);
    }
  }

  /**
   An event with a Level and, when SerializeExceptions is set, a serializable
   exception yields an item that holds Id and TimeStamp and no column outside
   the schema; the exception columns need an exception, and the binary one
   also SerializeExceptions.
   */
  lemma BuildItemKeys(c: Config, ev: LoggingEvent, id: string, machineName: NString)
    requires ev.level.Some?
    requires ev.exceptionObject.Some? && c.serializeExceptions ==> ev.exceptionObject.value.serialized.Some?
    ensures && BuildItem(c, ev, id, machineName).Success?
            && var item := BuildItem(c, ev, id, machineName).value;
            && item.Keys <= ColumnKey.All
            && ColumnKey.Id in item && item[ColumnKey.Id] == StringAttribute(id)
            && ColumnKey.Timestamp in item && item[ColumnKey.Timestamp] == StringAttribute(ev.timeStamp)
            && (ColumnKey.ExceptionMessage in item || ColumnKey.StackTrace in item ==> ev.exceptionObject.Some?)
            && (ColumnKey.Exception in item <==> ev.exceptionObject.Some? && c.serializeExceptions)
            && (ColumnKey.Exception in item ==>
                  item[ColumnKey.Exception] == AttributeValue(None, None, ev.exceptionObject.value.serialized))
  {
    var strings := StringItem(ev, id, machineName).value;
    StringItemKeys(ev, id, machineName);
    ExceptionColumnsNotStringKeys(strings);
    assert BuildItem(c, ev, id, machineName) == AddExceptionToItemsIfNotNull(c, ev, strings);
  }

  /** Adding the exception columns leaves every string column as it was. */
  lemma ExceptionKeepsStringColumns(c: Config, ev: LoggingEvent, strings: Item)
    requires strings.Keys <= StringKeys
    requires AddExceptionToItemsIfNotNull(c, ev, strings).Success?
    ensures var item := AddExceptionToItemsIfNotNull(c, ev, strings).value;
            forall k :: k in StringKeys ==> (k in item <==> k in strings) && (k in strings ==> item[k] == strings[k])
  {
  }

  /** In every item built, each string column is present exactly when its value is not null or empty, and holds that value. */
  lemma BuildItemStringColumns(c: Config, ev: LoggingEvent, id: string, machineName: NString)
    requires ev.level.Some?
    requires ev.exceptionObject.Some? && c.serializeExceptions ==> ev.exceptionObject.value.serialized.Some?
    ensures && BuildItem(c, ev, id, machineName).Success?
            && var item := BuildItem(c, ev, id, machineName).value;
            forall col :: col in StringColumns(ev, machineName) ==>
              && (col.0 in item <==> !IsNullOrEmpty(col.1))
              && (col.0 in item ==> item[col.0] == StringAttribute(col.1.value))
  {
    var strings := StringItem(ev, id, machineName).value;
    StringItemKeys(ev, id, machineName);
    StringItemColumns(ev, id, machineName);
    ExceptionColumnsNotStringKeys(strings);
    assert BuildItem(c, ev, id, machineName) == AddExceptionToItemsIfNotNull(c, ev, strings);
    ExceptionKeepsStringColumns(c, ev, strings);
    var item := BuildItem(c, ev, id, machineName).value;
    forall col | col in StringColumns(ev, machineName)
      ensures && (col.0 in item <==> !IsNullOrEmpty(col.1))
              && (col.0 in item ==> item[col.0] == StringAttribute(col.1.value))
    {
      assert col.0 in StringKeys;
      assert col.0 in item <==> col.0 in strings;
    }
  }

  /**
   SendEvent: a null event is ignored; a null client raises
   ArgumentNullException("client"); otherwise the result is the one request
   handed to PutItem, for the prefixed table.
   */
  function SendEvent(c: Config, logEvent: Option<LoggingEvent>, client: Option<Client>, id: string, machineName: NString)
    : (r: Result<Option<PutItemRequest>, Error>)
    ensures logEvent.None? ==> r == Success(None)
    ensures logEvent.Some? && client.None? ==> r == Failure(ArgumentNull(Some("client")))
    ensures logEvent.Some? && client.Some? ==> (r.Success? <==> BuildItem(c, logEvent.value, id, machineName).Success?)
    ensures logEvent.Some? && client.Some? && BuildItem(c, logEvent.value, id, machineName).Failure? ==>
              r == Failure(BuildItem(c, logEvent.value, id, machineName).error)
    ensures logEvent.Some? && r.Success? ==>
              && r.value.Some?
              && r.value.value.tableName == Some(TableNameWithPrefix(c))
              && r.value.value.item == BuildItem(c, logEvent.value, id, machineName).value
  {
    if logEvent.None? then Success(None)
    else if client.None? then Failure(ArgumentNull(Some("client")))
    else
      var item :- BuildItem(c, logEvent.value, id, machineName);
      Success(Some(PutItemRequest(Some(TableNameWithPrefix(c)), item)))
  }
}
