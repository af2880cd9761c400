/**
 * `VrpnBasedConnection`: the server-side connection built on a VRPN
 * connection. The VRPN connection itself is not modelled; the calls made on
 * it are recorded, in order, in a log. A VRPN id is represented by the name it
 * was registered from, since registering a name again yields the same id.
 * Handlers are identified by opaque numbers.
 */
module VrpnConnection {
  import opened Wrappers
  import opened TimeValues

  /** `vrpn_DEFAULT_LISTEN_PORT_NO` */
  const DefaultListenPort: int := 3883

  /** `vrpn_got_connection`: the system message a new connection raises. */
  const GotConnection: string := "VRPN_Connection_Got_Connection"

  /** `ConnectionType`: a connection bound to the local machine only, or shared on the default interface. */
  datatype ConnectionType = LocalOnly | Shared

  /** A handler's filter on message type or sender: one registered id, or `vrpn_ANY_SENDER`. */
  datatype Filter = Any | Named(name: string)

  /** The callback VRPN is given: the shared connection hook, or the message hook with its handler record. */
  datatype Hook = ConnectionHook | MessageHook(record: nat)

  /** A call made on the VRPN connection. */
  datatype VrpnCall =
    | CreateServerConnection(port: int, iface: Option<string>)
    | RegisterMessageType(name: string)
    | RegisterSender(name: string)
    | RegisterHandler(msgType: Filter, hook: Hook, sender: Filter)

  /** `vrpn_HANDLERPARAM`, with the type and sender ids already resolved to their names. */
  datatype HandlerParam = HandlerParam(msgType: string, sender: string, msgTime: TimeValue, buffer: seq<char>, payloadLen: nat)

  /** One call of a general message handler: `handler(sender, msgType, timestamp, msg)`. */
  datatype Delivery = Delivery(handler: nat, sender: string, msgType: string, timestamp: TimeValue, msg: seq<char>)

  /** The port `m_initConnection` listens on: 0 stands for VRPN's default. */
  function ListenPort(port: int): (p: int)
    ensures port == 0 ==> p == DefaultListenPort
    ensures port != 0 ==> p == port
  {
    if port == 0 then DefaultListenPort else port
  }

  /** The interface the optional-argument constructor binds to: a present, non-empty name, else none. */
  function InterfaceFor(iface: Option<string>): (r: Option<string>)
    ensures r.Some? <==> iface.Some? && iface.value != ""
    ensures r.Some? ==> r == iface
  {
    if iface.Some? && iface.value != "" then iface else None
  }

  /** The interface the connection-type constructor binds to. */
  function InterfaceForType(kind: ConnectionType): (r: Option<string>)
    ensures kind == LocalOnly <==> r == Some("localhost")
    ensures kind == Shared <==> r == None
  {
    match kind
    case LocalOnly => Some("localhost")
    case Shared => None
  }

  /** `m_initConnection(iface, port)`: the server connection it creates. */
  function InitConnection(iface: Option<string>, port: int): (call: VrpnCall)
    ensures call.CreateServerConnection? && call.iface == iface
    ensures call.port == ListenPort(port) && call.port != 0
  {
    CreateServerConnection(ListenPort(port), iface)
  }

  /** How many times the log registers the connection hook. */
  function ConnectionHooks(log: seq<VrpnCall>): nat {
    if log == [] then 0
    else ConnectionHooks(log[..|log| - 1]) + (if log[|log| - 1].RegisterHandler? && log[|log| - 1].hook == ConnectionHook then 1 else 0)
  }

  /** The handler records the log registers the message hook for, in order. */
  function MessageRecords(log: seq<VrpnCall>): seq<nat> {
    if log == [] then []
    else
      var last := log[|log| - 1];
      MessageRecords(log[..|log| - 1]) + (if last.RegisterHandler? && last.hook.MessageHook? then [last.hook.record] else [])
  }

  /** One more call adds to the registrations only when it registers a handler. */
  lemma RegistrationsSnoc(log: seq<VrpnCall>, call: VrpnCall)
    ensures ConnectionHooks(log + [call]) == ConnectionHooks(log) + (if call.RegisterHandler? && call.hook == ConnectionHook then 1 else 0)
    ensures MessageRecords(log + [call]) == MessageRecords(log) + (if call.RegisterHandler? && call.hook.MessageHook? then [call.hook.record] else [])
  {
    assert (log + [call])[..|log|] == log;
  }

  /** The records `0` to `n - 1`, in order. */
  function Records(n: nat): seq<nat> {
    if n == 0 then [] else Records(n - 1) + [n - 1]
  }

  /** Whether VRPN hands a message of type `msgType` from `sender` to a handler registered by `call`. */
  predicate Delivers(call: VrpnCall, msgType: string, sender: string) {
    && call.RegisterHandler?
    && (call.msgType.Any? || call.msgType.name == msgType)
    && (call.sender.Any? || call.sender.name == sender)
  }

  /**
   * The log after `m_registerMessageHandler` as written: the sender is
   * registered from `device`, and so is the message type.
   */
  function RegistrationAsWritten(log: seq<VrpnCall>, record: nat, device: string, messageType: string): (r: seq<VrpnCall>)
    ensures |r| == |log| + 1 + (if device != "" then 1 else 0) + (if messageType != "" then 1 else 0)
    ensures r[..|log|] == log
    ensures r[|r| - 1].RegisterHandler? && r[|r| - 1].hook == MessageHook(record)
    ensures r[|r| - 1].sender == (if device != "" then Named(device) else Any)
    ensures r[|r| - 1].msgType == (if messageType != "" then Named(device) else Any)
  {
    var withSender := if device != "" then log + [RegisterSender(device)] else log;
    var withType := if messageType != "" then withSender + [RegisterMessageType(device)] else withSender;
    withType + [RegisterHandler(if messageType != "" then Named(device) else Any, MessageHook(record), if device != "" then Named(device) else Any)]
  }

  /** The log after the registration evidently intended: the message type is registered from `messageType`. */
  function Registration(log: seq<VrpnCall>, record: nat, device: string, messageType: string): (r: seq<VrpnCall>)
    ensures |r| == |log| + 1 + (if device != "" then 1 else 0) + (if messageType != "" then 1 else 0)
    ensures r[..|log|] == log
    ensures r[|r| - 1].RegisterHandler? && r[|r| - 1].hook == MessageHook(record)
    ensures r[|r| - 1].sender == (if device != "" then Named(device) else Any)
    ensures r[|r| - 1].msgType == (if messageType != "" then Named(messageType) else Any)
  {
    var withSender := if device != "" then log + [RegisterSender(device)] else log;
    var withType := if messageType != "" then withSender + [RegisterMessageType(messageType)] else withSender;
    withType + [RegisterHandler(if messageType != "" then Named(messageType) else Any, MessageHook(record), if device != "" then Named(device) else Any)]
  }

  /**
   * The intended registration keeps the log so far, registers one handler,
   * for this record, last, and that handler receives exactly the messages of
   * the requested type from the requested device, an empty string meaning
   * any.
   */
  lemma RegistrationFilters(log: seq<VrpnCall>, record: nat, device: string, messageType: string, msgType: string, sender: string)
    ensures var after := Registration(log, record, device, messageType);
      && |log| < |after| && after[..|log|] == log
      && after[|after| - 1].RegisterHandler? && after[|after| - 1].hook == MessageHook(record)
      && (forall i :: |log| <= i < |after| - 1 ==> !after[i].RegisterHandler?)
      && (Delivers(after[|after| - 1], msgType, sender)
          <==> (device == "" || sender == device) && (messageType == "" || msgType == messageType))
  {
    var after := Registration(log, record, device, messageType);
    assert after[..|log|] == log;
  }

  /**
   * As written, a handler asked for `"position"` messages from `"tracker0"`
   * listens for messages whose type is named `"tracker0"`, so it never gets
   * the messages it asked for.
   */
  lemma RegistrationAsWrittenMisroutes(log: seq<VrpnCall>)
    ensures var after := RegistrationAsWritten(log, 0, "tracker0", "position");
      && !Delivers(after[|after| - 1], "position", "tracker0")
      && Delivers(after[|after| - 1], "tracker0", "tracker0")
  {
  }

  /**
   * The two registrations differ only in the name the type filter is
   * registered from, so they agree when that name is the device's or there
   * is no type filter.
   */
  lemma RegistrationAgreement(log: seq<VrpnCall>, record: nat, device: string, messageType: string)
    ensures RegistrationAsWritten(log, record, device, messageType) == Registration(log, record, device, messageType)
      <==> messageType == "" || messageType == device
  {
    var w := RegistrationAsWritten(log, record, device, messageType);
    var r := Registration(log, record, device, messageType);
    if messageType != "" && messageType != device {
      assert w[|w| - 1] != r[|r| - 1];
    }
  }

  /** The registration adds no connection hook and registers the message hook for its record alone. */
  lemma RegistrationCounts(log: seq<VrpnCall>, record: nat, device: string, messageType: string)
    ensures var after := Registration(log, record, device, messageType);
      && ConnectionHooks(after) == ConnectionHooks(log)
      && MessageRecords(after) == MessageRecords(log) + [record]
  {
    var withSender := if device != "" then log + [RegisterSender(device)] else log;
    var withType := if messageType != "" then withSender + [RegisterMessageType(messageType)] else withSender;
    var handler := RegisterHandler(if messageType != "" then Named(messageType) else Any, MessageHook(record), if device != "" then Named(device) else Any);
    if device != "" {
      RegistrationsSnoc(log, RegisterSender(device));
    }
    assert ConnectionHooks(withSender) == ConnectionHooks(log) && MessageRecords(withSender) == MessageRecords(log);
    if messageType != "" {
      RegistrationsSnoc(withSender, RegisterMessageType(messageType));
    }
    assert ConnectionHooks(withType) == ConnectionHooks(log) && MessageRecords(withType) == MessageRecords(log);
    RegistrationsSnoc(withType, handler);
  }

  class VrpnBasedConnection {
    /** The calls made on `m_vrpnConnection`, oldest first. */
    var log: seq<VrpnCall>
    /** `m_connectionHandlers` */
    var connectionHandlers: seq<nat>
    /** `m_generalMessageHandlers`: the handler of each record, in registration order. */
    var messageHandlers: seq<nat>

    /**
     * The connection was created first; the connection hook is registered
     * once when there are connection handlers and not at all otherwise; and
     * each handler record is registered exactly once, in the order of the
     * records.
     */
    ghost predicate Valid()
      reads this
    {
      && |log| >= 1 && log[0].CreateServerConnection?
      && ConnectionHooks(log) == (if |connectionHandlers| == 0 then 0 else 1)
      && MessageRecords(log) == Records(|messageHandlers|)
    }

    /** The constructor by connection type, on the default port. */
    constructor (kind: ConnectionType)
      ensures Valid()
      ensures log == [InitConnection(InterfaceForType(kind), 0)]
      ensures connectionHandlers == [] && messageHandlers == []
    {
      log := [InitConnection(InterfaceForType(kind), 0)];
      connectionHandlers := [];
      messageHandlers := [];
    }

    /** The constructor by optional interface name and optional port (0 when absent). */
    constructor WithInterface(iface: Option<string>, port: Option<int>)
      ensures Valid()
      ensures log == [InitConnection(InterfaceFor(iface), if port.Some? then port.value else 0)]
      ensures connectionHandlers == [] && messageHandlers == []
    {
      var myPort := if port.Some? then port.value else 0;
      log := [InitConnection(InterfaceFor(iface), myPort)];
      connectionHandlers := [];
      messageHandlers := [];
    }

    /**
     * `m_registerConnectionHandler`: the first registration also registers
     * the connection hook for `vrpn_got_connection` from any sender; every
     * registration appends the handler.
     */
    method RegisterConnectionHandler(handler: nat)
      requires Valid()
      modifies this
      ensures Valid()
      ensures connectionHandlers == old(connectionHandlers) + [handler]
      ensures messageHandlers == old(messageHandlers)
      ensures log == old(log) + (if old(connectionHandlers) == [] then [RegisterMessageType(GotConnection), RegisterHandler(Named(GotConnection), ConnectionHook, Any)] else [])
    {
      if connectionHandlers == [] {
        RegistrationsSnoc(log, RegisterMessageType(GotConnection));
        log := log + [RegisterMessageType(GotConnection)];
        RegistrationsSnoc(log, RegisterHandler(Named(GotConnection), ConnectionHook, Any));
        log := log + [RegisterHandler(Named(GotConnection), ConnectionHook, Any)];
      }
      connectionHandlers := connectionHandlers + [handler];
    }

    /**
     * `m_registerMessageHandler`: a non-empty device becomes the sender
     * filter, a non-empty message type becomes the type filter, and the new
     * record is appended. The type is registered from `messageType`, as
     * intended; `RegistrationAsWritten` records what the source does.
     */
    method RegisterMessageHandler(handler: nat, device: string, messageType: string)
      requires Valid()
      modifies this
      ensures Valid()
      ensures messageHandlers == old(messageHandlers) + [handler]
      ensures connectionHandlers == old(connectionHandlers)
      ensures log == Registration(old(log), |old(messageHandlers)|, device, messageType)
    {
      ghost var log0 := log;
      var devId := Any;
      if device != "" {
        log := log + [RegisterSender(device)];
        devId := Named(device);
      }
      var msgType := Any;
      if messageType != "" {
        log := log + [RegisterMessageType(messageType)];
        msgType := Named(messageType);
      }
      var record := |messageHandlers|;
      log := log + [RegisterHandler(msgType, MessageHook(record), devId)];
      messageHandlers := messageHandlers + [handler];
      RegistrationCounts(log0, record, device, messageType);
    }

    /** `m_connectionHandler`: calls every connection handler once, in registration order; returns 0. */
    method ConnectionHandler() returns (invoked: seq<nat>, r: int)
      ensures invoked == connectionHandlers
      ensures r == 0
    {
      invoked := [];
      for i := 0 to |connectionHandlers|
        invariant invoked == connectionHandlers[..i]
      {
        invoked := invoked + [connectionHandlers[i]];
      }
      r := 0;
    }

    /**
     * `m_messageHandler`: passes the record's handler the sender, the type,
     * the timestamp and exactly the first `payload_len` bytes of the buffer;
     * returns 0.
     */
    method MessageHandler(record: nat, param: HandlerParam) returns (d: Delivery, r: int)
      requires record < |messageHandlers| && param.payloadLen <= |param.buffer|
      ensures d.handler == messageHandlers[record]
      ensures d.sender == param.sender && d.msgType == param.msgType && d.timestamp == param.msgTime
      ensures |d.msg| == param.payloadLen && d.msg == param.buffer[..param.payloadLen]
      ensures r == 0
    {
      var msg := param.buffer[..param.payloadLen];
      d := Delivery(messageHandlers[record], param.sender, param.msgType, param.msgTime, msg);
      r := 0;
    }
  }
}
