/** `updateVars`: the one pure selector of the bot loop, which picks out the
    bot's own position and heading from an object-update message. */
module Bots {
  import opened Types
  import opened Json
  import MessageTypes
  import ServerComms

  /** What `updateVars` returns: the position and heading, `False`, or the
      `KeyError` a missing field raises. */
  datatype Sighting =
    | OwnTank(x: JsonValue, y: JsonValue, heading: JsonValue)
    | NotOwnTank
    | MissingKey(key: string)

  /** The fields `updateVars` may look up, in the order it looks them up. */
  const Keys: seq<string> := ["messageType", "Type", "Name", "X", "Y", "Heading"]

  /** The message reports the tank called `name`. */
  predicate ReportsTank(message: Fields, name: string)
    requires "messageType" in message && "Type" in message && "Name" in message
  {
    && message["messageType"] == JNumber(MessageTypes.OBJECTUPDATE as real)
    && message["Type"] == JString("Tank")
    && message["Name"] == JString(name)
  }

  /** `updateVars(message, name)`, with Python's left-to-right `and`: a field
      is only looked up once the earlier tests have passed. */
  function UpdateVars(message: Fields, name: string): (r: Sighting)
    ensures r.MissingKey? ==> r.key in Keys && r.key !in message
    ensures "messageType" !in message ==> r == MissingKey("messageType")
    ensures "messageType" in message && message["messageType"] == JNumber(18.0) && "Type" !in message ==>
      r == MissingKey("Type")
    ensures
      && "messageType" in message && message["messageType"] == JNumber(18.0)
      && "Type" in message && message["Type"] == JString("Tank") && "Name" !in message
      ==> r == MissingKey("Name")
    ensures "messageType" in message && message["messageType"] != JNumber(18.0) ==> r == NotOwnTank
    ensures "messageType" in message && "Type" in message && message["Type"] != JString("Tank") ==> r == NotOwnTank
    ensures "messageType" in message && "Type" in message && "Name" in message && message["Name"] != JString(name) ==> r == NotOwnTank
    ensures
      && "messageType" in message && "Type" in message && "Name" in message && ReportsTank(message, name)
      && !("X" in message && "Y" in message && "Heading" in message)
      ==> r == MissingKey(if "X" !in message then "X" else if "Y" !in message then "Y" else "Heading")
    ensures r.OwnTank? ==>
      && "messageType" in message && "Type" in message && "Name" in message
      && ReportsTank(message, name)
      && "X" in message && "Y" in message && "Heading" in message
      && r == OwnTank(message["X"], message["Y"], message["Heading"])
    ensures (forall k :: k in Keys ==> k in message) ==>
      !r.MissingKey? && (r.OwnTank? <==> ReportsTank(message, name))
  {
    if "messageType" !in message then MissingKey("messageType")
    else if message["messageType"] != JNumber(MessageTypes.OBJECTUPDATE as real) then NotOwnTank
    else if "Type" !in message then MissingKey("Type")
    else if message["Type"] != JString("Tank") then NotOwnTank
    else if "Name" !in message then MissingKey("Name")
    else if message["Name"] != JString(name) then NotOwnTank
    else if "X" !in message then MissingKey("X")
    else if "Y" !in message then MissingKey("Y")
    else if "Heading" !in message then MissingKey("Heading")
    else OwnTank(message["X"], message["Y"], message["Heading"])
  }

  /** Every message `readMessage` produces carries "messageType", so
      `updateVars` answers `False` for any type but OBJECTUPDATE without
      looking at another field. */
  lemma OtherTypesAreIgnored(f: ServerComms.Frame, loads: seq<Byte> -> Option<JsonValue>, name: string)
    requires f.msgType != MessageTypes.OBJECTUPDATE
    requires ServerComms.ToMessage(f, loads).Success?
    ensures UpdateVars(ServerComms.ToMessage(f, loads).value, name) == NotOwnTank
  {
    var m := ServerComms.ToMessage(f, loads).value;
    assert m["messageType"] == JNumber(f.msgType as real);
  }

  /** An OBJECTUPDATE whose payload names this bot's tank yields that payload's
      coordinates and heading. */
  lemma OwnTankUpdateIsFound(f: ServerComms.Frame, obj: Fields, loads: seq<Byte> -> Option<JsonValue>, name: string)
    requires f.msgType == MessageTypes.OBJECTUPDATE && f.body != []
    requires loads(f.body) == Some(JObject(obj))
    requires "Type" in obj && obj["Type"] == JString("Tank")
    requires "Name" in obj && obj["Name"] == JString(name)
    requires "X" in obj && "Y" in obj && "Heading" in obj
    ensures UpdateVars(ServerComms.ToMessage(f, loads).value, name) == OwnTank(obj["X"], obj["Y"], obj["Heading"])
  {
    var m := ServerComms.ToMessage(f, loads).value;
    assert m == obj["messageType" := JNumber(f.msgType as real)];
  }
}
