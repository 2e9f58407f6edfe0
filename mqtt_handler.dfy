/** The handler record of the gateway's message dispatcher. */
module MqttHandler {
  import opened Bytes

  /** A handler callback, known to the model only by its identity.  What it
      answers for a given message is supplied by the caller of `dispatch`
      (see `MqttManager`): `true` means "handled, stop here", `false` lets
      the handlers after it run. */
  type CallbackId = nat

  /** Priority of a handler given none. */
  const DefaultPriority: byte := 100

  /** A table entry: filter, callback, display name, priority.  The priority
      is an unsigned 8-bit value; higher values are tried first. */
  datatype Handler = Handler(topicPattern: string, callback: CallbackId, name: string, priority: byte)

  /** The record constructor: pattern and callback are stored as given, the
      name falls back to the pattern when empty, the priority defaults to 100. */
  function MakeHandler(pattern: string, cb: CallbackId, handlerName: string := "",
                       prio: byte := DefaultPriority): (h: Handler)
    ensures h.topicPattern == pattern && h.callback == cb && h.priority == prio
    ensures |handlerName| > 0 ==> h.name == handlerName
    ensures |handlerName| == 0 ==> h.name == pattern
  {
    Handler(pattern, cb, if |handlerName| > 0 then handlerName else pattern, prio)
  }

  /** A handler's name is empty only when both the given name and the pattern
      are; a handler built without a name carries the default priority. */
  lemma DefaultsOfMakeHandler(pattern: string, cb: CallbackId, handlerName: string)
    ensures MakeHandler(pattern, cb, handlerName).name == "" <==> handlerName == "" && pattern == ""
    ensures MakeHandler(pattern, cb).priority == 100
    ensures MakeHandler(pattern, cb).name == pattern
  {
  }
}
