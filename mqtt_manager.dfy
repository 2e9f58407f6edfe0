/** The gateway's message dispatcher and broker-connection keeper
    (`MQTTManager`).  The broker client is reduced to a "connected" flag and
    the trace of calls made on it; its answers (does a subscribe, a publish,
    a connect succeed?) are parameters of the operations that ask. */
module MqttManager {
  import opened Bytes
  import opened MqttHandler
  import opened TopicMatch

  /** A call made on the broker client. */
  datatype ClientCall =
    | Connect(clientId: string)
    | Subscribe(topic: string)
    | Unsubscribe(topic: string)
    | Publish(topic: string, message: string, retain: bool)
    | Poll

  /** Retry period of the connection keeper, in milliseconds. */
  const ReconnectInterval: nat := 5000

  /** Client identity used when none was configured. */
  const FallbackClientId: string := "ESP32Client"

  /** Non-increasing priority from the front of the table. */
  ghost predicate SortedByPriority(hs: seq<Handler>) {
    forall i, j :: 0 <= i < j < |hs| ==> hs[i].priority >= hs[j].priority
  }

  /** A handler put after every entry of at least its priority and before
      the first of a lower one keeps the table ordered. */
  lemma InsertSorted(hs: seq<Handler>, k: nat, h: Handler)
    requires SortedByPriority(hs) && k <= |hs|
    requires forall i :: 0 <= i < k ==> hs[i].priority >= h.priority
    requires k < |hs| ==> hs[k].priority < h.priority
    ensures SortedByPriority(hs[..k] + [h] + hs[k..])
    ensures multiset(hs[..k] + [h] + hs[k..]) == multiset(hs) + multiset{h}
  {
    assert hs == hs[..k] + hs[k..];
  }

  ghost predicate NoDuplicates(ts: seq<string>) {
    forall i, j :: 0 <= i < j < |ts| ==> ts[i] != ts[j]
  }

  function Patterns(hs: seq<Handler>): (ps: seq<string>)
    ensures |ps| == |hs| && forall i :: 0 <= i < |hs| ==> ps[i] == hs[i].topicPattern
  {
    seq(|hs|, i requires 0 <= i < |hs| => hs[i].topicPattern)
  }

  function SubscribeCalls(ts: seq<string>): (cs: seq<ClientCall>)
    ensures |cs| == |ts| && forall i :: 0 <= i < |ts| ==> cs[i] == Subscribe(ts[i])
  {
    seq(|ts|, i requires 0 <= i < |ts| => Subscribe(ts[i]))
  }

  // ---------------------------------------------------------------------
  // Handler table
  // ---------------------------------------------------------------------

  /** The table with every handler for `pattern` removed, the others in their
      order (erase/remove_if). */
  function Without(hs: seq<Handler>, pattern: string): seq<Handler>
    decreases |hs|
  {
    if hs == [] then []
    else
      var last := hs[|hs| - 1];
      Without(hs[..|hs| - 1], pattern) + (if last.topicPattern != pattern then [last] else [])
  }

  lemma {:induction false} WithoutMembers(hs: seq<Handler>, pattern: string)
    ensures forall h :: h in Without(hs, pattern) <==> h in hs && h.topicPattern != pattern
    decreases |hs|
  {
    if hs != [] {
      var front := hs[..|hs| - 1];
      WithoutMembers(front, pattern);
      assert hs == front + [hs[|hs| - 1]];
    }
  }

  lemma {:induction false} WithoutSorted(hs: seq<Handler>, pattern: string)
    requires SortedByPriority(hs)
    ensures SortedByPriority(Without(hs, pattern))
    decreases |hs|
  {
    if hs != [] {
      var front := hs[..|hs| - 1];
      var last := hs[|hs| - 1];
      WithoutSorted(front, pattern);
      WithoutMembers(front, pattern);
      var w := Without(front, pattern);
      forall k | 0 <= k < |w| ensures w[k].priority >= last.priority {
        assert w[k] in front;
      }
    }
  }

  /** Removing a pattern nobody uses changes nothing. */
  lemma {:induction false} WithoutNoOp(hs: seq<Handler>, pattern: string)
    requires forall i :: 0 <= i < |hs| ==> hs[i].topicPattern != pattern
    ensures Without(hs, pattern) == hs
    decreases |hs|
  {
    if hs != [] {
      var front := hs[..|hs| - 1];
      assert forall i :: 0 <= i < |front| ==> front[i] == hs[i];
      WithoutNoOp(front, pattern);
      assert hs == front + [hs[|hs| - 1]];
    }
  }

  /** Removing twice is removing once. */
  lemma WithoutIdempotent(hs: seq<Handler>, pattern: string)
    ensures Without(Without(hs, pattern), pattern) == Without(hs, pattern)
  {
    var w := Without(hs, pattern);
    WithoutMembers(hs, pattern);
    forall i | 0 <= i < |w| ensures w[i].topicPattern != pattern {
      assert w[i] in w;
    }
    WithoutNoOp(w, pattern);
  }

  // ---------------------------------------------------------------------
  // Dispatch
  // ---------------------------------------------------------------------

  /** Table positions whose callbacks a dispatch of `topic` invokes, from
      position `i` on: the matching ones, in table order, up to and including
      the first whose callback answers `true`. */
  function TriedFrom(hs: seq<Handler>, topic: string, verdict: CallbackId -> bool, i: nat): seq<nat>
    decreases |hs| - i
  {
    if i >= |hs| then []
    else if TopicMatches(hs[i].topicPattern, topic) then
      if verdict(hs[i].callback) then [i] else [i] + TriedFrom(hs, topic, verdict, i + 1)
    else TriedFrom(hs, topic, verdict, i + 1)
  }

  /** Some handler matches the topic and answers `true`. */
  predicate HandledBy(hs: seq<Handler>, topic: string, verdict: CallbackId -> bool) {
    exists i :: 0 <= i < |hs| && TopicMatches(hs[i].topicPattern, topic) && verdict(hs[i].callback)
  }

  /** Every invoked position is at or after `i` and holds a matching handler. */
  ghost predicate OnlyMatching(hs: seq<Handler>, topic: string, t: seq<nat>, i: nat) {
    forall k :: 0 <= k < |t| ==> i <= t[k] < |hs| && TopicMatches(hs[t[k]].topicPattern, topic)
  }

  ghost predicate Increasing(t: seq<nat>) {
    forall k, l :: 0 <= k < l < |t| ==> t[k] < t[l]
  }

  /** Every invoked handler but the last answered `false`. */
  ghost predicate OnlyLastAnswersTrue(hs: seq<Handler>, verdict: CallbackId -> bool, t: seq<nat>) {
    forall k :: 0 <= k < |t| - 1 ==> t[k] < |hs| && !verdict(hs[t[k]].callback)
  }

  /** The last invoked handler answered `true`. */
  ghost predicate EndsHandled(hs: seq<Handler>, verdict: CallbackId -> bool, t: seq<nat>) {
    t != [] && t[|t| - 1] < |hs| && verdict(hs[t[|t| - 1]].callback)
  }

  /** No matching handler from `i` on is skipped before the last invoked one,
      nor at all when the dispatch was not handled. */
  ghost predicate SkipsNoMatching(hs: seq<Handler>, topic: string, verdict: CallbackId -> bool, t: seq<nat>, i: nat) {
    forall j | i <= j < |hs| && TopicMatches(hs[j].topicPattern, topic) ::
      !EndsHandled(hs, verdict, t) || j < t[|t| - 1] ==> j in t
  }

  lemma {:induction false} TriedMatching(hs: seq<Handler>, topic: string, verdict: CallbackId -> bool, i: nat)
    ensures OnlyMatching(hs, topic, TriedFrom(hs, topic, verdict, i), i)
    decreases |hs| - i
  {
    if i < |hs| {
      TriedMatching(hs, topic, verdict, i + 1);
    }
  }

  lemma {:induction false} TriedIncreasing(hs: seq<Handler>, topic: string, verdict: CallbackId -> bool, i: nat)
    ensures Increasing(TriedFrom(hs, topic, verdict, i))
    decreases |hs| - i
  {
    if i < |hs| {
      TriedIncreasing(hs, topic, verdict, i + 1);
      TriedMatching(hs, topic, verdict, i + 1);
    }
  }

  lemma {:induction false} TriedStops(hs: seq<Handler>, topic: string, verdict: CallbackId -> bool, i: nat)
    ensures OnlyLastAnswersTrue(hs, verdict, TriedFrom(hs, topic, verdict, i))
    decreases |hs| - i
  {
    if i < |hs| {
      TriedStops(hs, topic, verdict, i + 1);
      TriedMatching(hs, topic, verdict, i + 1);
    }
  }

  lemma {:induction false} TriedComplete(hs: seq<Handler>, topic: string, verdict: CallbackId -> bool, i: nat)
    ensures SkipsNoMatching(hs, topic, verdict, TriedFrom(hs, topic, verdict, i), i)
    decreases |hs| - i
  {
    if i < |hs| {
      TriedComplete(hs, topic, verdict, i + 1);
      var t := TriedFrom(hs, topic, verdict, i);
      var t1 := TriedFrom(hs, topic, verdict, i + 1);
      if TopicMatches(hs[i].topicPattern, topic) && !verdict(hs[i].callback) {
        assert t == [i] + t1;
        if t1 != [] {
          assert t[|t| - 1] == t1[|t1| - 1];
        }
      }
    }
  }

  /** The last handler invoked answered `true` exactly when some matching
      handler at or after `i` would. */
  lemma {:induction false} TriedHandled(hs: seq<Handler>, topic: string, verdict: CallbackId -> bool, i: nat)
    ensures EndsHandled(hs, verdict, TriedFrom(hs, topic, verdict, i)) <==>
      exists j :: i <= j < |hs| && TopicMatches(hs[j].topicPattern, topic) && verdict(hs[j].callback)
    decreases |hs| - i
  {
    if i < |hs| {
      TriedHandled(hs, topic, verdict, i + 1);
      var t := TriedFrom(hs, topic, verdict, i);
      var t1 := TriedFrom(hs, topic, verdict, i + 1);
      if TopicMatches(hs[i].topicPattern, topic) && !verdict(hs[i].callback) {
        assert t == [i] + t1;
        if t1 != [] {
          assert t[|t| - 1] == t1[|t1| - 1];
        }
      }
    }
  }

  /** A dispatch, stated without the recursion: only matching handlers are
      invoked, in increasing table order; every matching handler is invoked
      until one answers `true`; none is invoked after it; the message is
      handled exactly when some matching handler answers `true`. */
  lemma TriedFacts(hs: seq<Handler>, topic: string, verdict: CallbackId -> bool)
    ensures OnlyMatching(hs, topic, TriedFrom(hs, topic, verdict, 0), 0)
    ensures Increasing(TriedFrom(hs, topic, verdict, 0))
    ensures OnlyLastAnswersTrue(hs, verdict, TriedFrom(hs, topic, verdict, 0))
    ensures SkipsNoMatching(hs, topic, verdict, TriedFrom(hs, topic, verdict, 0), 0)
    ensures EndsHandled(hs, verdict, TriedFrom(hs, topic, verdict, 0)) <==> HandledBy(hs, topic, verdict)
  {
    TriedMatching(hs, topic, verdict, 0);
    TriedIncreasing(hs, topic, verdict, 0);
    TriedStops(hs, topic, verdict, 0);
    TriedComplete(hs, topic, verdict, 0);
    TriedHandled(hs, topic, verdict, 0);
  }

  /** A topic no handler matches invokes nothing. */
  lemma {:induction false} NoMatchNoCall(hs: seq<Handler>, topic: string, verdict: CallbackId -> bool, i: nat)
    requires forall j :: i <= j < |hs| ==> !TopicMatches(hs[j].topicPattern, topic)
    ensures TriedFrom(hs, topic, verdict, i) == []
    decreases |hs| - i
  {
    if i < |hs| {
      NoMatchNoCall(hs, topic, verdict, i + 1);
    }
  }

  /** On a table sorted by priority, handlers are invoked from the highest
      priority down. */
  lemma DispatchByPriority(hs: seq<Handler>, topic: string, verdict: CallbackId -> bool)
    requires SortedByPriority(hs)
    ensures forall k, l :: 0 <= k < l < |TriedFrom(hs, topic, verdict, 0)| ==>
      var t := TriedFrom(hs, topic, verdict, 0);
      t[k] < t[l] < |hs| && hs[t[k]].priority >= hs[t[l]].priority
  {
    TriedMatching(hs, topic, verdict, 0);
    TriedIncreasing(hs, topic, verdict, 0);
  }

  // ---------------------------------------------------------------------
  // Subscription bookkeeping
  // ---------------------------------------------------------------------

  /** The remembered topics after a successful subscribe to `t`. */
  function Remember(subs: seq<string>, t: string): (r: seq<string>)
    ensures t in r
    ensures forall x :: x in r <==> x in subs || x == t
    ensures NoDuplicates(subs) ==> NoDuplicates(r)
    ensures t in subs ==> r == subs
  {
    if t in subs then subs else subs + [t]
  }

  /** The remembered topics after subscribing to each of `ts` in turn, where
      `accept` says which subscribes the broker confirms. */
  function RememberAll(subs: seq<string>, ts: seq<string>, accept: string -> bool): (r: seq<string>)
    ensures NoDuplicates(subs) ==> NoDuplicates(r)
    ensures forall x :: x in r <==> x in subs || (x in ts && accept(x))
    decreases |ts|
  {
    if ts == [] then subs
    else
      var front := RememberAll(subs, ts[..|ts| - 1], accept);
      var t := ts[|ts| - 1];
      assert forall x :: x in ts <==> x in ts[..|ts| - 1] || x == t by {
        assert ts == ts[..|ts| - 1] + [t];
      }
      if accept(t) then Remember(front, t) else front
  }

  /** The identity a connect attempt presents. */
  function ConnectId(clientId: string): (id: string)
    ensures id != ""
    ensures clientId != "" ==> id == clientId
  {
    if |clientId| > 0 then clientId else FallbackClientId
  }

  /** The calls a successful connect is followed by: the retained "online"
      status (when a status topic is set), then one subscribe per handler
      pattern on the first connection, or one per remembered topic later. */
  function AfterConnectCalls(statusTopic: string, first: bool, hs: seq<Handler>, subs: seq<string>): seq<ClientCall> {
    StatusCalls(statusTopic) + ResubscribeCalls(first, hs, subs)
  }

  /** Appending `b` then `c` is appending `b + c`. */
  lemma Concat3<T>(a: seq<T>, b: seq<T>, c: seq<T>)
    ensures a + b + c == a + (b + c)
  {
  }

  /** The retained "online" status, published only when a status topic is set. */
  function StatusCalls(statusTopic: string): seq<ClientCall> {
    if |statusTopic| > 0 then [Publish(statusTopic, "online", true)] else []
  }

  /** The subscriptions after a connect: every handler pattern on the first
      connection, the remembered topics on a later one. */
  function ResubscribeCalls(first: bool, hs: seq<Handler>, subs: seq<string>): seq<ClientCall> {
    if first then SubscribeCalls(Patterns(hs)) else SubscribeCalls(subs)
  }

  /** One more topic subscribed: one more call, and the topic remembered
      when the broker confirms it. */
  lemma SubscribeStep(subs: seq<string>, ts: seq<string>, i: nat, accept: string -> bool)
    requires i < |ts|
    ensures SubscribeCalls(ts[..i + 1]) == SubscribeCalls(ts[..i]) + [Subscribe(ts[i])]
    ensures RememberAll(subs, ts[..i + 1], accept)
         == if accept(ts[i]) then Remember(RememberAll(subs, ts[..i], accept), ts[i]) else RememberAll(subs, ts[..i], accept)
  {
    assert ts[..i + 1][..i] == ts[..i];
  }

  class Manager {
    /** `client != nullptr`. */
    var hasClient: bool
    /** The client's own connection state. */
    var connected: bool
    var handlers: seq<Handler>
    var subscribedTopics: seq<string>
    var clientId: string
    var statusTopic: string
    var firstConnection: bool
    /** Milliseconds, an `unsigned long` (32 bits on the target). */
    var lastReconnectAttempt: nat
    /** Every call made on the broker client, oldest first. */
    var calls: seq<ClientCall>

    ghost predicate Valid()
      reads this
    {
      && SortedByPriority(handlers)
      && NoDuplicates(subscribedTopics)
      && lastReconnectAttempt < U32
    }

    function IsConnected(): (r: bool)
      reads this
      ensures r <==> hasClient && connected
    {
      hasClient && connected
    }

    constructor ()
      ensures Valid()
      ensures !hasClient && !connected && handlers == [] && subscribedTopics == []
      ensures clientId == "" && statusTopic == ""
      ensures firstConnection && lastReconnectAttempt == 0 && calls == []
    {
      hasClient, connected := false, false;
      handlers, subscribedTopics := [], [];
      clientId, statusTopic := "", "";
      firstConnection, lastReconnectAttempt := true, 0;
      calls := [];
    }

    /** Attaches a client (whose connection state is `clientConnected`) and
        the identity and status topic to use; the next connect counts as the
        first. */
    method Begin(clientConnected: bool, clientID: string, status: string)
      requires Valid()
      modifies this
      ensures Valid()
      ensures hasClient && connected == clientConnected
      ensures clientId == clientID && statusTopic == status && firstConnection
      ensures handlers == old(handlers) && subscribedTopics == old(subscribedTopics)
      ensures lastReconnectAttempt == old(lastReconnectAttempt) && calls == old(calls)
    {
      hasClient, connected := true, clientConnected;
      clientId, statusTopic := clientID, status;
      firstConnection := true;
    }

    /** The link dropping under the client. */
    method ConnectionLost()
      requires Valid()
      modifies this
      ensures Valid()
      ensures !connected
      ensures hasClient == old(hasClient) && handlers == old(handlers)
      ensures subscribedTopics == old(subscribedTopics) && clientId == old(clientId)
      ensures statusTopic == old(statusTopic) && firstConnection == old(firstConnection)
      ensures lastReconnectAttempt == old(lastReconnectAttempt) && calls == old(calls)
    {
      connected := false;
    }

    /** Appends the handler and re-sorts by descending priority.  std::sort
        is not stable, so the contract promises only what it guarantees: the
        same entries plus the new one, ordered by priority, whatever the
        order among equal priorities.  The body realises one such order. */
    method RegisterHandler(pattern: string, callback: CallbackId, name: string := "",
                           priority: byte := DefaultPriority)
      requires Valid()
      modifies this
      ensures Valid()
      ensures |handlers| == |old(handlers)| + 1
      ensures multiset(handlers) == multiset(old(handlers)) + multiset{MakeHandler(pattern, callback, name, priority)}
      ensures subscribedTopics == old(subscribedTopics) && calls == old(calls)
      ensures hasClient == old(hasClient) && connected == old(connected)
      ensures clientId == old(clientId) && statusTopic == old(statusTopic)
      ensures firstConnection == old(firstConnection) && lastReconnectAttempt == old(lastReconnectAttempt)
    {
      var h := MakeHandler(pattern, callback, name, priority);
      var k := 0;
      while k < |handlers| && handlers[k].priority >= priority
        invariant 0 <= k <= |handlers|
        invariant forall i :: 0 <= i < k ==> handlers[i].priority >= priority
      {
        k := k + 1;
      }
      InsertSorted(handlers, k, h);
      handlers := handlers[..k] + [h] + handlers[k..];
    }

    /** registerAndSubscribe: register, then subscribe to the pattern. */
    method RegisterAndSubscribe(pattern: string, callback: CallbackId, brokerOk: bool,
                                name: string := "", priority: byte := DefaultPriority)
      requires Valid()
      modifies this
      ensures Valid()
      ensures multiset(handlers) == multiset(old(handlers)) + multiset{MakeHandler(pattern, callback, name, priority)}
      ensures IsConnected() == old(IsConnected())
      ensures old(IsConnected()) ==> calls == old(calls) + [ClientCall.Subscribe(pattern)]
      ensures old(IsConnected()) && brokerOk ==> subscribedTopics == Remember(old(subscribedTopics), pattern)
      ensures !(old(IsConnected()) && brokerOk) ==> subscribedTopics == old(subscribedTopics)
      ensures !old(IsConnected()) ==> calls == old(calls)
    {
      RegisterHandler(pattern, callback, name, priority);
      var _ := Subscribe(pattern, brokerOk);
    }

    /** Removes every handler for `pattern`, keeping the others in order. */
    method UnregisterHandler(pattern: string)
      requires Valid()
      modifies this
      ensures Valid()
      ensures handlers == Without(old(handlers), pattern)
      ensures subscribedTopics == old(subscribedTopics) && calls == old(calls)
      ensures hasClient == old(hasClient) && connected == old(connected)
      ensures clientId == old(clientId) && statusTopic == old(statusTopic)
      ensures firstConnection == old(firstConnection) && lastReconnectAttempt == old(lastReconnectAttempt)
    {
      var kept: seq<Handler> := [];
      var i := 0;
      while i < |handlers|
        invariant 0 <= i <= |handlers|
        invariant kept == Without(handlers[..i], pattern)
      {
        assert handlers[..i + 1][..i] == handlers[..i];
        if handlers[i].topicPattern != pattern {
          kept := kept + [handlers[i]];
        }
        i := i + 1;
      }
      assert handlers[..i] == handlers;
      WithoutSorted(handlers, pattern);
      handlers := kept;
    }

    /** Delivers a message on `topic`: tries the matching handlers in table
        order and stops at the first whose callback (answering as `verdict`
        says) reports it handled.  Returns the table positions invoked and
        whether one handled it. */
    method Dispatch(topic: string, verdict: CallbackId -> bool) returns (tried: seq<nat>, handled: bool)
      ensures tried == TriedFrom(handlers, topic, verdict, 0)
      ensures handled <==> HandledBy(handlers, topic, verdict)
    {
      tried, handled := [], false;
      var i := 0;
      while i < |handlers|
        invariant 0 <= i <= |handlers|
        invariant tried + TriedFrom(handlers, topic, verdict, i) == TriedFrom(handlers, topic, verdict, 0)
        invariant forall j :: 0 <= j < i ==> !(TopicMatches(handlers[j].topicPattern, topic) && verdict(handlers[j].callback))
      {
        var h := handlers[i];
        var m := MatchTopic(h.topicPattern, topic);
        if m {
          tried := tried + [i];
          if verdict(h.callback) {
            handled := true;
            break;
          }
        }
        i := i + 1;
      }
      assert i == |handlers| ==> TriedFrom(handlers, topic, verdict, i) == [];
    }

    /** Subscribes when connected; a confirmed subscribe remembers the topic
        once.  Not connected: no call, `false`. */
    method Subscribe(topic: string, brokerOk: bool) returns (result: bool)
      requires Valid()
      modifies this
      ensures Valid()
      ensures result <==> old(IsConnected()) && brokerOk
      ensures old(IsConnected()) ==> calls == old(calls) + [ClientCall.Subscribe(topic)]
      ensures !old(IsConnected()) ==> calls == old(calls)
      ensures subscribedTopics == if result then Remember(old(subscribedTopics), topic) else old(subscribedTopics)
      ensures handlers == old(handlers) && hasClient == old(hasClient) && connected == old(connected)
      ensures clientId == old(clientId) && statusTopic == old(statusTopic)
      ensures firstConnection == old(firstConnection) && lastReconnectAttempt == old(lastReconnectAttempt)
    {
      if hasClient && connected {
        calls := calls + [ClientCall.Subscribe(topic)];
        result := brokerOk;
        if result && topic !in subscribedTopics {
          subscribedTopics := subscribedTopics + [topic];
        }
        return;
      }
      result := false;
    }

    /** Subscribes to every handler pattern in table order. */
    method SubscribeAll(accept: string -> bool)
      requires Valid()
      modifies this
      ensures Valid()
      ensures old(IsConnected()) ==> calls == old(calls) + SubscribeCalls(Patterns(handlers))
      ensures old(IsConnected()) ==> subscribedTopics == RememberAll(old(subscribedTopics), Patterns(handlers), accept)
      ensures !old(IsConnected()) ==> calls == old(calls) && subscribedTopics == old(subscribedTopics)
      ensures handlers == old(handlers) && hasClient == old(hasClient) && connected == old(connected)
      ensures clientId == old(clientId) && statusTopic == old(statusTopic)
      ensures firstConnection == old(firstConnection) && lastReconnectAttempt == old(lastReconnectAttempt)
    {
      ghost var on, c0, subs0, ps := IsConnected(), calls, subscribedTopics, Patterns(handlers);
      var i := 0;
      while i < |handlers|
        invariant 0 <= i <= |handlers|
        invariant Valid()
        invariant handlers == old(handlers) && hasClient == old(hasClient) && connected == old(connected)
        invariant clientId == old(clientId) && statusTopic == old(statusTopic)
        invariant firstConnection == old(firstConnection) && lastReconnectAttempt == old(lastReconnectAttempt)
        invariant on ==> calls == c0 + SubscribeCalls(ps[..i])
        invariant on ==> subscribedTopics == RememberAll(subs0, ps[..i], accept)
        invariant !on ==> calls == c0 && subscribedTopics == subs0
      {
        var p := handlers[i].topicPattern;
        SubscribeStep(subs0, ps, i, accept);
        var _ := Subscribe(p, accept(p));
        i := i + 1;
      }
      assert Patterns(handlers)[..i] == Patterns(handlers);
    }

    /** Unsubscribes when connected.  The remembered topics are left as they
        are, so a later reconnection subscribes to the topic again. */
    method Unsubscribe(topic: string, brokerOk: bool) returns (result: bool)
      requires Valid()
      modifies this
      ensures Valid()
      ensures result <==> old(IsConnected()) && brokerOk
      ensures old(IsConnected()) ==> calls == old(calls) + [ClientCall.Unsubscribe(topic)]
      ensures !old(IsConnected()) ==> calls == old(calls)
      ensures subscribedTopics == old(subscribedTopics)
      ensures handlers == old(handlers) && hasClient == old(hasClient) && connected == old(connected)
      ensures clientId == old(clientId) && statusTopic == old(statusTopic)
      ensures firstConnection == old(firstConnection) && lastReconnectAttempt == old(lastReconnectAttempt)
    {
      if hasClient && connected {
        calls := calls + [ClientCall.Unsubscribe(topic)];
        return brokerOk;
      }
      return false;
    }

    /** Publishes when connected; otherwise no call and `false`. */
    method Publish(topic: string, message: string, retain: bool, brokerOk: bool) returns (result: bool)
      requires Valid()
      modifies this
      ensures Valid()
      ensures result <==> old(IsConnected()) && brokerOk
      ensures old(IsConnected()) ==> calls == old(calls) + [ClientCall.Publish(topic, message, retain)]
      ensures !old(IsConnected()) ==> calls == old(calls)
      ensures subscribedTopics == old(subscribedTopics)
      ensures handlers == old(handlers) && hasClient == old(hasClient) && connected == old(connected)
      ensures clientId == old(clientId) && statusTopic == old(statusTopic)
      ensures firstConnection == old(firstConnection) && lastReconnectAttempt == old(lastReconnectAttempt)
    {
      if hasClient && connected {
        calls := calls + [ClientCall.Publish(topic, message, retain)];
        return brokerOk;
      }
      return false;
    }

    /** Connects unless already connected.  A successful connect publishes the
        retained status, then subscribes: to every handler pattern (with
        bookkeeping) the first time, to exactly the remembered topics (raw,
        without bookkeeping) afterwards. */
    method Reconnect(connectOk: bool, accept: string -> bool) returns (result: bool)
      requires Valid()
      modifies this
      ensures Valid()
      ensures !old(hasClient) ==> !result && unchanged(this)
      ensures old(IsConnected()) ==> result && unchanged(this)
      ensures old(hasClient) && !old(connected) ==> result == connectOk && connected == connectOk
      ensures old(hasClient) && !old(connected) && !connectOk ==>
        && calls == old(calls) + [Connect(ConnectId(clientId))]
        && subscribedTopics == old(subscribedTopics) && firstConnection == old(firstConnection)
      ensures old(hasClient) && !old(connected) && connectOk ==>
        && calls == old(calls) + [Connect(ConnectId(clientId))]
             + AfterConnectCalls(statusTopic, old(firstConnection), handlers, old(subscribedTopics))
        && subscribedTopics == (if old(firstConnection) then RememberAll(old(subscribedTopics), Patterns(handlers), accept)
                                else old(subscribedTopics))
        && !firstConnection
      ensures handlers == old(handlers) && hasClient == old(hasClient)
      ensures clientId == old(clientId) && statusTopic == old(statusTopic)
      ensures lastReconnectAttempt == old(lastReconnectAttempt)
    {
      if !hasClient {
        return false;
      }
      if connected {
        return true;
      }
      var id := if |clientId| > 0 then clientId else FallbackClientId;
      calls := calls + [Connect(id)];
      if connectOk {
        connected := true;
        Connected(accept);
        return true;
      }
      return false;
    }

    /** What a successful connect does next: the retained status, then the
        subscriptions of the first or of a later connection. */
    method Connected(accept: string -> bool)
      requires Valid() && IsConnected()
      modifies this
      ensures Valid() && IsConnected()
      ensures calls == old(calls) + AfterConnectCalls(statusTopic, old(firstConnection), handlers, old(subscribedTopics))
      ensures subscribedTopics == (if old(firstConnection) then RememberAll(old(subscribedTopics), Patterns(handlers), accept)
                                   else old(subscribedTopics))
      ensures !firstConnection
      ensures handlers == old(handlers) && hasClient == old(hasClient) && connected == old(connected)
      ensures clientId == old(clientId) && statusTopic == old(statusTopic)
      ensures lastReconnectAttempt == old(lastReconnectAttempt)
    {
      ghost var c0 := calls;
      if |statusTopic| > 0 {
        var _ := Publish(statusTopic, "online", true, true);
      }
      ghost var c1 := calls;
      assert c1 == c0 + StatusCalls(statusTopic);
      SubscribeAfterConnect(accept);
      Concat3(c0, StatusCalls(statusTopic), ResubscribeCalls(old(firstConnection), handlers, old(subscribedTopics)));
    }

    /** The subscriptions of a successful connect: the first one subscribes
        to every handler pattern and ends the first connection, a later one
        re-subscribes to the remembered topics. */
    method SubscribeAfterConnect(accept: string -> bool)
      requires Valid() && IsConnected()
      modifies this
      ensures Valid() && IsConnected()
      ensures calls == old(calls) + ResubscribeCalls(old(firstConnection), handlers, old(subscribedTopics))
      ensures subscribedTopics == (if old(firstConnection) then RememberAll(old(subscribedTopics), Patterns(handlers), accept)
                                   else old(subscribedTopics))
      ensures !firstConnection
      ensures handlers == old(handlers) && hasClient == old(hasClient) && connected == old(connected)
      ensures clientId == old(clientId) && statusTopic == old(statusTopic)
      ensures lastReconnectAttempt == old(lastReconnectAttempt)
    {
      if firstConnection {
        SubscribeAll(accept);
        firstConnection := false;
      } else {
        Resubscribe();
      }
    }

    /** Re-subscribes to every remembered topic directly on the client, with
        no bookkeeping and ignoring the answers. */
    method Resubscribe()
      requires Valid()
      modifies this
      ensures Valid()
      ensures calls == old(calls) + SubscribeCalls(subscribedTopics)
      ensures subscribedTopics == old(subscribedTopics)
      ensures handlers == old(handlers) && hasClient == old(hasClient) && connected == old(connected)
      ensures clientId == old(clientId) && statusTopic == old(statusTopic)
      ensures firstConnection == old(firstConnection) && lastReconnectAttempt == old(lastReconnectAttempt)
    {
      var resubscribes: seq<ClientCall> := [];
      var i := 0;
      while i < |subscribedTopics|
        invariant 0 <= i <= |subscribedTopics|
        invariant resubscribes == SubscribeCalls(subscribedTopics[..i])
      {
        assert subscribedTopics[..i + 1][..i] == subscribedTopics[..i];
        resubscribes := resubscribes + [ClientCall.Subscribe(subscribedTopics[i])];
        i := i + 1;
      }
      assert subscribedTopics[..i] == subscribedTopics;
      calls := calls + resubscribes;
    }

    /** One pass of the connection keeper at time `now` (milliseconds,
        32-bit): connected, it polls the client; disconnected, it tries to
        reconnect only when more than 5000 ms (wrap-around difference) have
        passed since the last attempt, and records the attempt time. */
    method Loop(now: nat, connectOk: bool, accept: string -> bool)
      requires Valid() && now < U32
      modifies this
      ensures Valid()
      ensures !old(hasClient) ==> unchanged(this)
      ensures old(IsConnected()) ==>
        && calls == old(calls) + [Poll] && connected
        && subscribedTopics == old(subscribedTopics) && firstConnection == old(firstConnection)
        && lastReconnectAttempt == old(lastReconnectAttempt)
      ensures old(hasClient) && !old(connected) && WrapSub(now, old(lastReconnectAttempt)) <= ReconnectInterval ==>
        unchanged(this)
      ensures old(hasClient) && !old(connected) && WrapSub(now, old(lastReconnectAttempt)) > ReconnectInterval ==>
        && lastReconnectAttempt == now
        && connected == connectOk
        && calls == old(calls) + [Connect(ConnectId(clientId))]
             + (if connectOk then AfterConnectCalls(statusTopic, old(firstConnection), handlers, old(subscribedTopics)) else [])
        && subscribedTopics == (if connectOk && old(firstConnection)
                                then RememberAll(old(subscribedTopics), Patterns(handlers), accept)
                                else old(subscribedTopics))
        && firstConnection == (old(firstConnection) && !connectOk)
      // A connect attempt is made only once more than 5000 ms have passed.
      ensures |calls| > |old(calls)| && calls[|old(calls)|].Connect? ==>
        WrapSub(now, old(lastReconnectAttempt)) > ReconnectInterval
      ensures handlers == old(handlers) && hasClient == old(hasClient)
      ensures clientId == old(clientId) && statusTopic == old(statusTopic)
    {
      if !hasClient {
        return;
      }
      if !connected {
        if WrapSub(now, lastReconnectAttempt) > ReconnectInterval {
          lastReconnectAttempt := now;
          var _ := Reconnect(connectOk, accept);
        }
      } else {
        calls := calls + [Poll];
      }
    }
  }
}
