/** Sending commands to Unify, and matching their responses through a table of pending handlers. */
module CommandTranslator {
  import opened Text
  import opened DataStorage
  import opened Lifecycle
  import opened LifecycleTheorems
  import opened Topics

  /** Clock readings and differences are in nanoseconds, the clock's tick. */
  const SECOND: int := 1_000_000_000
  const HANDLER_TIMEOUT: int := 10

  /** Response topics waited for, each with the time its command was sent. */
  type Pending = map<string, int>

  datatype Exchange = NoExchange | Unicast | GroupCast(group: MatterGroup)

  datatype Message = Message(topic: string, payload: string)

  /** An empty `response` means the command expects none; an absent payload is printed as "{}". */
  datatype Request = Request(
    matterEndpoint: nat, exchange: Exchange, command: string, payload: Option<string>, response: string)

  datatype SendResult = NotBridged | Busy | NoUnifyGroup | Published

  datatype Reply = NoMatch | Throws(error: Stoi) | NotBridgedReply | Unknown | NoHandler | Expired | BadJson
                 | Handled(entry: Entry, cluster: string, response: string)

  // ---- Time ------------------------------------------------------------------------

  /** `duration_cast` to seconds truncates towards zero. */
  function Seconds(ticks: int): int {
    if ticks >= 0 then ticks / SECOND else -((-ticks) / SECOND)
  }

  predicate TimedOut(start: int, now: int) {
    Seconds(now - start) > HANDLER_TIMEOUT
  }

  /** A handler lives for eleven seconds, not ten. */
  lemma ElevenSeconds(start: int, now: int)
    ensures TimedOut(start, now) <==> now - start >= 11 * SECOND
  {}

  function Purge(pending: Pending, now: int): Pending {
    map key | key in pending && !TimedOut(pending[key], now) :: pending[key]
  }

  // ---- The specification -----------------------------------------------------------

  datatype Commands = Commands(pending: Pending, published: seq<Message>)

  /** Where a command goes: to the node, or to the Unify group of a group exchange, if it has one. */
  function Target(e: Entry, store: Store, exchange: Exchange): Option<string> {
    match exchange
    case GroupCast(g) =>
      (match Lookup(store, GroupKey(g))
       case Some(unifyGroup) => Some("ucl/by-group/" + Dec(unifyGroup))
       case None => None)
    case _ => Some(UnidPrefix(e.address))
  }

  function Body(payload: Option<string>): string {
    match payload { case None => "{}" case Some(text) => text }
  }

  function Send(cluster: string, s: Commands, entries: seq<Entry>, store: Store, r: Request, now: int)
    : (Commands, SendResult)
  {
    match ByMatterEndpoint(entries, r.matterEndpoint)
    case None => (s, NotBridged)
    case Some(e) =>
      var live := if r.response == "" then s.pending else Purge(s.pending, now);
      var key := ResponseTopic(e.address, cluster, r.response);
      if r.response != "" && key in live then (s.(pending := live), Busy)
      else
        match Target(e, store, r.exchange)
        case None => (s.(pending := live), NoUnifyGroup)
        case Some(target) =>
          (Commands(if r.response == "" then live else live[key := now],
                 s.published + [Message(target + "/" + cluster + "/Commands/" + r.command, Body(r.payload))]),
           Published)
  }

  function Receive(s: Commands, entries: seq<Entry>, topic: string, message: string, jsonOk: bool, now: int)
    : (Commands, Reply)
  {
    match Search(topic, RESPONSE)
    case None => (s, NoMatch)
    case Some(groups) =>
      match ParseInt(groups[1])
      case Number(n) =>
        (match ByAddress(entries, groups[0], n)
         case None => (s, NotBridgedReply)
         case Some(e) =>
           if groups[3] == "" || groups[2] == "" || message == "" then (s, Unknown)
           else if topic !in s.pending then (s, NoHandler)
           else if TimedOut(s.pending[topic], now) then (s.(pending := s.pending - {topic}), Expired)
           else if !jsonOk then (s, BadJson)
           else (s, Handled(e, groups[2], groups[3])))
      case error => (s, Throws(error))
  }

  class CommandTranslatorInterface {
    const cluster: string
    var pending: Pending
    var published: seq<Message>

    constructor (cluster: string)
      ensures this.cluster == cluster && pending == map[] && published == []
    {
      this.cluster := cluster;
      pending := map[];
      published := [];
    }

    /** The iterator loop over the table; all readings of the clock in one call are one reading here. */
    method ClearTimedOut(now: int)
      modifies this`pending
      ensures pending == Purge(old(pending), now)
    {
      var todo := pending.Keys;
      while todo != {}
        invariant todo <= old(pending).Keys
        invariant forall key :: key in pending <==>
          key in old(pending) && (key in todo || !TimedOut(old(pending)[key], now))
        invariant forall key :: key in pending ==> pending[key] == old(pending)[key]
        decreases |todo|
      {
        var key :| key in todo;
        todo := todo - {key};
        if TimedOut(pending[key], now) {
          pending := pending - {key};
        }
      }
    }

    method SendUnifyCommand(entries: seq<Entry>, store: Store, r: Request, now: int) returns (result: SendResult)
      modifies this
      ensures (Commands(pending, published), result) ==
              Send(cluster, old(Commands(pending, published)), entries, store, r, now)
      ensures Commands(pending, published) ==
              DoCall(cluster, old(Commands(pending, published)), SendCall(entries, store, r, now))
    {
      var node := ByMatterEndpoint(entries, r.matterEndpoint);
      if node.None? {
        return NotBridged;
      }
      var a := node.value.address;
      var key := "";
      if r.response != "" {
        ClearTimedOut(now);
        key := "ucl/by-unid/" + a.unid + "/ep" + Dec(a.endpoint) + "/" + cluster + "/GeneratedCommands/" + r.response;
        if key in pending {
          return Busy;
        }
      }
      var topic;
      if r.exchange.GroupCast? {
        var unifyGroup := Lookup(store, GroupKey(r.exchange.group));
        if unifyGroup.None? {
          return NoUnifyGroup;
        }
        topic := "ucl/by-group/" + Dec(unifyGroup.value);
      } else {
        topic := "ucl/by-unid/" + a.unid + "/ep" + Dec(a.endpoint);
      }
      topic := topic + "/" + cluster + "/Commands/" + r.command;
      var text := if r.payload.None? then "{}" else r.payload.value;
      published := published + [Message(topic, text)];
      if r.response != "" {
        pending := pending[key := now];
      }
      return Published;
    }

    method OnMqttMessage(entries: seq<Entry>, topic: string, message: string, jsonOk: bool, now: int)
      returns (reply: Reply)
      modifies this`pending
      ensures (Commands(pending, published), reply) ==
              Receive(old(Commands(pending, published)), entries, topic, message, jsonOk, now)
      ensures Commands(pending, published) ==
              DoCall(cluster, old(Commands(pending, published)), ReceiveCall(entries, topic, message, jsonOk, now))
    {
      var groups := Search(topic, RESPONSE);
      if groups.None? {
        return NoMatch;
      }
      var unid, endpoint, clusterName, response := groups.value[0], groups.value[1], groups.value[2], groups.value[3];
      var number := ParseInt(endpoint);
      if !number.Number? {
        return Throws(number);
      }
      var node := ByAddress(entries, unid, number.value);
      if node.None? {
        return NotBridgedReply;
      }
      if response != "" && clusterName != "" && message != "" {
        if topic !in pending {
          return NoHandler;
        }
        if TimedOut(pending[topic], now) {
          pending := pending - {topic};
          return Expired;
        }
        if !jsonOk {
          return BadJson;
        }
        return Handled(node.value, clusterName, response);
      }
      return Unknown;
    }
  }

  // ---- One call --------------------------------------------------------------------

  ghost predicate Waiting(pending: Pending, key: string, now: int) {
    key in pending && !TimedOut(pending[key], now)
  }

  /**
   * A command that expects a response is turned away exactly while an unexpired one waits on its
   * topic. Turned away, it publishes nothing and no live entry changes. Otherwise its own entry
   * appears exactly when its message is published; no other live entry is touched.
   */
  lemma SendMeans(cluster: string, s: Commands, entries: seq<Entry>, store: Store, r: Request, now: int, e: Entry)
    requires r.response != "" && ByMatterEndpoint(entries, r.matterEndpoint) == Some(e)
    ensures var key := ResponseTopic(e.address, cluster, r.response);
      var (s', result) := Send(cluster, s, entries, store, r, now);
      && (result == Busy <==> Waiting(s.pending, key, now))
      && (result != Published ==> s'.published == s.published)
      && (result == Published ==> |s'.published| == |s.published| + 1 && s'.published[..|s.published|] == s.published)
      && (result == Published <==> !Waiting(s.pending, key, now) && Target(e, store, r.exchange).Some?)
      && (result == Published <==> !Waiting(s.pending, key, now) && key in s'.pending)
      && (result == Published ==> s'.pending[key] == now)
      && (forall k :: k != key || result != Published ==> (k in s'.pending <==> Waiting(s.pending, k, now)))
      && (forall k :: k in s'.pending && (k != key || result != Published) ==> s'.pending[k] == s.pending[k])
  {}

  /**
   * What goes out, where it goes and whether it goes, for every command: to the node, or to the
   * Unify group the store has for the Matter group of a group exchange. Without an expected
   * response the table of pending commands plays no part.
   */
  lemma PublishedMeans(cluster: string, s: Commands, entries: seq<Entry>, store: Store, r: Request, now: int)
    ensures var (s', result) := Send(cluster, s, entries, store, r, now);
      var node := ByMatterEndpoint(entries, r.matterEndpoint);
      && (result == NotBridged <==> node.None?)
      && (result != Published ==> s'.published == s.published)
      && (r.response == "" ==> s'.pending == s.pending && result != Busy)
      && (result == NoUnifyGroup ==> r.exchange.GroupCast? && GroupKey(r.exchange.group) !in store)
      && (result == Published ==>
            && (r.exchange.GroupCast? ==> GroupKey(r.exchange.group) in store)
            && s'.published == s.published + [Message(
                 (if r.exchange.GroupCast? then "ucl/by-group/" + Dec(store[GroupKey(r.exchange.group)])
                  else "ucl/by-unid/" + node.value.address.unid + "/ep" + Dec(node.value.address.endpoint))
                 + "/" + cluster + "/Commands/" + r.command,
                 if r.payload.Some? then r.payload.value else "{}")])
  {}

  /** A response reaches a handler only through an unexpired entry for exactly its topic, which it leaves in place. */
  lemma HandledMeans(s: Commands, entries: seq<Entry>, topic: string, message: string, jsonOk: bool, now: int)
    ensures var (s', reply) := Receive(s, entries, topic, message, jsonOk, now);
      && (reply.Handled? ==> Waiting(s.pending, topic, now) && s' == s && reply.entry in entries)
      && s'.published == s.published
      && s'.pending == (if reply.Expired? then s.pending - {topic} else s.pending)
      && (reply.Expired? ==> topic in s.pending && TimedOut(s.pending[topic], now))
  {
    match Search(topic, RESPONSE)
    case None =>
    case Some(groups) =>
      if ParseInt(groups[1]).Number? {
        ByAddressSpec(entries, groups[0], ParseInt(groups[1]).value);
      }
  }

  /** A handled response carries a payload, and its topic spells out the endpoint, the cluster and the response. */
  lemma HandledIsAddressed(s: Commands, entries: seq<Entry>, topic: string, message: string, jsonOk: bool, now: int)
    requires Receive(s, entries, topic, message, jsonOk, now).1.Handled?
    ensures var h := Receive(s, entries, topic, message, jsonOk, now).1;
      && h.entry in entries && jsonOk && message != "" && h.cluster != "" && h.response != ""
      && exists at: nat, groups :: PrintedAt(topic, at, RESPONSE, groups)
           && groups[0] == h.entry.address.unid && ParseInt(groups[1]) == Number(h.entry.address.endpoint)
           && groups[2] == h.cluster && groups[3] == h.response
  {
    var groups := Search(topic, RESPONSE).value;
    SearchFindsPrinted(topic, RESPONSE);
    ByAddressSpec(entries, groups[0], ParseInt(groups[1]).value);
  }

  ghost predicate Since(pending: Pending, key: string, sent: int) {
    key in pending && pending[key] == sent
  }

  lemma PublishedWaits(cluster: string, s: Commands, entries: seq<Entry>, store: Store, r: Request, sent: int, e: Entry)
    requires r.response != "" && ByMatterEndpoint(entries, r.matterEndpoint) == Some(e)
    requires Send(cluster, s, entries, store, r, sent).1 == Published
    ensures
      Since(Send(cluster, s, entries, store, r, sent).0.pending, ResponseTopic(e.address, cluster, r.response), sent)
  {
    SendMeans(cluster, s, entries, store, r, sent, e);
  }

  lemma ReceivedGroups(s: Commands, entries: seq<Entry>, topic: string, groups: seq<string>, e: Entry, message: string,
                       sent: int, now: int)
    requires |groups| == 4 && Search(topic, RESPONSE) == Some(groups)
    requires ParseInt(groups[1]) == Number(e.address.endpoint)
    requires ByAddress(entries, groups[0], e.address.endpoint) == Some(e)
    requires groups[2] != "" && groups[3] != "" && message != "" && Since(s.pending, topic, sent)
    ensures Receive(s, entries, topic, message, true, now).1 ==
      if now - sent < 11 * SECOND then Handled(e, groups[2], groups[3]) else Expired
  {
    ElevenSeconds(sent, now);
  }

  /** With no call in between, the response is handled before eleven seconds and expires from then on. */
  lemma NextResponse(
    cluster: string, s: Commands, l: Lifecycle.State, store: Store, r: Request, sent: int, e: Entry, message: string,
    now: int)
    requires Coherent(l) && e in l.entries && r.matterEndpoint == e.matterEndpoint
    requires SlashFree(e.address.unid) && SlashFree(cluster) && SlashFree(r.response)
    requires cluster != "" && r.response != "" && message != ""
    requires Send(cluster, s, l.entries, store, r, sent).1 == Published
    ensures var s' := Send(cluster, s, l.entries, store, r, sent).0;
      var reply := Receive(s', l.entries, ResponseTopic(e.address, cluster, r.response), message, true, now).1;
      reply == if now - sent < 11 * SECOND then Handled(e, cluster, r.response) else Expired
  {
    LookupsAreInverse(l, e);
    ResponseRoundTrip(e.address, cluster, r.response);
    assert Agrees(e, l.slots, l.store);
    ParseIntOfDec(e.address.endpoint);
    PublishedWaits(cluster, s, l.entries, store, r, sent, e);
    ReceivedGroups(Send(cluster, s, l.entries, store, r, sent).0, l.entries,
                   ResponseTopic(e.address, cluster, r.response), Parts(e.address, cluster, r.response),
                   e, message, sent, now);
  }

  // ---- Runs ------------------------------------------------------------------------

  /** The bridged table and the store may change between calls. */
  datatype Call =
    | SendCall(entries: seq<Entry>, store: Store, request: Request, now: int)
    | ReceiveCall(entries: seq<Entry>, topic: string, message: string, jsonOk: bool, now: int)

  function DoCall(cluster: string, s: Commands, call: Call): Commands {
    match call
    case SendCall(entries, store, r, now) => Send(cluster, s, entries, store, r, now).0
    case ReceiveCall(entries, topic, message, jsonOk, now) => Receive(s, entries, topic, message, jsonOk, now).0
  }

  function Run(cluster: string, s: Commands, calls: seq<Call>): Commands {
    if calls == [] then s else DoCall(cluster, Run(cluster, s, calls[..|calls| - 1]), calls[|calls| - 1])
  }

  /** The call puts a new entry for this key into the table. */
  ghost predicate Accepted(cluster: string, s: Commands, call: Call, key: string) {
    && call.SendCall? && call.request.response != ""
    && Send(cluster, s, call.entries, call.store, call.request, call.now).1 == Published
    && ByMatterEndpoint(call.entries, call.request.matterEndpoint).Some?
    && var e := ByMatterEndpoint(call.entries, call.request.matterEndpoint).value;
       key == ResponseTopic(e.address, cluster, call.request.response)
  }

  ghost predicate ClockNeverFalls(calls: seq<Call>) {
    forall i, j :: 0 <= i < j < |calls| ==> calls[i].now <= calls[j].now
  }

  /** Either the entry made at `since` or a later one is there, or its eleven seconds are over. */
  ghost predicate Guarded(pending: Pending, key: string, since: int, now: int) {
    (key in pending && pending[key] >= since) || now - since >= 11 * SECOND
  }

  lemma GuardedStep(cluster: string, s: Commands, call: Call, key: string, since: int, now: int)
    requires Guarded(s.pending, key, since, now) && since <= now <= call.now
    ensures Guarded(DoCall(cluster, s, call).pending, key, since, call.now)
  {
    if key in s.pending {
      ElevenSeconds(s.pending[key], call.now);
    }
    match call
    case SendCall(entries, store, r, t) =>
    case ReceiveCall(entries, topic, message, jsonOk, t) =>
      HandledMeans(s, entries, topic, message, jsonOk, t);
  }

  lemma AcceptedLater(cluster: string, s: Commands, call: Call, key: string, since: int, now: int)
    requires Guarded(s.pending, key, since, now) && now <= call.now && Accepted(cluster, s, call, key)
    ensures call.now - since >= 11 * SECOND
  {
    if key in s.pending {
      ElevenSeconds(s.pending[key], call.now);
    }
  }

  lemma AcceptedGuards(cluster: string, s: Commands, call: Call, key: string)
    requires Accepted(cluster, s, call, key)
    ensures Guarded(DoCall(cluster, s, call).pending, key, call.now, call.now)
  {
    var e := ByMatterEndpoint(call.entries, call.request.matterEndpoint).value;
    SendMeans(cluster, s, call.entries, call.store, call.request, call.now, e);
  }

  lemma RunNext(cluster: string, s: Commands, calls: seq<Call>, i: nat)
    requires i < |calls|
    ensures Run(cluster, s, calls[..i + 1]) == DoCall(cluster, Run(cluster, s, calls[..i]), calls[i])
  {
    assert calls[..i + 1][..i] == calls[..i];
  }

  lemma {:induction false} GuardedRun(cluster: string, s: Commands, calls: seq<Call>, i: nat, j: nat, key: string)
    requires i < j <= |calls| && ClockNeverFalls(calls)
    requires Guarded(Run(cluster, s, calls[..i + 1]).pending, key, calls[i].now, calls[i].now)
    ensures Guarded(Run(cluster, s, calls[..j]).pending, key, calls[i].now, calls[j - 1].now)
  {
    if j > i + 1 {
      GuardedRun(cluster, s, calls, i, j - 1, key);
      RunNext(cluster, s, calls, j - 1);
      GuardedStep(cluster, Run(cluster, s, calls[..j - 1]), calls[j - 1], key, calls[i].now, calls[j - 2].now);
    }
  }

  /**
   * The response to a command finds a handler: over every run with a clock that never falls, in
   * the eleven seconds after a command was accepted a response on its topic is handled for its
   * endpoint, whatever commands and responses came in between.
   */
  lemma ResponseFindsItsCommand(
    cluster: string, s: Commands, calls: seq<Call>, i: nat, j: nat,
    l: Lifecycle.State, e: Entry, response: string, message: string, now: int)
    requires i < j <= |calls| && ClockNeverFalls(calls) && calls[j - 1].now <= now < calls[i].now + 11 * SECOND
    requires Accepted(cluster, Run(cluster, s, calls[..i]), calls[i], ResponseTopic(e.address, cluster, response))
    requires Coherent(l) && e in l.entries
    requires SlashFree(e.address.unid) && SlashFree(cluster) && SlashFree(response)
    requires cluster != "" && response != "" && message != ""
    ensures
      var key := ResponseTopic(e.address, cluster, response);
      Receive(Run(cluster, s, calls[..j]), l.entries, key, message, true, now).1 == Handled(e, cluster, response)
  {
    var key := ResponseTopic(e.address, cluster, response);
    var here := Run(cluster, s, calls[..j]);
    RunNext(cluster, s, calls, i);
    AcceptedGuards(cluster, Run(cluster, s, calls[..i]), calls[i], key);
    GuardedRun(cluster, s, calls, i, j, key);
    assert key in here.pending && here.pending[key] >= calls[i].now;
    LookupsAreInverse(l, e);
    ResponseRoundTrip(e.address, cluster, response);
    assert Agrees(e, l.slots, l.store);
    ParseIntOfDec(e.address.endpoint);
    ReceivedGroups(here, l.entries, key, Parts(e.address, cluster, response), e, message, here.pending[key], now);
  }

  /**
   * Over every run with a clock that never falls, two commands accepted on one response topic
   * are at least eleven seconds apart, whatever responses arrive in between.
   */
  lemma AcceptedApart(cluster: string, s: Commands, calls: seq<Call>, i: nat, j: nat, key: string)
    requires i < j < |calls| && ClockNeverFalls(calls)
    requires Accepted(cluster, Run(cluster, s, calls[..i]), calls[i], key)
    requires Accepted(cluster, Run(cluster, s, calls[..j]), calls[j], key)
    ensures calls[j].now - calls[i].now >= 11 * SECOND
  {
    RunNext(cluster, s, calls, i);
    AcceptedGuards(cluster, Run(cluster, s, calls[..i]), calls[i], key);
    GuardedRun(cluster, s, calls, i, j, key);
    AcceptedLater(cluster, Run(cluster, s, calls[..j]), calls[j], key, calls[i].now, calls[j - 1].now);
  }
}
