/** From an MQTT report to the Matter endpoint it belongs to. */
module AttributeTranslator {
  import opened Text
  import opened DataStorage
  import opened Lifecycle
  import opened LifecycleTheorems
  import opened Topics

  /** `Throws`: `std::stoi` is called outside the handler's try block. */
  datatype Outcome =
    | NoMatch
    | Throws(error: Stoi)
    | NotBridged
    | Unknown
    | BadJson
    | Delivered(entry: Entry, cluster: string, attribute: string)

  /** `jsonOk` says whether the payload parses and has the type the handler expects. */
  method OnMqttMessage(entries: seq<Entry>, topic: string, message: string, jsonOk: bool) returns (outcome: Outcome)
    ensures outcome == Routed(entries, topic, message, jsonOk)
  {
    var groups := Search(topic, REPORTED);
    if groups.None? {
      return NoMatch;
    }
    var unid, endpoint, cluster, attribute := groups.value[0], groups.value[1], groups.value[2], groups.value[3];
    var number := ParseInt(endpoint);
    if !number.Number? {
      return Throws(number);
    }
    var node := ByAddress(entries, unid, number.value);
    if node.None? {
      return NotBridged;
    }
    if attribute != "" && cluster != "" && message != "" {
      if !jsonOk {
        return BadJson;
      }
      return Delivered(node.value, cluster, attribute);
    }
    return Unknown;
  }

  ghost function Routed(entries: seq<Entry>, topic: string, message: string, jsonOk: bool): Outcome {
    match Search(topic, REPORTED)
    case None => NoMatch
    case Some(groups) =>
      match ParseInt(groups[1])
      case Number(n) =>
        (match ByAddress(entries, groups[0], n)
         case None => NotBridged
         case Some(e) =>
           if groups[3] == "" || groups[2] == "" || message == "" then Unknown
           else if !jsonOk then BadJson
           else Delivered(e, groups[2], groups[3]))
      case error => Throws(error)
  }

  lemma RoutedGroups(entries: seq<Entry>, topic: string, groups: seq<string>, endpoint: int, message: string)
    requires |groups| == 4 && Search(topic, REPORTED) == Some(groups) && ParseInt(groups[1]) == Number(endpoint)
    requires groups[2] != "" && groups[3] != "" && message != ""
    ensures Routed(entries, topic, message, true) ==
      match ByAddress(entries, groups[0], endpoint)
      case None => NotBridged
      case Some(e) => Delivered(e, groups[2], groups[3])
  {}

  /**
   * A well-formed report for a bridged endpoint reaches exactly the entry that endpoint is
   * bridged as; one for an endpoint that is not bridged is dropped.
   */
  lemma ReportReachesItsEndpoint(s: State, a: Address, cluster: string, attribute: string, message: string)
    requires Coherent(s) && IsAddress(a)
    requires SlashFree(a.unid) && SlashFree(cluster) && SlashFree(attribute)
    requires cluster != "" && attribute != "" && message != ""
    ensures var outcome := Routed(s.entries, ReportedTopic(a, cluster, attribute), message, true);
      && (forall e :: e in s.entries && e.address == a ==>
            outcome == Delivered(e, cluster, attribute) && ByMatterEndpoint(s.entries, e.matterEndpoint) == Some(e))
      && (!IsBridged(s.entries, a) ==> outcome == NotBridged)
  {
    ReportedRoundTrip(a, cluster, attribute);
    ParseIntOfDec(a.endpoint);
    RoutedGroups(s.entries, ReportedTopic(a, cluster, attribute), Parts(a, cluster, attribute), a.endpoint, message);
    ByAddressSpec(s.entries, a.unid, a.endpoint);
    forall e | e in s.entries && e.address == a
      ensures ByAddress(s.entries, a.unid, a.endpoint) == Some(e)
      ensures ByMatterEndpoint(s.entries, e.matterEndpoint) == Some(e)
    {
      LookupsAreInverse(s, e);
    }
  }

  /** Whatever the topic, a report is only ever delivered to a bridged endpoint whose unid and number it spells out. */
  lemma DeliveryIsAddressed(entries: seq<Entry>, topic: string, message: string, jsonOk: bool)
    requires Routed(entries, topic, message, jsonOk).Delivered?
    ensures var d := Routed(entries, topic, message, jsonOk);
      && d.entry in entries && jsonOk && message != "" && d.cluster != "" && d.attribute != ""
      && exists at: nat, groups :: PrintedAt(topic, at, REPORTED, groups)
           && groups[0] == d.entry.address.unid && ParseInt(groups[1]) == Number(d.entry.address.endpoint)
           && groups[2] == d.cluster && groups[3] == d.attribute
  {
    var groups := Search(topic, REPORTED).value;
    SearchFindsPrinted(topic, REPORTED);
    ByAddressSpec(entries, groups[0], ParseInt(groups[1]).value);
  }
}
