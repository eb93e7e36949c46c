/**
 * Topics are printed by concatenation and read back with `std::regex_search`. A pattern is the
 * list of its literal parts; between two of them stands one `([^/]*)` group.
 */
module Topics {
  import opened Text
  import opened DataStorage

  type Pattern = seq<string>

  /** Every literal after a group starts with a slash, or is the empty end of the pattern. */
  ghost predicate IsPattern(p: Pattern) {
    && p != []
    && forall i :: 0 < i < |p| ==> (if p[i] == "" then i == |p| - 1 else p[i][0] == '/')
  }

  function Render(p: Pattern, groups: seq<string>): string
    requires |p| == |groups| + 1
  {
    if groups == [] then p[0] else p[0] + groups[0] + Render(p[1..], groups[1..])
  }

  function SlashFreeRun(s: string): (n: nat)
    ensures n <= |s| && (n < |s| ==> s[n] == '/')
    ensures forall i :: 0 <= i < n ==> s[i] != '/'
  {
    if s == "" || s[0] == '/' then 0 else 1 + SlashFreeRun(s[1..])
  }

  /** The match starting at the head of the text; each group takes all it can up to the next slash. */
  function MatchHere(text: string, p: Pattern): (r: Option<seq<string>>)
    requires p != []
    ensures r.Some? ==> |p| == |r.value| + 1
    decreases |p|
  {
    if !(p[0] <= text) then None
    else if |p| == 1 then Some([])
    else
      var rest := text[|p[0]|..];
      var n := SlashFreeRun(rest);
      match MatchHere(rest[n..], p[1..])
      case None => None
      case Some(groups) => Some([rest[..n]] + groups)
  }

  /** The leftmost match, as `std::regex_search` reports it. */
  function Search(text: string, p: Pattern): (r: Option<seq<string>>)
    requires p != []
    ensures r.Some? ==> |p| == |r.value| + 1
  {
    var here := MatchHere(text, p);
    if here.Some? || text == "" then here else Search(text[1..], p)
  }

  ghost predicate AllSlashFree(groups: seq<string>) {
    forall i :: 0 <= i < |groups| ==> SlashFree(groups[i])
  }

  // ---- Reading back what was printed -----------------------------------------------

  lemma SlashFreeRunOf(s: string, rest: string)
    requires SlashFree(s) && (rest == "" || rest[0] == '/')
    ensures SlashFreeRun(s + rest) == |s|
  {
    var n := SlashFreeRun(s + rest);
    assert forall i :: 0 <= i < |s| ==> (s + rest)[i] == s[i];
    assert rest != "" ==> (s + rest)[|s|] == rest[0];
  }

  lemma PatternTail(p: Pattern)
    requires IsPattern(p) && |p| > 1
    ensures IsPattern(p[1..])
    ensures p[1..][|p| - 2] == p[|p| - 1]
    ensures if p[1] == "" then |p| == 2 else p[1][0] == '/'
  {
    var q := p[1..];
    assert forall i :: 0 <= i < |q| ==> q[i] == p[i + 1];
  }

  /** One group of a match. */
  lemma MatchStep(p: Pattern, group: string, tail: string)
    requires |p| > 1 && SlashFree(group) && (tail == "" || tail[0] == '/')
    ensures MatchHere(p[0] + group + tail, p) ==
      match MatchHere(tail, p[1..]) { case None => None case Some(groups) => Some([group] + groups) }
  {
    var text := p[0] + group + tail;
    var rest := group + tail;
    assert text == p[0] + rest;
    assert p[0] <= text && text[|p[0]|..] == rest;
    SlashFreeRunOf(group, tail);
    assert rest[..|group|] == group && rest[|group|..] == tail;
  }

  /** A printed topic matches where it was printed, with the groups it was printed from. */
  lemma {:induction false} MatchPrinted(p: Pattern, groups: seq<string>, rest: string)
    requires IsPattern(p) && |p| == |groups| + 1 && AllSlashFree(groups)
    requires p[|p| - 1] == "" ==> rest == "" || rest[0] == '/'
    ensures MatchHere(Render(p, groups) + rest, p) == Some(groups)
    decreases |p|
  {
    if groups == [] {
      assert p[0] <= p[0] + rest;
    } else {
      var group, others := groups[0], groups[1..];
      var tail := Render(p[1..], others) + rest;
      PatternTail(p);
      assert AllSlashFree(others);
      MatchPrinted(p[1..], others, rest);
      MatchStep(p, group, tail);
      assert Render(p, groups) + rest == p[0] + group + tail;
      assert [group] + others == groups;
    }
  }

  lemma PrefixStep(text: string, head: string, n: nat, tail: string)
    requires head <= text && n <= |text| - |head| && tail <= text[|head|..][n..]
    ensures head + text[|head|..][..n] + tail <= text
  {
    var rest := text[|head|..];
    assert text == head + rest;
    assert rest == rest[..n] + rest[n..];
    assert rest[n..] == tail + rest[n..][|tail|..];
  }

  lemma ConsSlashFree(s: string, n: nat, groups: seq<string>)
    requires n <= |s| && AllSlashFree(groups) && forall i :: 0 <= i < n ==> s[i] != '/'
    ensures AllSlashFree([s[..n]] + groups)
  {}

  /** What matches was printed from the groups the match reports. */
  lemma {:induction false} MatchIsPrinted(text: string, p: Pattern)
    requires p != [] && MatchHere(text, p).Some?
    ensures var groups := MatchHere(text, p).value;
      AllSlashFree(groups) && Render(p, groups) <= text
    decreases |p|
  {
    if |p| > 1 {
      var rest := text[|p[0]|..];
      var n := SlashFreeRun(rest);
      MatchIsPrinted(rest[n..], p[1..]);
      var groups := MatchHere(rest[n..], p[1..]).value;
      ConsSlashFree(rest, n, groups);
      RenderCons(p, rest[..n], groups);
      PrefixStep(text, p[0], n, Render(p[1..], groups));
    }
  }

  lemma RenderCons(p: Pattern, group: string, groups: seq<string>)
    requires |p| == |groups| + 2
    ensures Render(p, [group] + groups) == p[0] + group + Render(p[1..], groups)
  {
    assert ([group] + groups)[1..] == groups;
  }

  /** Printing a topic and reading it back is the identity on slash-free parts. */
  lemma TopicRoundTrip(p: Pattern, groups: seq<string>)
    requires IsPattern(p) && |p| == |groups| + 1 && AllSlashFree(groups)
    ensures Search(Render(p, groups), p) == Some(groups)
  {
    MatchPrinted(p, groups, "");
    assert Render(p, groups) + "" == Render(p, groups);
  }

  lemma RenderInjective(p: Pattern, groups: seq<string>, others: seq<string>)
    requires IsPattern(p) && |p| == |groups| + 1 == |others| + 1
    requires AllSlashFree(groups) && AllSlashFree(others)
    ensures Render(p, groups) == Render(p, others) ==> groups == others
  {
    TopicRoundTrip(p, groups);
    TopicRoundTrip(p, others);
  }

  function MatchAt(text: string, at: nat, p: Pattern): Option<seq<string>>
    requires p != [] && at <= |text|
  {
    MatchHere(text[at..], p)
  }

  ghost predicate FirstMatchAt(text: string, at: nat, p: Pattern, groups: seq<string>)
    requires p != []
  {
    && at <= |text|
    && MatchAt(text, at, p) == Some(groups)
    && forall k :: 0 <= k < at ==> MatchAt(text, k, p).None?
  }

  lemma MatchAtShift(text: string, p: Pattern)
    requires p != [] && text != ""
    ensures MatchAt(text, 0, p) == MatchHere(text, p)
    ensures forall k :: 0 < k <= |text| ==> MatchAt(text, k, p) == MatchAt(text[1..], k - 1, p)
  {
    assert text[0..] == text;
    forall k | 0 < k <= |text|
      ensures MatchAt(text, k, p) == MatchAt(text[1..], k - 1, p)
    {
      assert text[k..] == text[1..][k - 1..];
    }
  }

  lemma FirstMatchShift(text: string, p: Pattern, at: nat, groups: seq<string>)
    requires p != [] && text != "" && MatchHere(text, p).None?
    requires FirstMatchAt(text[1..], at, p, groups)
    ensures FirstMatchAt(text, at + 1, p, groups)
  {
    MatchAtShift(text, p);
    forall k | 0 <= k < at + 1
      ensures MatchAt(text, k, p).None?
    {
      if k > 0 {
        assert MatchAt(text[1..], k - 1, p).None?;
      }
    }
  }

  /** A search reports the leftmost place where slash-free groups fit the pattern, and fails only if none does. */
  lemma {:induction false} SearchIsLeftmost(text: string, p: Pattern)
    requires p != []
    ensures Search(text, p).Some? ==> exists at: nat :: FirstMatchAt(text, at, p, Search(text, p).value)
    ensures Search(text, p).None? ==> forall k :: 0 <= k <= |text| ==> MatchAt(text, k, p).None?
  {
    if text == "" {
      assert text[0..] == text;
      assert Search(text, p).Some? ==> FirstMatchAt(text, 0, p, Search(text, p).value);
    } else {
      MatchAtShift(text, p);
      if MatchHere(text, p).Some? {
        assert FirstMatchAt(text, 0, p, Search(text, p).value);
      } else {
        SearchIsLeftmost(text[1..], p);
        if Search(text, p).Some? {
          var at: nat :| FirstMatchAt(text[1..], at, p, Search(text[1..], p).value);
          FirstMatchShift(text, p, at, Search(text, p).value);
        }
      }
    }
  }

  /** The leftmost place where the pattern fits, and the text there was printed from these groups. */
  ghost predicate PrintedAt(text: string, at: nat, p: Pattern, groups: seq<string>)
    requires p != []
  {
    && FirstMatchAt(text, at, p, groups)
    && |p| == |groups| + 1 && AllSlashFree(groups)
    && Render(p, groups) <= text[at..]
  }

  /** A search succeeds only on text holding a topic printed from the groups it reports. */
  lemma SearchFindsPrinted(text: string, p: Pattern)
    requires p != [] && Search(text, p).Some?
    ensures exists at: nat :: PrintedAt(text, at, p, Search(text, p).value)
  {
    SearchIsLeftmost(text, p);
    var at: nat :| FirstMatchAt(text, at, p, Search(text, p).value);
    MatchIsPrinted(text[at..], p);
    assert PrintedAt(text, at, p, Search(text, p).value);
  }

  // ---- The topics of the bridge ----------------------------------------------------

  const REPORTED: Pattern := ["ucl/by-unid/", "/ep", "/", "/Attributes/", "/Reported"]
  const RESPONSE: Pattern := ["ucl/by-unid/", "/ep", "/", "/GeneratedCommands/", ""]
  const NODE_LIST: Pattern := ["ucl/by-group/", "/NodeList/", ""]

  function UnidPrefix(a: Address): string {
    "ucl/by-unid/" + a.unid + "/ep" + Dec(a.endpoint)
  }

  function ReportedTopic(a: Address, cluster: string, attribute: string): string {
    UnidPrefix(a) + "/" + cluster + "/Attributes/" + attribute + "/Reported"
  }

  function ResponseTopic(a: Address, cluster: string, response: string): string {
    UnidPrefix(a) + "/" + cluster + "/GeneratedCommands/" + response
  }

  function Parts(a: Address, cluster: string, name: string): seq<string> {
    [a.unid, Dec(a.endpoint), cluster, name]
  }

  lemma PartsSlashFree(a: Address, cluster: string, name: string)
    requires SlashFree(a.unid) && SlashFree(cluster) && SlashFree(name)
    ensures AllSlashFree(Parts(a, cluster, name))
  {
    DecValue(a.endpoint);
  }

  lemma ReportedIsRendered(a: Address, cluster: string, attribute: string)
    ensures ReportedTopic(a, cluster, attribute) == Render(REPORTED, Parts(a, cluster, attribute))
  {
    RenderFour(REPORTED, Parts(a, cluster, attribute));
  }

  lemma ResponseIsRendered(a: Address, cluster: string, response: string)
    ensures ResponseTopic(a, cluster, response) == Render(RESPONSE, Parts(a, cluster, response))
  {
    RenderFour(RESPONSE, Parts(a, cluster, response));
  }

  lemma RenderFour(p: Pattern, g: seq<string>)
    requires |p| == 5 && |g| == 4
    ensures Render(p, g) == p[0] + g[0] + (p[1] + g[1] + (p[2] + g[2] + (p[3] + g[3] + p[4])))
  {
    assert Render(p[4..], g[4..]) == p[4];
    assert p[3..][1..] == p[4..] && g[3..][1..] == g[4..];
    assert Render(p[3..], g[3..]) == p[3] + g[3] + p[4];
    assert p[2..][1..] == p[3..] && g[2..][1..] == g[3..];
    assert Render(p[2..], g[2..]) == p[2] + g[2] + Render(p[3..], g[3..]);
    assert p[1..][1..] == p[2..] && g[1..][1..] == g[2..];
    assert Render(p[1..], g[1..]) == p[1] + g[1] + Render(p[2..], g[2..]);
  }

  lemma RenderTwo(p: Pattern, g: seq<string>)
    requires |p| == 3 && |g| == 2
    ensures Render(p, g) == p[0] + g[0] + (p[1] + g[1] + p[2])
  {
    assert Render(p[2..], g[2..]) == p[2];
    assert p[1..][1..] == p[2..] && g[1..][1..] == g[2..];
    assert Render(p[1..], g[1..]) == p[1] + g[1] + p[2];
  }

  function NodeListTopic(unifyGroup: nat, protocol: string): string {
    "ucl/by-group/" + Dec(unifyGroup) + "/NodeList/" + protocol
  }

  lemma NodeListRoundTrip(unifyGroup: nat, protocol: string)
    requires SlashFree(protocol)
    ensures Search(NodeListTopic(unifyGroup, protocol), NODE_LIST) == Some([Dec(unifyGroup), protocol])
  {
    DecValue(unifyGroup);
    var parts := [Dec(unifyGroup), protocol];
    RenderTwo(NODE_LIST, parts);
    assert NodeListTopic(unifyGroup, protocol) == Render(NODE_LIST, parts);
    TopicRoundTrip(NODE_LIST, parts);
  }

  /** Reading a report's topic gives back the unid, the endpoint's numeral, the cluster and the attribute. */
  lemma ReportedRoundTrip(a: Address, cluster: string, attribute: string)
    requires SlashFree(a.unid) && SlashFree(cluster) && SlashFree(attribute)
    ensures Search(ReportedTopic(a, cluster, attribute), REPORTED) == Some(Parts(a, cluster, attribute))
  {
    ReportedIsRendered(a, cluster, attribute);
    PartsSlashFree(a, cluster, attribute);
    TopicRoundTrip(REPORTED, Parts(a, cluster, attribute));
  }

  lemma ResponseRoundTrip(a: Address, cluster: string, response: string)
    requires SlashFree(a.unid) && SlashFree(cluster) && SlashFree(response)
    ensures Search(ResponseTopic(a, cluster, response), RESPONSE) == Some(Parts(a, cluster, response))
  {
    ResponseIsRendered(a, cluster, response);
    PartsSlashFree(a, cluster, response);
    TopicRoundTrip(RESPONSE, Parts(a, cluster, response));
  }

  /** No two endpoints, clusters or attributes share a topic. */
  lemma ReportedInjective(a: Address, c: string, n: string, a': Address, c': string, n': string)
    requires SlashFree(a.unid) && SlashFree(c) && SlashFree(n)
    requires SlashFree(a'.unid) && SlashFree(c') && SlashFree(n')
    ensures ReportedTopic(a, c, n) == ReportedTopic(a', c', n') ==> a == a' && c == c' && n == n'
  {
    ReportedRoundTrip(a, c, n);
    ReportedRoundTrip(a', c', n');
    DecInjective(a.endpoint, a'.endpoint);
    PartsInjective(a, c, n, a', c', n');
  }

  lemma ResponseInjective(a: Address, c: string, n: string, a': Address, c': string, n': string)
    requires SlashFree(a.unid) && SlashFree(c) && SlashFree(n)
    requires SlashFree(a'.unid) && SlashFree(c') && SlashFree(n')
    ensures ResponseTopic(a, c, n) == ResponseTopic(a', c', n') ==> a == a' && c == c' && n == n'
  {
    ResponseRoundTrip(a, c, n);
    ResponseRoundTrip(a', c', n');
    PartsInjective(a, c, n, a', c', n');
  }

  lemma PartsInjective(a: Address, c: string, n: string, a': Address, c': string, n': string)
    ensures Parts(a, c, n) == Parts(a', c', n') ==> a == a' && c == c' && n == n'
  {
    var p, p' := Parts(a, c, n), Parts(a', c', n');
    assert p[0] == a.unid && p[1] == Dec(a.endpoint) && p[2] == c && p[3] == n;
    assert p'[0] == a'.unid && p'[1] == Dec(a'.endpoint) && p'[2] == c' && p'[3] == n';
    DecInjective(a.endpoint, a'.endpoint);
  }
}
