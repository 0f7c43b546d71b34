/** Message composition and delivery of `mulerun_crawl/notifications/feishu.py`.
    The HTTP round trip is an input: what `requests.post` produced (nothing
    when it raised) is passed in, and only its interpretation is modelled.
    The crawl time arrives already formatted, as `strftime` would write it. */
module Feishu {
  import opened Common

  /** A notifier: the webhook it posts to and whether it posts at all. */
  datatype Notifier = Notifier(webhookUrl: string, enabled: bool)

  /** `FeishuNotifier(webhook_url)`; `moduleUrl` is `FEISHU_WEBHOOK_URL`, the
      environment's value or the built-in default. An empty or absent URL
      falls back to it, and the notifier is on exactly when the URL it ends
      up with is non-empty. */
  function NewNotifier(webhookUrl: Option<string>, moduleUrl: string): (n: Notifier)
    ensures n.enabled <==> n.webhookUrl != ""
    ensures webhookUrl.Some? && webhookUrl.value != "" ==> n.webhookUrl == webhookUrl.value
    ensures webhookUrl.None? || webhookUrl.value == "" ==> n.webhookUrl == moduleUrl
  {
    var url := if webhookUrl.Some? && webhookUrl.value != "" then webhookUrl.value else moduleUrl;
    Notifier(url, url != "")
  }

  /** The JSON body `send_text` posts: `{"msg_type": ..., "content": {"text": ...}}`. */
  datatype Payload = Payload(msgType: string, text: string)

  /** A decoded JSON value, as far as `result.get('code') == 0` can tell
      values apart. */
  datatype JsonValue =
    | JNull
    | JBool(b: bool)
    | JInt(i: int)
    | JReal(r: real)
    | JString(s: string)
    | JArray(items: seq<JsonValue>)
    | JObject(fields: map<string, JsonValue>)

  /** A response body: JSON, or text `response.json()` cannot decode. */
  datatype Body = NotJson | Json(value: JsonValue)

  datatype Response = Response(statusCode: int, body: Body)

  /** Python's `x == 0`: true for the integer 0, the float 0.0 and `False`. */
  predicate EqualsZero(v: JsonValue) {
    v == JInt(0) || v == JReal(0.0) || v == JBool(false)
  }

  /** `response.raise_for_status()` raises for client and server errors. */
  predicate IsHttpError(statusCode: int) {
    400 <= statusCode < 600
  }

  /** `_send`: `response` is what `requests.post` returned, `None` when it
      raised. Delivery succeeds exactly when no step raises (no HTTP error
      status, a JSON object body) and the body's `code` equals 0. */
  function Send(response: Option<Response>): (ok: bool)
    ensures ok <==>
      && response.Some? && !IsHttpError(response.value.statusCode)
      && response.value.body.Json? && response.value.body.value.JObject?
      && "code" in response.value.body.value.fields
      && EqualsZero(response.value.body.value.fields["code"])
  {
    match response
    case None => false
    case Some(resp) =>
      if IsHttpError(resp.statusCode) then false
      else match resp.body
        case NotJson => false
        case Json(value) =>
          match value
          case JObject(fields) =>
            var code := if "code" in fields then fields["code"] else JNull;
            EqualsZero(code)
          case _ => false
  }

  /** What a send operation did: the payload it posted (if it posted one)
      and the boolean it returned. */
  datatype Delivery = Delivery(posted: Option<Payload>, ok: bool)

  const NotSent := Delivery(None, false)

  /** `send_text`: nothing is posted while the notifier is off; otherwise a
      text message carrying `text` is posted and its outcome reported. */
  function SendText(n: Notifier, text: string, response: Option<Response>): (d: Delivery)
    ensures !n.enabled ==> d == NotSent
    ensures n.enabled ==> d.posted == Some(Payload("text", text)) && d.ok == Send(response)
    ensures d.ok ==> d.posted.Some?
  {
    if !n.enabled then NotSent else Delivery(Some(Payload("text", text)), Send(response))
  }

  /** `send_feishu_notification`: a notifier on the module's URL. */
  function SendNotification(moduleUrl: string, text: string, response: Option<Response>): (d: Delivery)
    ensures d.posted.Some? <==> moduleUrl != ""
    ensures d.posted.Some? ==> d.posted.value.text == text
    ensures d.ok == (moduleUrl != "" && Send(response))
  {
    SendText(NewNotifier(None, moduleUrl), text, response)
  }

  // ---------------------------------------------------------------------
  // Crawl summary

  /** `stats.get(key, 0)`. */
  function StatOrZero(stats: map<string, int>, key: string): int {
    if key in stats then stats[key] else 0
  }

  const ActivePrefix := "• 活跃 agents: "
  const InactivePrefix := "• 下架 agents: "
  const CrawlsPrefix := "• 总爬取次数: "
  const TimePrefix := "• 爬取时间: "

  /** The lines of the summary message. */
  function SummaryLines(stats: map<string, int>, crawlTimeText: string): seq<string> {
    [ "✅ MuleRun 爬取完成",
      "",
      "📊 统计信息：",
      ActivePrefix + IntToString(StatOrZero(stats, "active_agents")),
      InactivePrefix + IntToString(StatOrZero(stats, "inactive_agents")),
      CrawlsPrefix + IntToString(StatOrZero(stats, "total_crawls")),
      TimePrefix + crawlTimeText,
      "",
      "⏰ 下次执行: 24小时后" ]
  }

  function SummaryText(stats: map<string, int>, crawlTimeText: string): string {
    JoinLines(SummaryLines(stats, crawlTimeText))
  }

  /** `send_crawl_summary`. */
  function SendCrawlSummary(n: Notifier, stats: map<string, int>, crawlTimeText: string, response: Option<Response>): (d: Delivery)
    ensures !n.enabled ==> d == NotSent
    ensures n.enabled ==> d.posted == Some(Payload("text", SummaryText(stats, crawlTimeText))) && d.ok == Send(response)
  {
    if !n.enabled then NotSent else SendText(n, SummaryText(stats, crawlTimeText), response)
  }

  lemma NoNewlineConcat(a: string, b: string)
    requires NoNewline(a) && NoNewline(b)
    ensures NoNewline(a + b)
  {
    forall k | 0 <= k < |a + b| ensures (a + b)[k] != '\n' {
      if k >= |a| { assert (a + b)[k] == b[k - |a|]; }
    }
  }

  lemma IntToStringNoNewline(i: int)
    ensures NoNewline(IntToString(i))
  {
    var digits := NatToString(if i < 0 then -i else i);
    assert forall k :: 0 <= k < |digits| ==> IsDigit(digits[k]);
    if i < 0 { NoNewlineConcat("-", digits); }
  }

  lemma SummaryLinesPlain(stats: map<string, int>, crawlTimeText: string)
    requires NoNewline(crawlTimeText)
    ensures forall k :: 0 <= k < |SummaryLines(stats, crawlTimeText)| ==> NoNewline(SummaryLines(stats, crawlTimeText)[k])
  {
    var lines := SummaryLines(stats, crawlTimeText);
    forall k | 0 <= k < |lines| ensures NoNewline(lines[k]) {
      if k == 3 { IntToStringNoNewline(StatOrZero(stats, "active_agents")); NoNewlineConcat(ActivePrefix, IntToString(StatOrZero(stats, "active_agents"))); }
      if k == 4 { IntToStringNoNewline(StatOrZero(stats, "inactive_agents")); NoNewlineConcat(InactivePrefix, IntToString(StatOrZero(stats, "inactive_agents"))); }
      if k == 5 { IntToStringNoNewline(StatOrZero(stats, "total_crawls")); NoNewlineConcat(CrawlsPrefix, IntToString(StatOrZero(stats, "total_crawls"))); }
      if k == 6 { NoNewlineConcat(TimePrefix, crawlTimeText); }
    }
  }

  /** Each count sits on a line of its own after its label, 0 when the
      statistics lack it, and reads back as the number reported. */
  lemma {:induction false} SummaryReportsStats(stats: map<string, int>, crawlTimeText: string)
    requires NoNewline(crawlTimeText)
    ensures var lines := SplitLines(SummaryText(stats, crawlTimeText));
      && |lines| == 9
      && lines[3] == ActivePrefix + IntToString(StatOrZero(stats, "active_agents"))
      && lines[4] == InactivePrefix + IntToString(StatOrZero(stats, "inactive_agents"))
      && lines[5] == CrawlsPrefix + IntToString(StatOrZero(stats, "total_crawls"))
      && lines[6] == TimePrefix + crawlTimeText
    ensures "active_agents" !in stats ==> SplitLines(SummaryText(stats, crawlTimeText))[3] == ActivePrefix + "0"
    ensures forall key :: key in stats && stats[key] >= 0 ==> ParseNat(IntToString(StatOrZero(stats, key))) == stats[key]
  {
    SummaryLinesPlain(stats, crawlTimeText);
    SplitJoinLines(SummaryLines(stats, crawlTimeText));
    forall key | key in stats && stats[key] >= 0 ensures ParseNat(IntToString(StatOrZero(stats, key))) == stats[key] {
      ParseNatOfNatToString(stats[key]);
    }
  }

  // ---------------------------------------------------------------------
  // Removal notification

  /** One key of an agent dictionary: absent, present with `None`, or text. */
  datatype Field = Missing | Null | Text(s: string)

  /** `f"{agent.get(key, default)}"`. */
  function Render(f: Field, default: string): string {
    match f
    case Missing => default
    case Null => "None"
    case Text(s) => s
  }

  datatype RemovedAgent = RemovedAgent(name: Field, link: Field, author: Field)

  /** At most this many agents are listed one by one. */
  const MaxListed := 10

  function SingleRemovedLines(a: RemovedAgent): seq<string> {
    [ "⚠️ Agent 下架通知",
      "",
      "📛 名称: " + Render(a.name, "Unknown"),
      "🔗 链接: https://mulerun.com" + Render(a.link, ""),
      "👤 作者: " + Render(a.author, "Unknown"),
      "",
      "该 agent 已从 MuleRun 下架" ]
  }

  function Bullet(a: RemovedAgent): string {
    "• " + Render(a.name, "Unknown") + " (" + Render(a.author, "Unknown") + ")"
  }

  function Bullets(agents: seq<RemovedAgent>): (r: seq<string>)
    ensures |r| == |agents| && forall k :: 0 <= k < |agents| ==> r[k] == Bullet(agents[k])
  {
    if agents == [] then [] else [Bullet(agents[0])] + Bullets(agents[1..])
  }

  function RemainderLine(n: nat): string {
    "... 还有 " + NatToString(n) + " 个"
  }

  /** The lines of `agent_list`: the first ten agents, then a count of the
      rest when there are more. */
  function AgentListLines(agents: seq<RemovedAgent>): seq<string> {
    Bullets(agents[..if |agents| < MaxListed then |agents| else MaxListed])
      + (if |agents| > MaxListed then [RemainderLine(|agents| - MaxListed)] else [])
  }

  /** The batch message; `agent_list` fills the lines between the count and
      the closing lines. */
  function BatchRemovedLines(agents: seq<RemovedAgent>): seq<string> {
    BatchHead(|agents|) + AgentListLines(agents) + BatchFoot()
  }

  /** The opening lines of the batch message, with the agent count. */
  function BatchHead(n: nat): seq<string> {
    [ "⚠️ 批量 Agent 下架通知", "", CountLine(n), "" ]
  }

  /** The line that gives how many agents were removed. */
  function CountLine(n: nat): string {
    "共发现 " + NatToString(n) + " 个 agents 下架："
  }

  function BatchFoot(): seq<string> {
    [ "", "请查看详情: https://mulerun.com" ]
  }

  function RemovedText(agents: seq<RemovedAgent>): string
    requires |agents| > 0
  {
    if |agents| == 1 then JoinLines(SingleRemovedLines(agents[0]))
    else JoinLines(BatchRemovedLines(agents))
  }

  /** `send_agent_removed_notification`: nothing is posted for an empty
      list or while the notifier is off. */
  function SendAgentRemoved(n: Notifier, agents: seq<RemovedAgent>, response: Option<Response>): (d: Delivery)
    ensures agents == [] || !n.enabled ==> d == NotSent
    ensures agents != [] && n.enabled ==> d.posted == Some(Payload("text", RemovedText(agents))) && d.ok == Send(response)
  {
    if !n.enabled || agents == [] then NotSent else SendText(n, RemovedText(agents), response)
  }

  predicate PlainField(f: Field) {
    f.Text? ==> NoNewline(f.s)
  }

  predicate PlainAgent(a: RemovedAgent) {
    PlainField(a.name) && PlainField(a.link) && PlainField(a.author)
  }

  lemma RenderNoNewline(f: Field, default: string)
    requires PlainField(f) && NoNewline(default)
    ensures NoNewline(Render(f, default))
  {
  }

  lemma BulletNoNewline(a: RemovedAgent)
    requires PlainAgent(a)
    ensures NoNewline(Bullet(a))
  {
    var name, author := Render(a.name, "Unknown"), Render(a.author, "Unknown");
    RenderNoNewline(a.name, "Unknown");
    RenderNoNewline(a.author, "Unknown");
    NoNewlineConcat("• ", name);
    NoNewlineConcat("• " + name, " (");
    NoNewlineConcat("• " + name + " (", author);
    NoNewlineConcat("• " + name + " (" + author, ")");
  }

  /** A single removed agent gets its name, page and author, each on its own
      line, with "Unknown" (or no path) standing in for a missing key. */
  lemma SingleRemovedShowsAgent(a: RemovedAgent)
    requires PlainAgent(a)
    ensures var lines := SplitLines(RemovedText([a]));
      && |lines| == 7
      && lines[2] == "📛 名称: " + Render(a.name, "Unknown")
      && lines[3] == "🔗 链接: https://mulerun.com" + Render(a.link, "")
      && lines[4] == "👤 作者: " + Render(a.author, "Unknown")
  {
    var lines := SingleRemovedLines(a);
    RenderNoNewline(a.name, "Unknown");
    RenderNoNewline(a.link, "");
    RenderNoNewline(a.author, "Unknown");
    NoNewlineConcat("📛 名称: ", Render(a.name, "Unknown"));
    NoNewlineConcat("🔗 链接: https://mulerun.com", Render(a.link, ""));
    NoNewlineConcat("👤 作者: ", Render(a.author, "Unknown"));
    SplitJoinLines(lines);
  }

  lemma AgentListShape(agents: seq<RemovedAgent>)
    ensures var list := AgentListLines(agents);
      var listed := if |agents| < MaxListed then |agents| else MaxListed;
      && |list| == listed + (if |agents| > MaxListed then 1 else 0)
      && (forall k :: 0 <= k < listed ==> list[k] == Bullet(agents[k]))
      && (|agents| > MaxListed ==> list[MaxListed] == RemainderLine(|agents| - MaxListed))
  {
  }

  lemma AgentListPlain(agents: seq<RemovedAgent>)
    requires forall k :: 0 <= k < |agents| ==> PlainAgent(agents[k])
    ensures forall k :: 0 <= k < |AgentListLines(agents)| ==> NoNewline(AgentListLines(agents)[k])
  {
    var list := AgentListLines(agents);
    var n := |agents|;
    var listed := if n < MaxListed then n else MaxListed;
    AgentListShape(agents);
    forall k | 0 <= k < |list| ensures NoNewline(list[k]) {
      if k < listed {
        BulletNoNewline(agents[k]);
      } else {
        assert NoNewline(NatToString(n - MaxListed)) by { assert AllDigits(NatToString(n - MaxListed)); }
        NoNewlineConcat("... 还有 ", NatToString(n - MaxListed));
        NoNewlineConcat("... 还有 " + NatToString(n - MaxListed), " 个");
      }
    }
  }

  lemma BatchLinesPlain(agents: seq<RemovedAgent>)
    requires forall k :: 0 <= k < |agents| ==> PlainAgent(agents[k])
    ensures forall k :: 0 <= k < |BatchRemovedLines(agents)| ==> NoNewline(BatchRemovedLines(agents)[k])
  {
    var n := |agents|;
    BatchHeadPlain(n);
    BatchFootPlain();
    AgentListPlain(agents);
    PlainLinesConcat(BatchHead(n), AgentListLines(agents));
    PlainLinesConcat(BatchHead(n) + AgentListLines(agents), BatchFoot());
  }

  lemma BatchHeadPlain(n: nat)
    ensures forall k :: 0 <= k < |BatchHead(n)| ==> NoNewline(BatchHead(n)[k])
  {
    assert NoNewline(CountLine(n)) by {
      assert NoNewline(NatToString(n)) by { assert AllDigits(NatToString(n)); }
      NoNewlineConcat("共发现 ", NatToString(n));
      NoNewlineConcat("共发现 " + NatToString(n), " 个 agents 下架：");
    }
  }

  lemma BatchFootPlain()
    ensures forall k :: 0 <= k < |BatchFoot()| ==> NoNewline(BatchFoot()[k])
  {
  }

  /** Several removed agents: the message states how many, lists the first
      ten one per line in the order given, and counts the rest on one
      further line when there are more than ten. */
  lemma BatchRemovedListsAgents(agents: seq<RemovedAgent>)
    requires |agents| > 1
    requires forall k :: 0 <= k < |agents| ==> PlainAgent(agents[k])
    ensures var lines := SplitLines(RemovedText(agents));
      var listed := if |agents| < MaxListed then |agents| else MaxListed;
      && |lines| == 6 + listed + (if |agents| > MaxListed then 1 else 0)
      && lines[2] == CountLine(|agents|)
      && (forall k :: 0 <= k < listed ==> lines[4 + k] == Bullet(agents[k]))
      && (|agents| > MaxListed ==> lines[4 + MaxListed] == RemainderLine(|agents| - MaxListed))
  {
    BatchLinesPlain(agents);
    SplitJoinLines(BatchRemovedLines(agents));
    AgentListShape(agents);
    BatchShape(agents);
  }

  /** The batch message is four opening lines, the agent list, and two
      closing lines. */
  lemma BatchShape(agents: seq<RemovedAgent>)
    ensures var b := BatchRemovedLines(agents);
      var list := AgentListLines(agents);
      && |b| == 6 + |list|
      && b[2] == CountLine(|agents|)
      && forall k :: 0 <= k < |list| ==> b[4 + k] == list[k]
  {
    var h, list, f := BatchHead(|agents|), AgentListLines(agents), BatchFoot();
    assert |h| == 4 && |f| == 2 && h[2] == CountLine(|agents|);
    assert BatchRemovedLines(agents) == h + list + f;
  }
}
