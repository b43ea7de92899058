/**
 * The pure parts of the translation service: the Server-Sent Events
 * serialiser, the checks `publish_to_notion` makes before it calls the
 * publisher, and the rule that carries 500 characters of context from one
 * chunk of a streamed translation to the next.
 *
 * The JSON encoder of the event data and the Notion publisher are
 * parameters.
 */
module TranslationService {
  import opened Opt
  import opened Text
  import Json
  import opened TaskStore
  import Worker

  // ---------------------------------------------------------------------
  // Server-Sent Events.

  /** `SSEEvent`: every field optional. */
  datatype SseEvent = SseEvent(event: Option<string>, data: Option<Json.Value>, id: Option<string>, retry: Option<int>)

  const IdTag := "id: "
  const EventTag := "event: "
  const RetryTag := "retry: "
  const DataTag := "data: "

  /** The retry line is written only for a non-zero value. */
  function RetryText(retry: Option<int>): (r: Option<string>)
    ensures r.Some? <==> retry.Some? && retry.value != 0
  {
    if retry.Some? && retry.value != 0 then Some(IntToString(retry.value)) else None
  }

  /** The data line is written whenever data is present, even when empty. */
  function DataText(data: Option<Json.Value>, dumps: Json.Value -> string): (r: Option<string>)
    ensures r.Some? <==> data.Some?
  {
    if data.Some? then Some(dumps(data.value)) else None
  }

  function Line(tag: string, value: Option<string>): (r: seq<string>)
    ensures |r| <= 1
    ensures r != [] <==> value.Some?
  {
    if value.Some? then [tag + value.value] else []
  }

  /** One line per present value, `tag + value`, in the order of the tags. */
  function TaggedLines(tags: seq<string>, vals: seq<Option<string>>): (r: seq<string>)
    requires |tags| == |vals|
    ensures |r| <= |tags|
  {
    if tags == [] then [] else Line(tags[0], vals[0]) + TaggedLines(tags[1..], vals[1..])
  }

  /** Non-empty tags that start with pairwise different characters, so that
      no line carrying one tag starts with another. */
  predicate DistinctLeads(tags: seq<string>) {
    (forall i :: 0 <= i < |tags| ==> tags[i] != "")
    && (forall i, j :: 0 <= i < j < |tags| ==> tags[i][0] != tags[j][0])
  }

  const Tags: seq<string> := [IdTag, EventTag, RetryTag, DataTag]

  /** What each field contributes: the id and event when truthy, the retry
      when non-zero, the encoded data when present. */
  function FieldValues(ev: SseEvent, dumps: Json.Value -> string): (r: seq<Option<string>>)
    ensures |r| == 4
    ensures r[0] == Given(ev.id) && r[1] == Given(ev.event)
    ensures r[2].Some? <==> ev.retry.Some? && ev.retry.value != 0
    ensures r[3].Some? <==> ev.data.Some?
  {
    [Given(ev.id), Given(ev.event), RetryText(ev.retry), DataText(ev.data, dumps)]
  }

  /** The field lines, in the order id, event, retry, data. */
  function EventLines(ev: SseEvent, dumps: Json.Value -> string): (r: seq<string>)
    ensures |r| <= 4
    ensures r == [] <==> !Truthy(ev.id) && !Truthy(ev.event)
                         && (ev.retry.None? || ev.retry.value == 0) && ev.data.None?
  {
    var vals := FieldValues(ev, dumps);
    var r := TaggedLines(Tags, vals);
    assert r == Line(IdTag, vals[0]) + Line(EventTag, vals[1])
              + Line(RetryTag, vals[2]) + Line(DataTag, vals[3]) by {
      var t1, v1 := Tags[1..], vals[1..];
      var t2, v2 := t1[1..], v1[1..];
      var t3, v3 := t2[1..], v2[1..];
      assert t3 == [DataTag] && v3 == [vals[3]];
      assert TaggedLines(t3, v3) == Line(DataTag, vals[3]) + TaggedLines([], []);
      assert TaggedLines(t2, v2) == Line(RetryTag, vals[2]) + TaggedLines(t3, v3);
      assert TaggedLines(t1, v1) == Line(EventTag, vals[1]) + TaggedLines(t2, v2);
    }
    r
  }

  /** `SSEEvent.to_string`: the field lines and an empty line, joined by
      newlines, plus a final newline. */
  function ToText(ev: SseEvent, dumps: Json.Value -> string): (r: string)
    ensures EventLines(ev, dumps) == [] ==> r == "\n"
    ensures EventLines(ev, dumps) != [] ==> r == Join("\n", EventLines(ev, dumps)) + "\n\n"
    ensures r == Join("\n", EventLines(ev, dumps) + ["", ""])
  {
    var lines := EventLines(ev, dumps);
    JoinSnoc("\n", lines, "");
    JoinSnoc("\n", lines + [""], "");
    assert lines + [""] + [""] == lines + ["", ""];
    assert Join("\n", lines + [""]) + "\n" + "" == Join("\n", lines + [""]) + "\n";
    Join("\n", lines + [""]) + "\n"
  }

  /** A line written for one tag is never read as another. */
  lemma FirstCharDiffers(a: string, b: string, v: string)
    requires a != "" && b != "" && a[0] != b[0]
    ensures !StartsWith(a + v, b)
  {
    assert (a + v)[0] == a[0];
    if |b| <= |a + v| {
      assert (a + v)[..|b|][0] == a[0];
    }
  }

  lemma DistinctLeadsTail(tags: seq<string>)
    requires DistinctLeads(tags) && tags != []
    ensures DistinctLeads(tags[1..])
  {
    forall i, j | 0 <= i < j < |tags[1..]| ensures tags[1..][i][0] != tags[1..][j][0] {
      assert tags[1..][i] == tags[i + 1] && tags[1..][j] == tags[j + 1];
    }
  }

  /** A tag whose first character no listed tag shares is not found. */
  lemma {:induction false} UnlistedTag(tags: seq<string>, vals: seq<Option<string>>, probe: string, z: seq<string>)
    requires |tags| == |vals| && DistinctLeads(tags) && probe != ""
    requires forall i :: 0 <= i < |tags| ==> tags[i][0] != probe[0]
    requires LabelValue(z, probe).None?
    ensures LabelValue(TaggedLines(tags, vals) + z, probe).None?
  {
    if tags != [] {
      DistinctLeadsTail(tags);
      var rest := TaggedLines(tags[1..], vals[1..]);
      forall i | 0 <= i < |tags[1..]| ensures tags[1..][i][0] != probe[0] {
        assert tags[1..][i] == tags[i + 1];
      }
      UnlistedTag(tags[1..], vals[1..], probe, z);
      if vals[0].Some? {
        FirstCharDiffers(tags[0], probe, vals[0].value);
        LabelValueSkip(tags[0] + vals[0].value, probe, rest + z);
        assert TaggedLines(tags, vals) + z == [tags[0] + vals[0].value] + (rest + z);
      } else {
        assert TaggedLines(tags, vals) + z == rest + z;
      }
    } else {
      assert TaggedLines(tags, vals) + z == z;
    }
  }

  /** Each tag reads back the value written under it, or nothing when the
      value was left out. */
  lemma {:induction false} ReadTagged(tags: seq<string>, vals: seq<Option<string>>, j: nat, z: seq<string>)
    requires |tags| == |vals| && DistinctLeads(tags) && j < |tags|
    requires LabelValue(z, tags[j]).None?
    ensures LabelValue(TaggedLines(tags, vals) + z, tags[j]) == vals[j]
  {
    DistinctLeadsTail(tags);
    var rest := TaggedLines(tags[1..], vals[1..]);
    if vals[0].Some? {
      assert TaggedLines(tags, vals) + z == [tags[0] + vals[0].value] + (rest + z);
    } else {
      assert TaggedLines(tags, vals) + z == rest + z;
    }
    if j == 0 {
      if vals[0].Some? {
        LabelValueCons(tags[0] + vals[0].value, tags[0], vals[0].value, rest + z);
      } else {
        forall i | 0 <= i < |tags[1..]| ensures tags[1..][i][0] != tags[0][0] {
          assert tags[1..][i] == tags[i + 1];
        }
        UnlistedTag(tags[1..], vals[1..], tags[0], z);
      }
    } else {
      assert tags[1..][j - 1] == tags[j];
      ReadTagged(tags[1..], vals[1..], j - 1, z);
      if vals[0].Some? {
        FirstCharDiffers(tags[0], tags[j], vals[0].value);
        LabelValueSkip(tags[0] + vals[0].value, tags[j], rest + z);
      }
    }
  }

  /** No line contains `c` when no tag and no present value does. */
  lemma {:induction false} TaggedLinesAvoid(tags: seq<string>, vals: seq<Option<string>>, c: char)
    requires |tags| == |vals|
    requires forall i :: 0 <= i < |tags| ==> c !in tags[i]
    requires forall i :: 0 <= i < |vals| && vals[i].Some? ==> c !in vals[i].value
    ensures forall k :: 0 <= k < |TaggedLines(tags, vals)| ==> c !in TaggedLines(tags, vals)[k]
  {
    if tags != [] {
      var rest := TaggedLines(tags[1..], vals[1..]);
      forall i | 0 <= i < |vals[1..]| && vals[1..][i].Some? ensures c !in vals[1..][i].value {
        assert vals[1..][i] == vals[i + 1];
      }
      forall i | 0 <= i < |tags[1..]| ensures c !in tags[1..][i] {
        assert tags[1..][i] == tags[i + 1];
      }
      TaggedLinesAvoid(tags[1..], vals[1..], c);
      if vals[0].Some? {
        assert c !in tags[0] + vals[0].value;
      }
    }
  }

  /** A client that splits the event text into lines and reads each field
      by its name gets back exactly the fields that were written, followed
      by the blank line that ends the event (section 9.2.5 of the WHATWG
      HTML Living Standard), provided no written value spans lines. */
  lemma EventReadBack(ev: SseEvent, dumps: Json.Value -> string)
    requires ev.id.Some? ==> '\n' !in ev.id.value
    requires ev.event.Some? ==> '\n' !in ev.event.value
    requires ev.data.Some? ==> '\n' !in dumps(ev.data.value)
    ensures var lines := SplitOn(ToText(ev, dumps), '\n');
      && lines == EventLines(ev, dumps) + ["", ""]
      && LabelValue(lines, IdTag) == Given(ev.id)
      && LabelValue(lines, EventTag) == Given(ev.event)
      && LabelValue(lines, RetryTag) == RetryText(ev.retry)
      && LabelValue(lines, DataTag) == DataText(ev.data, dumps)
  {
    var vals := FieldValues(ev, dumps);
    var z := ["", ""];
    var lines := EventLines(ev, dumps);
    assert DistinctLeads(Tags) by {
      assert Tags[0][0] == 'i' && Tags[1][0] == 'e' && Tags[2][0] == 'r' && Tags[3][0] == 'd';
    }
    assert forall i :: 0 <= i < |vals| && vals[i].Some? ==> '\n' !in vals[i].value;
    TaggedLinesAvoid(Tags, vals, '\n');
    SplitOfJoin(lines + z, '\n');
    forall j | 0 <= j < 4 ensures LabelValue(lines + z, Tags[j]) == vals[j] {
      LabelValueSkip("", Tags[j], [""]);
      LabelValueSkip("", Tags[j], []);
      assert z == [""] + [""];
      assert [""] == [""] + [];
      ReadTagged(Tags, vals, j, z);
    }
  }

  // ---------------------------------------------------------------------
  // Publishing a finished task to Notion.

  const NoApiKeyMessage := "Notion API key not configured"
  const NoParentPageMessage := "Notion parent page ID not configured"
  const DefaultPageTitle := "翻译结果"

  function NotFoundMessage(id: Id): string {
    "Task '" + id + "' not found or expired"
  }

  function NotCompletedMessage(st: Status): string {
    "Task not completed. Current status: " + StatusValue(st)
  }

  /** What is handed to the publisher. */
  datatype PublishRequest = PublishRequest(
    apiKey: string, parentPageId: string, title: string,
    content: string, sourceUrl: Option<string>, domain: string)

  /** The publisher's answer. */
  datatype PublishOutcome = Published(pageUrl: string, pageId: string) | PublishFailed(error: string)

  /** Either a refusal with its message, or the request to publish. */
  datatype Plan = Refuse(message: string) | Send(request: PublishRequest)

  /** The plan and the store after the lookup (which drops an expired task). */
  datatype Prepared = Prepared(store: Store, plan: Plan)

  /** `title or task.title or "翻译结果"`. */
  function PageTitle(title: Option<string>, taskTitle: Option<string>): (r: string)
    ensures r != ""
    ensures Truthy(title) ==> r == title.value
    ensures !Truthy(title) && Truthy(taskTitle) ==> r == taskTitle.value
    ensures !Truthy(title) && !Truthy(taskTitle) ==> r == DefaultPageTitle
  {
    if Truthy(title) then title.value
    else if Truthy(taskTitle) then taskTitle.value
    else DefaultPageTitle
  }

  /** The checks of `publish_to_notion`, in order: the API key, the parent
      page, the task's presence, its completion. */
  function PreparePublish(apiKey: string, parentPageId: string, s: Store, id: Id,
                          title: Option<string>, now: int): (r: Prepared)
    requires Valid(s)
    ensures Valid(r.store)
    ensures apiKey == "" ==> r == Prepared(s, Refuse(NoApiKeyMessage))
    ensures apiKey != "" && parentPageId == "" ==> r == Prepared(s, Refuse(NoParentPageMessage))
    ensures apiKey != "" && parentPageId != "" ==> r.store == GetTask(s, id, now).store
    ensures apiKey != "" && parentPageId != "" && GetTask(s, id, now).task.None? ==>
              r.plan == Refuse(NotFoundMessage(id))
    ensures r.plan.Send? <==> (apiKey != "" && parentPageId != "" && id in s.tasks
                               && !IsExpired(s, s.tasks[id], now) && s.tasks[id].status == Completed)
    ensures r.plan.Send? ==> r.plan.request == PublishRequest(
              apiKey, parentPageId, PageTitle(title, s.tasks[id].title),
              PartialResult(s.tasks[id]), s.tasks[id].sourceUrl, s.tasks[id].domain)
  {
    if apiKey == "" then Prepared(s, Refuse(NoApiKeyMessage))
    else if parentPageId == "" then Prepared(s, Refuse(NoParentPageMessage))
    else
      var look := GetTask(s, id, now);
      match look.task
      case None => Prepared(look.store, Refuse(NotFoundMessage(id)))
      case Some(t) =>
        if t.status != Completed then Prepared(look.store, Refuse(NotCompletedMessage(t.status)))
        else Prepared(look.store, Send(PublishRequest(apiKey, parentPageId, PageTitle(title, t.title),
                                                       PartialResult(t), t.sourceUrl, t.domain)))
  }

  /** The answer of `publish_to_notion`. */
  datatype SyncResult = Synced(pageUrl: string, pageId: string) | NotSynced(error: string)

  function PublishToNotion(apiKey: string, parentPageId: string, s: Store, id: Id,
                           title: Option<string>, now: int,
                           publish: PublishRequest -> PublishOutcome): (r: (Store, SyncResult))
    requires Valid(s)
    ensures Valid(r.0)
    ensures r.1.Synced? <==> (PreparePublish(apiKey, parentPageId, s, id, title, now).plan.Send?
              && publish(PreparePublish(apiKey, parentPageId, s, id, title, now).plan.request).Published?)
  {
    var p := PreparePublish(apiKey, parentPageId, s, id, title, now);
    match p.plan
    case Refuse(msg) => (p.store, NotSynced(msg))
    case Send(req) =>
      match publish(req)
      case Published(url, pageId) => (p.store, Synced(url, pageId))
      case PublishFailed(e) => (p.store, NotSynced(e))
  }

  /** The publisher is called only for a completed task, and then with the
      whole translation; a task still being translated is refused with its
      status and left in the store. */
  lemma PublishOnlyCompleted(apiKey: string, parentPageId: string, s: Store, id: Id,
                             title: Option<string>, now: int)
    requires Valid(s) && apiKey != "" && parentPageId != ""
    requires id in s.tasks && !IsExpired(s, s.tasks[id], now)
    ensures var p := PreparePublish(apiKey, parentPageId, s, id, title, now);
      && p.store == s
      && (s.tasks[id].status != Completed ==> p.plan == Refuse(NotCompletedMessage(s.tasks[id].status)))
      && (s.tasks[id].status == Completed ==> p.plan.Send? && p.plan.request.content == Join("\n\n", s.tasks[id].translated))
  {
  }

  // ---------------------------------------------------------------------
  // Context between streamed chunks.

  /** `full[-500:] if len(full) > 500 else full`. */
  function StreamContext(full: string): (r: string)
    ensures |r| <= Worker.ContextChars && |r| <= |full|
    ensures r == full[|full| - |r|..]
    ensures |full| <= Worker.ContextChars ==> r == full
  {
    if |full| > 500 then full[|full| - 500..] else full
  }

  /** The stream's rule is the worker's `Tail` at the same width. */
  lemma StreamContextIsTail(full: string)
    ensures StreamContext(full) == Tail(full, Worker.ContextChars)
  {
  }

  /** The context each chunk of the stream is translated with: "" for the
      first, then the tail of the previous chunk's full translation. The
      background worker uses the same rule. */
  method ChunkContexts(fulls: seq<string>) returns (contexts: seq<string>)
    ensures |contexts| == |fulls|
    ensures forall i :: 0 <= i < |fulls| ==> contexts[i] == Worker.ContextAt(fulls, i)
  {
    var context := "";
    contexts := [];
    for i := 0 to |fulls|
      invariant |contexts| == i
      invariant forall k :: 0 <= k < i ==> contexts[k] == Worker.ContextAt(fulls, k)
      invariant context == Worker.ContextAt(fulls, i)
    {
      contexts := contexts + [context];
      StreamContextIsTail(fulls[i]);
      assert Worker.ContextAt(fulls, i + 1) == Tail(fulls[i], Worker.ContextChars);
      context := StreamContext(fulls[i]);
    }
  }
}
