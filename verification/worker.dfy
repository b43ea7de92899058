/**
 * The background worker: a FIFO queue of jobs, the set of ids still pending
 * (which makes cancellation and skip-on-dequeue work), and one step per
 * dequeued job that prepares the task (URL fetch, chunking) and translates
 * its chunks in index order, each with a bounded retry.
 *
 * Threads, the event loop and sleeping are plumbing. The fetcher and the
 * translator are oracles carried in `Env`; the translator is asked with the
 * attempt number so that a retry may answer differently. Sleeps are returned
 * as the list of delays they would wait. One call of `WorkerStep` is one
 * iteration of the worker loop, at one instant `now`.
 */
module Worker {
  import opened Opt
  import opened Text
  import opened TaskStore
  import Chunking

  const MaxRetryCount: nat := 3
  /** Characters of the previous translation handed on as context. */
  const ContextChars: nat := 500

  const NotRunningMessage := "BackgroundTaskManager is not running"
  const CancelMessage := "Task cancelled by user"
  const FetchFailedPrefix := "URL 获取失败: "
  const EmptyContentMessage := "内容为空（URL 获取返回空内容）"
  const AllRetriesFailedMessage := "Translation failed after all retries"

  /** A queued `BackgroundTask`; the languages are not used by execution. */
  datatype Job = Job(id: Id, content: string, url: string, title: Option<string>,
                     sourceUrl: Option<string>, domain: string, syncToNotion: bool)

  datatype Manager = Manager(store: Store, queue: seq<Job>, pending: set<Id>,
                             running: bool, stopRequested: bool)

  datatype FetchResult = FetchResult(success: bool, content: string, title: Option<string>, error: string)

  /** What one translator call is given. */
  datatype ChunkRequest = ChunkRequest(text: string, chunkNumber: nat, totalChunks: nat,
                                       context: string, domain: string)

  /** A translator call returns a text or raises an error with a message. */
  datatype Outcome = Success(text: string) | Failure(message: string)

  datatype Env = Env(fetch: string -> FetchResult,
                     translate: (ChunkRequest, nat) -> Outcome,
                     chunking: Chunking.Config)

  /** The chunker's budget must be positive for its character slicer to terminate. */
  predicate EnvOk(env: Env) {
    env.chunking.maxTokens >= 1
  }

  // ---------------------------------------------------------------------
  // Retry with exponential backoff.

  /** `_get_retry_delay`: 2 to the power of the attempt number, in seconds. */
  function RetryDelay(k: nat): nat {
    if k == 0 then 1 else 2 * RetryDelay(k - 1)
  }

  /** The delays are 1, 2 and 4 seconds for the three attempts. */
  lemma RetryDelays()
    ensures RetryDelay(0) == 1 && RetryDelay(1) == 2 && RetryDelay(2) == 4
  {
  }

  /** The delay is a power of two: it turns sums of attempt numbers into products. */
  lemma {:induction false} RetryDelayAdds(a: nat, b: nat)
    ensures RetryDelay(a + b) == RetryDelay(a) * RetryDelay(b)
    decreases a
  {
    if a > 0 {
      RetryDelayAdds(a - 1, b);
      assert RetryDelay(a + b) == 2 * RetryDelay(a - 1 + b);
    }
  }

  /** The sleeps taken after the first `n` failed attempts. */
  function Backoff(n: nat): seq<nat> {
    seq(n, i requires 0 <= i < n => RetryDelay(i))
  }

  datatype Retried = Retried(outcome: Outcome, calls: nat, sleeps: seq<nat>)

  /** Reference definition: the attempts from number `k` on, once the earlier
      ones have failed. The last attempt fails without sleeping. */
  function AttemptsFrom(env: Env, req: ChunkRequest, k: nat): Retried
    requires k < MaxRetryCount
    decreases MaxRetryCount - k
  {
    match env.translate(req, k)
    case Success(t) => Retried(Success(t), k + 1, Backoff(k))
    case Failure(e) =>
      if k == MaxRetryCount - 1 then Retried(Failure(e), MaxRetryCount, Backoff(k))
      else AttemptsFrom(env, req, k + 1)
  }

  function Attempts(env: Env, req: ChunkRequest): Retried {
    AttemptsFrom(env, req, 0)
  }

  /** Whether any of the three attempts succeeds. */
  predicate SomeAttemptSucceeds(env: Env, req: ChunkRequest) {
    exists k :: 0 <= k < MaxRetryCount && env.translate(req, k).Success?
  }

  /** At most three calls; the first success is returned; one sleep between
      consecutive attempts and none after the last; when every attempt fails,
      the last error is the outcome. */
  lemma {:induction false} AttemptsFromFacts(env: Env, req: ChunkRequest, k: nat)
    requires k < MaxRetryCount
    requires forall j :: 0 <= j < k ==> env.translate(req, j).Failure?
    ensures var r := AttemptsFrom(env, req, k);
      && k < r.calls <= MaxRetryCount
      && r.sleeps == Backoff(r.calls - 1)
      && (forall j :: 0 <= j < r.calls - 1 ==> env.translate(req, j).Failure?)
      && (r.outcome.Success? ==> r.outcome == env.translate(req, r.calls - 1))
      && (r.outcome.Failure? ==>
            r.calls == MaxRetryCount && r.outcome == env.translate(req, MaxRetryCount - 1))
      && (r.outcome.Success? <==> SomeAttemptSucceeds(env, req))
    decreases MaxRetryCount - k
  {
    var r := AttemptsFrom(env, req, k);
    if env.translate(req, k).Failure? && k < MaxRetryCount - 1 {
      AttemptsFromFacts(env, req, k + 1);
    } else if env.translate(req, k).Failure? {
      assert forall j :: 0 <= j < MaxRetryCount ==> env.translate(req, j).Failure?;
    }
  }

  lemma AttemptsFacts(env: Env, req: ChunkRequest)
    ensures var r := Attempts(env, req);
      && 1 <= r.calls <= MaxRetryCount
      && r.sleeps == Backoff(r.calls - 1)
      && (forall j :: 0 <= j < r.calls - 1 ==> env.translate(req, j).Failure?)
      && (r.outcome.Success? ==> r.outcome == env.translate(req, r.calls - 1))
      && (r.outcome.Failure? ==>
            r.calls == MaxRetryCount && r.outcome == env.translate(req, MaxRetryCount - 1))
      && (r.outcome.Success? <==> SomeAttemptSucceeds(env, req))
  {
    AttemptsFromFacts(env, req, 0);
  }

  /** `_execute_chunk_with_retry`, loop and all. */
  method ExecuteChunkWithRetry(env: Env, req: ChunkRequest) returns (outcome: Outcome, calls: nat, sleeps: seq<nat>)
    ensures Retried(outcome, calls, sleeps) == Attempts(env, req)
    ensures 1 <= calls <= MaxRetryCount && |sleeps| == calls - 1
    ensures outcome.Success? <==> SomeAttemptSucceeds(env, req)
  {
    AttemptsFacts(env, req);
    var retry: nat := 0;
    var lastError: Option<string> := None;
    calls, sleeps := 0, [];
    while retry < MaxRetryCount
      invariant retry <= MaxRetryCount && calls == retry
      invariant sleeps == Backoff(if retry < MaxRetryCount then retry else MaxRetryCount - 1)
      invariant forall j :: 0 <= j < retry ==> env.translate(req, j).Failure?
      invariant retry > 0 ==> lastError == Some(env.translate(req, retry - 1).message)
      invariant retry < MaxRetryCount ==> Attempts(env, req) == AttemptsFrom(env, req, retry)
    {
      var o := env.translate(req, retry);
      calls := calls + 1;
      if o.Success? {
        outcome := o;
        return;
      }
      lastError := Some(o.message);
      if retry < MaxRetryCount - 1 {
        sleeps := sleeps + [RetryDelay(retry)];
        assert sleeps == Backoff(retry + 1);
      }
      retry := retry + 1;
    }
    outcome := Failure(lastError.GetOr(AllRetriesFailedMessage));
  }

  // ---------------------------------------------------------------------
  // Submission, retry and cancellation.

  /** The job went to the back of the queue and its id into the pending set. */
  predicate Enqueued(m: Manager, m': Manager, job: Job) {
    m'.queue == m.queue + [job] && m'.pending == m.pending + {job.id} &&
    m'.running == m.running && m'.stopRequested == m.stopRequested
  }

  /** Python's `source_url or url`. */
  function SourceOrUrl(sourceUrl: Option<string>, url: string): Option<string> {
    if Truthy(sourceUrl) then sourceUrl else Some(url)
  }

  datatype Submitted = Submitted(manager: Manager, id: Id) | NotRunning(message: string)

  /** `submit_task_fast`: the fresh uuid is the parameter `id`. */
  function SubmitTaskFast(m: Manager, id: Id, content: string, url: string, title: Option<string>,
                          sourceUrl: Option<string>, domain: string, syncToNotion: bool,
                          now: int): (r: Submitted)
    requires Valid(m.store)
    ensures r.NotRunning? <==> !m.running
    ensures r.NotRunning? ==> r.message == NotRunningMessage
    ensures r.Submitted? ==> r.id == id && Valid(r.manager.store) && id in r.manager.store.tasks
    ensures r.Submitted? ==>
      var t := r.manager.store.tasks[id];
      && Enqueued(m, r.manager, Job(id, content, url, title, SourceOrUrl(sourceUrl, url), domain, syncToNotion))
      && t.status == Pending && t.chunks == [] && t.translated == [] && t.createdAt == now
      && t.originalContent == content && t.url == url && t.title == title && t.domain == domain
      && t.sourceUrl == (if Truthy(sourceUrl) then sourceUrl else Some(url))
      && (forall other :: other in r.manager.store.tasks && other != id ==>
            other in m.store.tasks && r.manager.store.tasks[other] == m.store.tasks[other])
  {
    if !m.running then NotRunning(NotRunningMessage)
    else
      var src := SourceOrUrl(sourceUrl, url);
      var store := CreateTaskPending(m.store, id, content, url, title, src, domain, now);
      var job := Job(id, content, url, title, src, domain, syncToNotion);
      Submitted(m.(store := store, queue := m.queue + [job], pending := m.pending + {id}), id)
  }

  datatype Answer = Answer(manager: Manager, ok: bool)

  /** The record `retry_task` resets in place. */
  function ResetForRetry(t: Task, now: int): Task {
    t.(status := Pending, error := None, translated := [], currentChunk := 0, updatedAt := now)
  }

  /** `retry_task`: only a live FAILED task is reset and re-queued; the new job
      carries the original content but neither the url nor the Notion flag. */
  function RetryTask(m: Manager, id: Id, now: int): (r: Answer)
    requires Valid(m.store)
    ensures Valid(r.manager.store)
    ensures r.ok <==> id in m.store.tasks && !IsExpired(m.store, m.store.tasks[id], now)
                      && m.store.tasks[id].status == Failed
    ensures !r.ok ==> r.manager == m.(store := GetTask(m.store, id, now).store)
    ensures r.ok ==>
      var t := m.store.tasks[id];
      && r.manager.store.tasks == m.store.tasks[id := ResetForRetry(t, now)]
      && r.manager.store.order == m.store.order
      && Enqueued(m, r.manager, Job(id, t.originalContent, "", t.title, t.sourceUrl, t.domain, false))
  {
    var lk := GetTask(m.store, id, now);
    if lk.task.None? || lk.task.value.status != Failed then Answer(m.(store := lk.store), false)
    else
      var t := lk.task.value;
      var job := Job(id, t.originalContent, "", t.title, t.sourceUrl, t.domain, false);
      Answer(m.(store := Replace(lk.store, id, ResetForRetry(t, now)),
                queue := m.queue + [job], pending := m.pending + {id}), true)
  }

  /** `retry_task` with the task's url carried into the job, so that a URL
      task whose fetch failed is fetched again instead of failing on its
      empty content. Otherwise as `RetryTask`. */
  function RetryTaskRefetching(m: Manager, id: Id, now: int): (r: Answer)
    requires Valid(m.store)
    ensures Valid(r.manager.store)
    ensures r.ok <==> id in m.store.tasks && !IsExpired(m.store, m.store.tasks[id], now)
                      && m.store.tasks[id].status == Failed
    ensures !r.ok ==> r.manager == m.(store := GetTask(m.store, id, now).store)
    ensures r.ok ==>
      var t := m.store.tasks[id];
      && r.manager.store.tasks == m.store.tasks[id := ResetForRetry(t, now)]
      && r.manager.store.order == m.store.order
      && Enqueued(m, r.manager, Job(id, t.originalContent, t.url, t.title, t.sourceUrl, t.domain, false))
  {
    var lk := GetTask(m.store, id, now);
    if lk.task.None? || lk.task.value.status != Failed then Answer(m.(store := lk.store), false)
    else
      var t := lk.task.value;
      var job := Job(id, t.originalContent, t.url, t.title, t.sourceUrl, t.domain, false);
      Answer(m.(store := Replace(lk.store, id, ResetForRetry(t, now)),
                queue := m.queue + [job], pending := m.pending + {id}), true)
  }

  /** `cancel_task`: the id always leaves the pending set; the task is failed
      only when it is live and still PENDING. */
  function CancelTask(m: Manager, id: Id, now: int): (r: Answer)
    requires Valid(m.store)
    ensures Valid(r.manager.store)
    ensures r.ok <==> id in m.pending && id in m.store.tasks
                      && !IsExpired(m.store, m.store.tasks[id], now)
                      && m.store.tasks[id].status == Pending
    ensures r.manager.pending == m.pending - {id}
    ensures r.manager.queue == m.queue
    ensures r.manager.running == m.running && r.manager.stopRequested == m.stopRequested
    ensures id !in m.pending ==> r.manager == m
    ensures r.ok ==>
      r.manager.store.tasks == m.store.tasks[id := m.store.tasks[id].(
        status := Failed, error := Some(CancelMessage), updatedAt := now)]
    ensures id in m.pending && !r.ok ==> r.manager.store == GetTask(m.store, id, now).store
  {
    if id !in m.pending then Answer(m, false)
    else
      var m1 := m.(pending := m.pending - {id});
      var lk := GetTask(m.store, id, now);
      if lk.task.Some? && lk.task.value.status == Pending then
        Answer(m1.(store := MarkFailed(lk.store, id, CancelMessage, now).store), true)
      else Answer(m1.(store := lk.store), false)
  }

  // ---------------------------------------------------------------------
  // Executing one job.

  /** `_split_content_to_chunks`: the text itself when it fits the budget. */
  function SplitContent(cfg: Chunking.Config, content: string): (r: seq<string>)
    requires cfg.maxTokens >= 1
    ensures r == Chunking.SplitBySemantic(cfg, content)
  {
    if Chunking.NeedsChunking(cfg, content) then Chunking.SplitBySemantic(cfg, content) else [content]
  }

  datatype Resolved = Unresolved(message: string) | Resolved(content: string, title: Option<string>)

  /** The content to translate: the job's own, or the fetched page when the job
      has a url and no content; a failed fetch or empty content is an error. */
  function Resolve(job: Job, env: Env): (r: Resolved)
    ensures job.content != "" ==> r == Resolved(job.content, job.title)
    ensures job.content == "" && job.url == "" ==> r == Unresolved(EmptyContentMessage)
    ensures job.content == "" && job.url != "" && !env.fetch(job.url).success ==>
              r == Unresolved(FetchFailedPrefix + env.fetch(job.url).error)
    ensures r.Resolved? ==> r.content != "" && (Truthy(job.title) ==> r.title == job.title)
  {
    if job.url != "" && job.content == "" then
      var f := env.fetch(job.url);
      if !f.success then Unresolved(FetchFailedPrefix + f.error)
      else if f.content == "" then Unresolved(EmptyContentMessage)
      else Resolved(f.content, if !Truthy(job.title) && Truthy(f.title) then f.title else job.title)
    else if job.content == "" then Unresolved(EmptyContentMessage)
    else Resolved(job.content, job.title)
  }

  datatype Execution = Execution(store: Store, requests: seq<ChunkRequest>)

  /** The context handed with chunk `i`: the tail of the previous translation. */
  function ContextAt(translated: seq<string>, i: nat): string {
    if i == 0 || i > |translated| then "" else Tail(translated[i - 1], ContextChars)
  }

  /** The message a task fails with when chunk `number` (1-based) fails. */
  function ChunkFailure(number: nat, error: string): string {
    "Chunk " + IntToString(number) + " failed: " + error
  }

  /** Each chunk is translated by `_execute_chunk_with_retry`. */
  function Runner(env: Env): ChunkRequest -> Outcome {
    req => Attempts(env, req).outcome
  }

  /** The translation loop from chunk `i` on, with `context` for chunk `i`. */
  function TranslateFrom(s: Store, id: Id, chunks: seq<string>, i: nat, context: string,
                         domain: string, run: ChunkRequest -> Outcome, now: int): (r: Execution)
    requires Valid(s) && i <= |chunks|
    ensures Valid(r.store)
    ensures |r.requests| <= |chunks| - i
    decreases |chunks| - i
  {
    if i == |chunks| then Execution(MarkCompleted(s, id, now).store, [])
    else
      var req := ChunkRequest(chunks[i], i + 1, |chunks|, context, domain);
      match run(req)
      case Success(t) =>
        var rest := TranslateFrom(UpdateProgress(s, id, t, 0, 0, now).store, id, chunks, i + 1,
                                  Tail(t, ContextChars), domain, run, now);
        Execution(rest.store, [req] + rest.requests)
      case Failure(e) => Execution(MarkFailed(s, id, ChunkFailure(i + 1, e), now).store, [req])
  }

  /** `_translate_chunks`: resumes after the already-translated prefix. */
  function TranslateChunks(s: Store, id: Id, t: Task, domain: string, run: ChunkRequest -> Outcome, now: int): (r: Execution)
    requires Valid(s)
    ensures Valid(r.store)
  {
    var j := Min(|t.translated|, |t.chunks|);
    TranslateFrom(s, id, t.chunks, j, ContextAt(t.translated, j), domain, run, now)
  }

  /** Preparation's two store updates: PREPARING first, then the resolved
      content, its chunks and the title recorded and IN_PROGRESS. */
  function Prepare(s: Store, id: Id, content: string, chunks: seq<string>, title: Option<string>,
                   now: int): (r: Store)
    requires Valid(s)
    ensures Valid(r)
  {
    UpdateTaskPrepared(SetTaskStatus(s, id, Preparing, None, now).store, id, content, chunks, title, now).store
  }

  /** `_execute_task`: PREPARING, then content resolution and chunking, then
      the translation loop on the refreshed record. */
  function ExecuteTask(s: Store, job: Job, env: Env, now: int): (r: Execution)
    requires Valid(s) && EnvOk(env)
    ensures Valid(r.store)
  {
    var lk := GetTask(s, job.id, now);
    if lk.task.None? then Execution(lk.store, [])
    else
      match Resolve(job, env)
      case Unresolved(msg) =>
        var s1 := SetTaskStatus(lk.store, job.id, Preparing, None, now).store;
        Execution(MarkFailed(s1, job.id, msg, now).store, [])
      case Resolved(content, title) =>
        var s2 := Prepare(lk.store, job.id, content, SplitContent(env.chunking, content), title, now);
        var lk2 := GetTask(s2, job.id, now);
        if lk2.task.None? then Execution(lk2.store, [])
        else TranslateChunks(lk2.store, job.id, lk2.task.value, job.domain, Runner(env), now)
  }

  // ---------------------------------------------------------------------
  // One iteration of the worker loop.

  datatype StepKind = Exited | Idle | Stopped | Skipped | Executed

  datatype Step = Step(kind: StepKind, manager: Manager, requests: seq<ChunkRequest>)

  /** `_worker_loop`, one iteration: exit once stopped and drained, wait on an
      empty queue, re-queue and stop on shutdown, skip a job no longer
      pending, otherwise unmark and execute it. */
  function WorkerStep(m: Manager, env: Env, now: int): (r: Step)
    requires Valid(m.store) && EnvOk(env)
    ensures Valid(r.manager.store)
    ensures r.kind == Exited <==> !m.running && m.queue == []
    ensures r.kind == Idle <==> m.running && m.queue == []
    ensures m.queue == [] ==> r.manager == m && r.requests == []
    ensures r.kind == Stopped <==> m.queue != [] && m.stopRequested
    ensures r.kind == Skipped <==> m.queue != [] && !m.stopRequested && m.queue[0].id !in m.pending
    ensures r.manager.running == m.running && r.manager.stopRequested == m.stopRequested
    ensures m.queue != [] ==>
      r.manager.queue == (if m.stopRequested then m.queue[1..] + [m.queue[0]] else m.queue[1..])
    ensures r.kind == Stopped || r.kind == Skipped ==>
      r.manager.store == m.store && r.manager.pending == m.pending && r.requests == []
    ensures r.kind == Executed ==>
      var e := ExecuteTask(m.store, m.queue[0], env, now);
      r.manager.pending == m.pending - {m.queue[0].id} &&
      r.manager.store == e.store && r.requests == e.requests
  {
    if m.queue == [] then Step(if m.running then Idle else Exited, m, [])
    else
      var job, rest := m.queue[0], m.queue[1..];
      if m.stopRequested then Step(Stopped, m.(queue := rest + [job]), [])
      else if job.id !in m.pending then Step(Skipped, m.(queue := rest), [])
      else
        var e := ExecuteTask(m.store, job, env, now);
        Step(Executed, m.(queue := rest, pending := m.pending - {job.id}, store := e.store), e.requests)
  }
}

/** Laws of the worker: what a translation run, a job execution and the
    queue operations leave behind. */
module WorkerLaws {
  import opened Opt
  import opened Text
  import opened TaskStore
  import opened Worker

  /** The translation loop ends with the task COMPLETED or FAILED, touches no
      other task, and neither adds nor removes entries. */
  lemma {:induction false} TranslateFromSettles(s: Store, id: Id, chunks: seq<string>, i: nat, context: string,
                                                domain: string, run: ChunkRequest -> Outcome, now: int)
    requires Valid(s) && i <= |chunks| && id in s.tasks
    ensures var r := TranslateFrom(s, id, chunks, i, context, domain, run, now);
      && r.store.tasks.Keys == s.tasks.Keys && r.store.order == s.order
      && (r.store.tasks[id].status == Completed || r.store.tasks[id].status == Failed)
      && r.store.tasks[id].chunks == s.tasks[id].chunks
      && r.store.tasks[id].originalContent == s.tasks[id].originalContent
      && r.store.tasks[id].createdAt == s.tasks[id].createdAt
      && (forall other :: other in s.tasks && other != id ==> r.store.tasks[other] == s.tasks[other])
    decreases |chunks| - i
  {
    if i < |chunks| {
      var req := ChunkRequest(chunks[i], i + 1, |chunks|, context, domain);
      match run(req)
      case Success(t) =>
        TranslateFromSettles(UpdateProgress(s, id, t, 0, 0, now).store, id, chunks, i + 1,
                             Tail(t, ContextChars), domain, run, now);
      case Failure(_) =>
    }
  }

  /** The record after one successful chunk: its translation appended, and
      the context for the next chunk is that translation's tail. */
  lemma SuccessStep(s: Store, id: Id, x: string, i: nat, now: int)
    requires Valid(s) && id in s.tasks && |s.tasks[id].translated| == i
    ensures var s1 := UpdateProgress(s, id, x, 0, 0, now).store;
      && id in s1.tasks
      && s1.tasks[id].translated == s.tasks[id].translated + [x]
      && |s1.tasks[id].translated| == i + 1
      && ContextAt(s1.tasks[id].translated, i + 1) == Tail(x, ContextChars)
  {
  }

  /** What a run from chunk `i` of `n` leaves in the record: the translated
      prefix kept and extended, a terminal status, completion exactly when
      every chunk is translated, and one request per appended translation
      plus one for the chunk that failed, if any. */
  predicate Counted(t: Task, u: Task, i: nat, n: nat, requests: nat) {
    && i <= |u.translated| <= n
    && u.translated[..i] == t.translated
    && (u.status == Completed || u.status == Failed)
    && (u.status == Completed <==> |u.translated| == n)
    && requests == |u.translated| - i + (if u.status == Failed then 1 else 0)
  }

  lemma CountedStep(t: Task, t1: Task, u: Task, x: string, i: nat, n: nat, requests: nat)
    requires |t.translated| == i && t1.translated == t.translated + [x]
    requires Counted(t1, u, i + 1, n, requests)
    ensures Counted(t, u, i, n, requests + 1)
    ensures u.translated[i] == x
  {
    assert u.translated[..i] == u.translated[..i + 1][..i];
    assert u.translated[..i + 1][i] == x;
  }

  /** The run keeps and extends the translated prefix and settles the task. */
  lemma {:induction false} TranslateFromCount(s: Store, id: Id, chunks: seq<string>, i: nat, context: string,
                                              domain: string, run: ChunkRequest -> Outcome, now: int)
    requires Valid(s) && i <= |chunks| && id in s.tasks && |s.tasks[id].translated| == i
    ensures id in TranslateFrom(s, id, chunks, i, context, domain, run, now).store.tasks
    ensures var r := TranslateFrom(s, id, chunks, i, context, domain, run, now);
      Counted(s.tasks[id], r.store.tasks[id], i, |chunks|, |r.requests|)
    decreases |chunks| - i
  {
    var t := s.tasks[id];
    if i < |chunks| {
      var req := ChunkRequest(chunks[i], i + 1, |chunks|, context, domain);
      if run(req).Success? {
        var x := run(req).text;
        var s1 := UpdateProgress(s, id, x, 0, 0, now).store;
        SuccessStep(s, id, x, i, now);
        TranslateFromCount(s1, id, chunks, i + 1, Tail(x, ContextChars), domain, run, now);
        var r1 := TranslateFrom(s1, id, chunks, i + 1, Tail(x, ContextChars), domain, run, now);
        CountedStep(t, s1.tasks[id], r1.store.tasks[id], x, i, |chunks|, |r1.requests|);
        assert TranslateFrom(s, id, chunks, i, context, domain, run, now) == Execution(r1.store, [req] + r1.requests);
      } else {
        CountedFailure(s, id, chunks, i, context, domain, run, now);
      }
    }
  }

  /** A chunk whose retries all fail leaves the prefix as it was. */
  lemma CountedFailure(s: Store, id: Id, chunks: seq<string>, i: nat, context: string,
                       domain: string, run: ChunkRequest -> Outcome, now: int)
    requires Valid(s) && i < |chunks| && id in s.tasks && |s.tasks[id].translated| == i
    requires run(ChunkRequest(chunks[i], i + 1, |chunks|, context, domain)).Failure?
    ensures id in TranslateFrom(s, id, chunks, i, context, domain, run, now).store.tasks
    ensures var r := TranslateFrom(s, id, chunks, i, context, domain, run, now);
      Counted(s.tasks[id], r.store.tasks[id], i, |chunks|, |r.requests|)
  {
    var req := ChunkRequest(chunks[i], i + 1, |chunks|, context, domain);
    var m := MarkFailed(s, id, ChunkFailure(i + 1, run(req).message), now);
    assert TranslateFrom(s, id, chunks, i, context, domain, run, now) == Execution(m.store, [req]);
    assert s.tasks[id].translated[..i] == s.tasks[id].translated;
  }

  /** `req` is the request for chunk `n` (0-based) of `chunks`. */
  predicate RequestFor(req: ChunkRequest, chunks: seq<string>, n: nat, translated: seq<string>, domain: string) {
    n < |chunks| && req == ChunkRequest(chunks[n], n + 1, |chunks|, ContextAt(translated, n), domain)
  }

  /** Request `k` is for chunk `i + k`, with the tail of the translation
      before it as context. */
  predicate InOrder(requests: seq<ChunkRequest>, chunks: seq<string>, i: nat,
                    translated: seq<string>, domain: string) {
    forall k :: 0 <= k < |requests| ==> RequestFor(requests[k], chunks, i + k, translated, domain)
  }

  lemma InOrderCons(req: ChunkRequest, requests: seq<ChunkRequest>, chunks: seq<string>, i: nat,
                    translated: seq<string>, domain: string)
    requires RequestFor(req, chunks, i, translated, domain)
    requires InOrder(requests, chunks, i + 1, translated, domain)
    ensures InOrder([req] + requests, chunks, i, translated, domain)
  {
    var all := [req] + requests;
    assert all[1..] == requests;
    forall k | 0 <= k < |all| ensures RequestFor(all[k], chunks, i + k, translated, domain) {
      if k > 0 {
        assert all[k] == requests[k - 1];
      }
    }
  }

  /** The context of chunk `i` only depends on the first `i` translations. */
  lemma ContextOfPrefix(a: seq<string>, b: seq<string>, i: nat)
    requires i <= |a| && a[..i] == b
    ensures ContextAt(a, i) == ContextAt(b, i)
  {
    if i > 0 {
      assert a[i - 1] == a[..i][i - 1];
    }
  }

  /** Chunks are sent in index order from chunk `i` on, each with the tail of
      the previous translation as context (nothing for the first chunk). */
  lemma {:induction false} TranslateFromOrder(s: Store, id: Id, chunks: seq<string>, i: nat, context: string,
                                              domain: string, run: ChunkRequest -> Outcome, now: int)
    requires Valid(s) && i <= |chunks| && id in s.tasks
    requires |s.tasks[id].translated| == i && context == ContextAt(s.tasks[id].translated, i)
    ensures id in TranslateFrom(s, id, chunks, i, context, domain, run, now).store.tasks
    ensures var r := TranslateFrom(s, id, chunks, i, context, domain, run, now);
      InOrder(r.requests, chunks, i, r.store.tasks[id].translated, domain)
    decreases |chunks| - i
  {
    TranslateFromCount(s, id, chunks, i, context, domain, run, now);
    var t := s.tasks[id];
    if i < |chunks| {
      var req := ChunkRequest(chunks[i], i + 1, |chunks|, context, domain);
      match run(req)
      case Success(x) =>
        var s1 := UpdateProgress(s, id, x, 0, 0, now).store;
        SuccessStep(s, id, x, i, now);
        TranslateFromOrder(s1, id, chunks, i + 1, Tail(x, ContextChars), domain, run, now);
        var r1 := TranslateFrom(s1, id, chunks, i + 1, Tail(x, ContextChars), domain, run, now);
        var u := r1.store.tasks[id];
        ContextOfPrefix(u.translated, t.translated, i);
        assert RequestFor(req, chunks, i, u.translated, domain);
        InOrderCons(req, r1.requests, chunks, i, u.translated, domain);
      case Failure(_) =>
        assert RequestFor(req, chunks, i, t.translated, domain);
        InOrderCons(req, [], chunks, i, t.translated, domain);
    }
  }

  /** Translation `i + j` is the outcome of request `j`. */
  predicate Produced(run: ChunkRequest -> Outcome, requests: seq<ChunkRequest>, translated: seq<string>, i: nat) {
    && |translated| - i <= |requests|
    && forall j :: 0 <= j < |translated| - i ==> run(requests[j]) == Success(translated[i + j])
  }

  lemma ProducedCons(run: ChunkRequest -> Outcome, req: ChunkRequest, requests: seq<ChunkRequest>,
                     translated: seq<string>, i: nat)
    requires i < |translated| && run(req) == Success(translated[i])
    requires Produced(run, requests, translated, i + 1)
    ensures Produced(run, [req] + requests, translated, i)
  {
    var all := [req] + requests;
    forall j | 0 <= j < |translated| - i ensures run(all[j]) == Success(translated[i + j]) {
      if j > 0 {
        assert all[j] == requests[j - 1];
        assert run(requests[j - 1]) == Success(translated[i + 1 + (j - 1)]);
      }
    }
  }

  /** Every appended translation is the successful outcome of the request
      for its chunk. */
  lemma {:induction false} TranslateFromOutputs(s: Store, id: Id, chunks: seq<string>, i: nat, context: string,
                                                domain: string, run: ChunkRequest -> Outcome, now: int)
    requires Valid(s) && i <= |chunks| && id in s.tasks && |s.tasks[id].translated| == i
    ensures id in TranslateFrom(s, id, chunks, i, context, domain, run, now).store.tasks
    ensures var r := TranslateFrom(s, id, chunks, i, context, domain, run, now);
      Produced(run, r.requests, r.store.tasks[id].translated, i)
    decreases |chunks| - i
  {
    TranslateFromCount(s, id, chunks, i, context, domain, run, now);
    if i < |chunks| {
      var req := ChunkRequest(chunks[i], i + 1, |chunks|, context, domain);
      match run(req)
      case Success(x) =>
        var s1 := UpdateProgress(s, id, x, 0, 0, now).store;
        SuccessStep(s, id, x, i, now);
        TranslateFromOutputs(s1, id, chunks, i + 1, Tail(x, ContextChars), domain, run, now);
        TranslateFromCount(s1, id, chunks, i + 1, Tail(x, ContextChars), domain, run, now);
        var r1 := TranslateFrom(s1, id, chunks, i + 1, Tail(x, ContextChars), domain, run, now);
        var u := r1.store.tasks[id];
        CountedStep(s.tasks[id], s1.tasks[id], u, x, i, |chunks|, |r1.requests|);
        ProducedCons(run, req, r1.requests, u.translated, i);
      case Failure(_) =>
    }
  }

  /** A FAILED record names the 1-based number of the chunk after the
      translated prefix and the error of the last request. */
  predicate FailedWith(run: ChunkRequest -> Outcome, requests: seq<ChunkRequest>, u: Task) {
    u.status == Failed ==>
      && requests != []
      && run(requests[|requests| - 1]).Failure?
      && u.error == Some(ChunkFailure(|u.translated| + 1, run(requests[|requests| - 1]).message))
  }

  /** The run stops at the first chunk whose retries all fail: the task is
      FAILED with that chunk's number and last error. */
  lemma {:induction false} TranslateFromFailure(s: Store, id: Id, chunks: seq<string>, i: nat, context: string,
                                                domain: string, run: ChunkRequest -> Outcome, now: int)
    requires Valid(s) && i <= |chunks| && id in s.tasks && |s.tasks[id].translated| == i
    ensures id in TranslateFrom(s, id, chunks, i, context, domain, run, now).store.tasks
    ensures var r := TranslateFrom(s, id, chunks, i, context, domain, run, now);
      FailedWith(run, r.requests, r.store.tasks[id])
    decreases |chunks| - i
  {
    TranslateFromCount(s, id, chunks, i, context, domain, run, now);
    if i < |chunks| {
      var req := ChunkRequest(chunks[i], i + 1, |chunks|, context, domain);
      if run(req).Success? {
        var x := run(req).text;
        var s1 := UpdateProgress(s, id, x, 0, 0, now).store;
        SuccessStep(s, id, x, i, now);
        TranslateFromFailure(s1, id, chunks, i + 1, Tail(x, ContextChars), domain, run, now);
        var r1 := TranslateFrom(s1, id, chunks, i + 1, Tail(x, ContextChars), domain, run, now);
        FailedWithCons(run, req, r1.requests, r1.store.tasks[id]);
        assert TranslateFrom(s, id, chunks, i, context, domain, run, now) == Execution(r1.store, [req] + r1.requests);
      } else {
        FailedStep(s, id, chunks, i, context, domain, run, now);
      }
    }
  }

  /** A chunk whose retries all fail ends the run with the task FAILED. */
  lemma FailedStep(s: Store, id: Id, chunks: seq<string>, i: nat, context: string,
                   domain: string, run: ChunkRequest -> Outcome, now: int)
    requires Valid(s) && i < |chunks| && id in s.tasks && |s.tasks[id].translated| == i
    requires run(ChunkRequest(chunks[i], i + 1, |chunks|, context, domain)).Failure?
    ensures id in TranslateFrom(s, id, chunks, i, context, domain, run, now).store.tasks
    ensures var r := TranslateFrom(s, id, chunks, i, context, domain, run, now);
      FailedWith(run, r.requests, r.store.tasks[id])
  {
    var req := ChunkRequest(chunks[i], i + 1, |chunks|, context, domain);
    var m := MarkFailed(s, id, ChunkFailure(i + 1, run(req).message), now);
    assert TranslateFrom(s, id, chunks, i, context, domain, run, now) == Execution(m.store, [req]);
  }

  /** An earlier request does not change which request came last. */
  lemma FailedWithCons(run: ChunkRequest -> Outcome, req: ChunkRequest, requests: seq<ChunkRequest>, u: Task)
    requires FailedWith(run, requests, u)
    ensures FailedWith(run, [req] + requests, u)
  {
    if requests != [] {
      assert ([req] + requests)[|[req] + requests| - 1] == requests[|requests| - 1];
    }
  }

  /** Preparing a live task keeps it live, records content and chunks, sets
      IN_PROGRESS and keeps the translated prefix and every other task. */
  lemma PrepareFacts(s: Store, id: Id, content: string, chunks: seq<string>, title: Option<string>, now: int)
    requires Valid(s) && id in s.tasks && !IsExpired(s, s.tasks[id], now)
    ensures var r := Prepare(s, id, content, chunks, title, now);
      && r.tasks.Keys == s.tasks.Keys && r.order == s.order
      && !IsExpired(r, r.tasks[id], now)
      && r.tasks[id].status == InProgress
      && r.tasks[id].originalContent == content && r.tasks[id].chunks == chunks
      && r.tasks[id].translated == s.tasks[id].translated
      && (forall other :: other in s.tasks && other != id ==> r.tasks[other] == s.tasks[other])
  {
  }

  /** Once the content is resolved, executing a live task is the translation
      loop on the prepared record, resumed after its translated prefix. */
  lemma ExecuteTaskTranslates(s: Store, job: Job, env: Env, now: int)
    requires Valid(s) && EnvOk(env)
    requires job.id in s.tasks && !IsExpired(s, s.tasks[job.id], now)
    requires Resolve(job, env).Resolved?
    ensures var res := Resolve(job, env);
      var chunks := SplitContent(env.chunking, res.content);
      var tr := s.tasks[job.id].translated;
      var j := Min(|tr|, |chunks|);
      ExecuteTask(s, job, env, now) ==
        TranslateFrom(Prepare(s, job.id, res.content, chunks, res.title, now), job.id, chunks, j,
                      ContextAt(tr, j), job.domain, Runner(env), now)
  {
    var res := Resolve(job, env);
    var chunks := SplitContent(env.chunking, res.content);
    PrepareFacts(s, job.id, res.content, chunks, res.title, now);
  }

  /** An execution of a live task ends with it COMPLETED or FAILED and leaves
      every other task as it was. */
  lemma ExecuteTaskSettles(s: Store, job: Job, env: Env, now: int)
    requires Valid(s) && EnvOk(env)
    requires job.id in s.tasks && !IsExpired(s, s.tasks[job.id], now)
    ensures var r := ExecuteTask(s, job, env, now);
      && r.store.tasks.Keys == s.tasks.Keys
      && (r.store.tasks[job.id].status == Completed || r.store.tasks[job.id].status == Failed)
      && (forall other :: other in s.tasks && other != job.id ==> r.store.tasks[other] == s.tasks[other])
  {
    match Resolve(job, env)
    case Unresolved(_) =>
    case Resolved(content, title) =>
      var chunks := SplitContent(env.chunking, content);
      var s2 := Prepare(s, job.id, content, chunks, title, now);
      var tr := s.tasks[job.id].translated;
      var j := Min(|tr|, |chunks|);
      ExecuteTaskTranslates(s, job, env, now);
      PrepareFacts(s, job.id, content, chunks, title, now);
      TranslateFromSettles(s2, job.id, chunks, j, ContextAt(tr, j), job.domain, Runner(env), now);
  }

  /** A job whose task is gone or expired changes nothing but the expiry purge
      and calls no translator. */
  lemma ExecuteTaskAbsent(s: Store, job: Job, env: Env, now: int)
    requires Valid(s) && EnvOk(env)
    requires job.id !in s.tasks || IsExpired(s, s.tasks[job.id], now)
    ensures ExecuteTask(s, job, env, now) == Execution(GetTask(s, job.id, now).store, [])
  {
  }

  /** Preparation fails before any translator call when the content cannot be
      resolved: the task is FAILED with the resolution's message. */
  lemma ExecuteTaskUnresolved(s: Store, job: Job, env: Env, now: int)
    requires Valid(s) && EnvOk(env)
    requires job.id in s.tasks && !IsExpired(s, s.tasks[job.id], now)
    requires Resolve(job, env).Unresolved?
    ensures var r := ExecuteTask(s, job, env, now);
      && r.requests == []
      && r.store.tasks[job.id].status == Failed
      && r.store.tasks[job.id].error == Some(Resolve(job, env).message)
      && r.store.tasks[job.id].chunks == s.tasks[job.id].chunks
  {
  }

  /** What an execution that resolved `content` into `chunks` leaves behind:
      the record holds both, its translated prefix is kept and extended by
      the successful outcomes, the requests go to the chunks after the prefix
      in order, and a failure names the chunk that failed. */
  predicate Resumed(t: Task, r: Execution, id: Id, content: string, chunks: seq<string>, domain: string,
                    run: ChunkRequest -> Outcome) {
    && id in r.store.tasks
    && r.store.tasks[id].originalContent == content
    && r.store.tasks[id].chunks == chunks
    && Counted(t, r.store.tasks[id], |t.translated|, |chunks|, |r.requests|)
    && InOrder(r.requests, chunks, |t.translated|, r.store.tasks[id].translated, domain)
    && Produced(run, r.requests, r.store.tasks[id].translated, |t.translated|)
    && FailedWith(run, r.requests, r.store.tasks[id])
  }

  /** Once prepared, the task holds the resolved content and its chunks, and
      translation resumes right after the translated prefix: the requests go
      to chunks |prefix|, |prefix|+1, ... in order, each carrying the tail of
      the previous translation (nothing for the first chunk). */
  lemma ExecuteTaskResumes(s: Store, job: Job, env: Env, now: int)
    requires Valid(s) && EnvOk(env)
    requires job.id in s.tasks && !IsExpired(s, s.tasks[job.id], now)
    requires Resolve(job, env).Resolved?
    requires |s.tasks[job.id].translated| <= |SplitContent(env.chunking, Resolve(job, env).content)|
    ensures Resumed(s.tasks[job.id], ExecuteTask(s, job, env, now), job.id, Resolve(job, env).content,
                    SplitContent(env.chunking, Resolve(job, env).content), job.domain, Runner(env))
  {
    var res := Resolve(job, env);
    var chunks := SplitContent(env.chunking, res.content);
    var s2 := Prepare(s, job.id, res.content, chunks, res.title, now);
    var t := s.tasks[job.id];
    var p := |t.translated|;
    var r := TranslateFrom(s2, job.id, chunks, p, ContextAt(t.translated, p), job.domain, Runner(env), now);
    assert Resumed(t, r, job.id, res.content, chunks, job.domain, Runner(env)) by {
      PrepareFacts(s, job.id, res.content, chunks, res.title, now);
      TranslateFromOrder(s2, job.id, chunks, p, ContextAt(t.translated, p), job.domain, Runner(env), now);
      TranslateFromCount(s2, job.id, chunks, p, ContextAt(t.translated, p), job.domain, Runner(env), now);
      TranslateFromSettles(s2, job.id, chunks, p, ContextAt(t.translated, p), job.domain, Runner(env), now);
      TranslateFromOutputs(s2, job.id, chunks, p, ContextAt(t.translated, p), job.domain, Runner(env), now);
      TranslateFromFailure(s2, job.id, chunks, p, ContextAt(t.translated, p), job.domain, Runner(env), now);
    }
    ExecuteTaskTranslates(s, job, env, now);
    assert Min(p, |chunks|) == p;
  }

  /** A task just submitted can be cancelled at once. */
  lemma SubmitThenCancel(m: Manager, id: Id, content: string, url: string, title: Option<string>,
                         sourceUrl: Option<string>, domain: string, syncToNotion: bool, now: int)
    requires Valid(m.store) && m.running && m.store.ttlMinutes >= 0
    ensures var sub := SubmitTaskFast(m, id, content, url, title, sourceUrl, domain, syncToNotion, now);
      sub.Submitted? && CancelTask(sub.manager, id, now).ok
  {
    var sub := SubmitTaskFast(m, id, content, url, title, sourceUrl, domain, syncToNotion, now);
    assert !IsExpired(sub.manager.store, sub.manager.store.tasks[id], now);
  }

  /** A cancelled task is FAILED, so it can be retried at once; the retry puts
      it back in the pending set and at the back of the queue. */
  lemma CancelThenRetry(m: Manager, id: Id, now: int)
    requires Valid(m.store) && CancelTask(m, id, now).ok
    ensures var c := CancelTask(m, id, now).manager;
      var r := RetryTask(c, id, now);
      && r.ok && id in r.manager.pending
      && r.manager.queue[|r.manager.queue| - 1].id == id
      && r.manager.store.tasks[id].status == Pending
  {
    var c := CancelTask(m, id, now).manager;
    assert c.store.tasks[id].createdAt == m.store.tasks[id].createdAt;
  }

  /** A job whose id was cancelled is skipped when dequeued, and the store is
      not touched. */
  lemma CancelledJobIsSkipped(m: Manager, id: Id, now: int, env: Env, later: int)
    requires Valid(m.store) && EnvOk(env)
    requires var c := CancelTask(m, id, now).manager;
      c.queue != [] && c.queue[0].id == id && !c.stopRequested
    ensures var c := CancelTask(m, id, now).manager;
      var st := WorkerStep(c, env, later);
      st.kind == Skipped && st.manager.store == c.store && st.requests == []
  {
  }

  /** As written, retrying a URL task whose fetch failed (so it holds no
      content) queues a job with neither content nor url: whatever the
      fetcher would now return, the job fails on empty content. */
  lemma RetryForgetsUrl(m: Manager, id: Id, now: int, env: Env)
    requires Valid(m.store) && id in m.store.tasks && !IsExpired(m.store, m.store.tasks[id], now)
    requires m.store.tasks[id].status == Failed
    requires m.store.tasks[id].originalContent == "" && m.store.tasks[id].url != ""
    ensures var r := RetryTask(m, id, now);
      r.ok && Resolve(r.manager.queue[|r.manager.queue| - 1], env) == Unresolved(EmptyContentMessage)
  {
  }

  /** With the url carried along, the retried job fetches the page again:
      it resolves exactly as the first submission of that url does, and a
      task that holds content resolves as before. */
  lemma RetryRefetches(m: Manager, id: Id, now: int, env: Env)
    requires Valid(m.store) && id in m.store.tasks && !IsExpired(m.store, m.store.tasks[id], now)
    requires m.store.tasks[id].status == Failed
    ensures var t := m.store.tasks[id];
      var r := RetryTaskRefetching(m, id, now);
      var job := r.manager.queue[|r.manager.queue| - 1];
      && r.ok
      && (t.originalContent == "" ==>
            Resolve(job, env) == Resolve(Job(id, "", t.url, t.title, t.sourceUrl, t.domain, false), env))
      && (t.originalContent == "" && t.url != "" && env.fetch(t.url).success && env.fetch(t.url).content != "" ==>
            Resolve(job, env).Resolved? && Resolve(job, env).content == env.fetch(t.url).content)
      && (t.originalContent != "" ==>
            Resolve(job, env) == Resolve(RetryTask(m, id, now).manager.queue[|m.queue|], env))
  {
  }
}
