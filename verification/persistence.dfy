/**
 * Snapshots of the job store on disk and recovery from them.
 *
 * The file system is a map from path to file. A snapshot file is modelled
 * as what `json.load` would give back from it: the version, the timestamp
 * and the task records in the file's order; a file that does not parse as a
 * JSON object is `Corrupt`. Timestamps are the model's integer clock, so
 * the ISO formatting and parsing of `datetime` is the identity here. Whether
 * the file system accepts a write is the parameter `writable`.
 */
module Persistence {
  import opened Opt
  import opened Text
  import opened Seqs
  import opened Json
  import opened TaskStore
  import Worker
  import Chunking

  const SchemaVersion: int := 1
  const RetentionDays: int := 7
  const RetentionSeconds: int := RetentionDays * 86400

  const TasksPath := "data/tasks.json"
  const TempPath := "data/tasks.tmp"

  function ResultPath(id: Id): string {
    "data/results/" + id + ".txt"
  }

  /** The reference a COMPLETED record carries, relative to the data directory. */
  function ResultRef(id: Id): string {
    "results/" + id + ".txt"
  }

  /** One task record as `json.load` gives it back: each member present
      (`Some`) or absent (`None`); members the loader does not read are left
      out. The JSON member names are in the comments. */
  datatype Record = Record(
    taskId: Option<Value>,           // "task_id"
    status: Option<Value>,           // "status"
    progress: Option<Value>,         // "progress"
    originalContent: Option<Value>,  // "original_content"
    totalChunks: Option<Value>,      // "total_chunks"
    completedChunks: Option<Value>,  // "completed_chunks"
    title: Option<Value>,            // "title"
    sourceUrl: Option<Value>,        // "source_url"
    domain: Option<Value>,           // "domain"
    errorMessage: Option<Value>,     // "error_message"
    createdAt: Option<Value>,        // "created_at"
    updatedAt: Option<Value>,        // "updated_at"
    inputTokens: Option<Value>,      // "total_input_tokens"
    outputTokens: Option<Value>,     // "total_output_tokens"
    resultFile: Option<Value>)       // "result_file"

  /** A member of the `"tasks"` object: a record, or a JSON value that is
      not an object. */
  datatype Entry = Entry(id: Id, record: Option<Record>)

  /** The `"tasks"` member of a snapshot: absent, an object (its members in
      order), or some other JSON value. */
  datatype TasksSection = Missing | Entries(items: seq<Entry>) | NotAnObject

  datatype File =
    | TextFile(text: string)
    | SnapshotFile(version: Value, lastUpdated: Value, tasks: TasksSection)
    | Corrupt

  type FileSystem = map<string, File>

  /** No task id can make a result file collide with the snapshot files. */
  lemma ResultPathIsNotSnapshot(id: Id)
    ensures ResultPath(id) != TasksPath && ResultPath(id) != TempPath
  {
    assert ResultPath(id)[5] == 'r';
    assert TasksPath[5] == 't' && TempPath[5] == 't';
  }

  // ---------------------------------------------------------------------
  // Serialisation.

  function OptValue(o: Option<string>): Value {
    if o.Some? then JStr(o.value) else JNull
  }

  /** `_serialize_tasks`, one record: metadata and counts only, never the
      chunk or translation texts; a result reference exactly when COMPLETED. */
  function Serialize(t: Task): (r: Record)
    ensures r.resultFile.Some? <==> t.status == Completed
    ensures r.totalChunks == Some(JInt(|t.chunks|)) && r.completedChunks == Some(JInt(|t.translated|))
  {
    Record(Some(JStr(t.id)), Some(JStr(StatusValue(t.status))), Some(JInt(Progress(t))),
           Some(JStr(t.originalContent)), Some(JInt(|t.chunks|)), Some(JInt(|t.translated|)),
           Some(OptValue(t.title)), Some(OptValue(t.sourceUrl)), Some(JStr(t.domain)),
           Some(OptValue(t.error)), Some(JInt(t.createdAt)), Some(JInt(t.updatedAt)),
           Some(JInt(t.inputTokens)), Some(JInt(t.outputTokens)),
           if t.status == Completed then Some(JStr(ResultRef(t.id))) else None)
  }

  /** Every record of the store, in the store's order. */
  function SerializeTasks(s: Store): (r: seq<Entry>)
    requires Valid(s)
    ensures |r| == |s.order|
    ensures forall i :: 0 <= i < |r| ==> r[i] == Entry(s.order[i], Some(Serialize(s.tasks[s.order[i]])))
  {
    seq(|s.order|, i requires 0 <= i < |s.order| && Valid(s) =>
      assert s.order[i] in Elems(s.order);
      Entry(s.order[i], Some(Serialize(s.tasks[s.order[i]]))))
  }

  function SnapshotOf(s: Store, now: int): File
    requires Valid(s)
  {
    SnapshotFile(JInt(SchemaVersion), JInt(now), Entries(SerializeTasks(s)))
  }

  datatype Saved = Saved(fs: FileSystem, ok: bool)

  /** `save_snapshot`: the snapshot goes to the temporary file, which then
      replaces the canonical one. A refused write returns false and leaves
      the files as they were. */
  function SaveSnapshot(fs: FileSystem, s: Store, now: int, writable: bool): (r: Saved)
    requires Valid(s)
    ensures r.ok == writable
    ensures !r.ok ==> r.fs == fs
    ensures r.ok ==> TasksPath in r.fs && r.fs[TasksPath] == SnapshotOf(s, now) && TempPath !in r.fs
    ensures forall p :: p != TasksPath && p != TempPath ==> (p in r.fs <==> p in fs)
    ensures forall p :: p in fs && p != TasksPath && p != TempPath ==> r.fs[p] == fs[p]
  {
    if !writable then Saved(fs, false)
    else
      var written := WriteTemp(fs, SnapshotOf(s, now));
      Saved(ReplaceWithTemp(written), true)
  }

  function WriteTemp(fs: FileSystem, f: File): FileSystem {
    fs[TempPath := f]
  }

  /** `Path.replace`: the temporary file takes the canonical name. */
  function ReplaceWithTemp(fs: FileSystem): FileSystem
    requires TempPath in fs
  {
    (fs - {TempPath})[TasksPath := fs[TempPath]]
  }

  /** Between the two steps of a save the canonical file is still the old
      one, so a reader sees either the old or the new snapshot, never a part. */
  lemma SaveIsAtomic(fs: FileSystem, s: Store, now: int)
    requires Valid(s)
    ensures var mid := WriteTemp(fs, SnapshotOf(s, now));
      && (TasksPath in mid <==> TasksPath in fs)
      && (TasksPath in fs ==> mid[TasksPath] == fs[TasksPath])
      && ReplaceWithTemp(mid) == SaveSnapshot(fs, s, now, true).fs
  {
  }

  // ---------------------------------------------------------------------
  // Deserialisation.

  /** A JSON string or null as an optional string; `None` for any other value. */
  function OptString(v: Value): Option<Option<string>> {
    match v
    case JStr(x) => Some(Some(x))
    case JNull => Some(None)
    case _ => None
  }

  /** A task as recovery rebuilds it from its own record: chunks recomputed
      from the content, no translations, the completed count as the current
      chunk, and no url (the record has none). */
  function Rebuilt(t: Task, id: Id, cfg: Chunking.Config): Task
    requires cfg.maxTokens >= 1
  {
    t.(id := id, chunks := Worker.SplitContent(cfg, t.originalContent), translated := [],
       currentChunk := |t.translated|, url := "")
  }

  /** `_deserialize_task`: missing members take the dataclass defaults; a
      record that is not an object, lacks a timestamp, names an unknown
      status or holds a member of the wrong JSON type is unreadable (`None`). */
  function Deserialize(e: Entry, cfg: Chunking.Config): (r: Option<Task>)
    requires cfg.maxTokens >= 1
    ensures r.Some? ==> r.value.id == e.id && r.value.translated == [] && r.value.url == ""
    ensures r.Some? ==> r.value.chunks == Worker.SplitContent(cfg, r.value.originalContent)
    ensures e.record.None? ==> r == None
  {
    if e.record.None? then None
    else
      var d := e.record.value;
      var content := d.originalContent.GetOr(JStr(""));
      var status := d.status.GetOr(JStr("pending"));
      var completed := d.completedChunks.GetOr(JInt(0));
      var title := OptString(d.title.GetOr(JNull));
      var source := OptString(d.sourceUrl.GetOr(JNull));
      var domain := d.domain.GetOr(JStr("tech"));
      var error := OptString(d.errorMessage.GetOr(JNull));
      var inTokens := d.inputTokens.GetOr(JInt(0));
      var outTokens := d.outputTokens.GetOr(JInt(0));
      if !content.JStr? || !status.JStr? || StatusOf(status.s).None? || !completed.JInt?
         || d.createdAt.None? || !d.createdAt.value.JInt? || d.updatedAt.None? || !d.updatedAt.value.JInt?
         || title.None? || source.None? || !domain.JStr? || error.None?
         || !inTokens.JInt? || !outTokens.JInt?
      then None
      else
        Some(Task(e.id, content.s, Worker.SplitContent(cfg, content.s), [], completed.i,
                  StatusOf(status.s).value, d.createdAt.value.i, d.updatedAt.value.i,
                  title.value, source.value, domain.s, error.value, inTokens.i, outTokens.i, ""))
  }

  /** Reading back a record gives the task's metadata again, with the
      chunks recomputed and the translations dropped. */
  lemma DeserializeSerialize(t: Task, id: Id, cfg: Chunking.Config)
    requires cfg.maxTokens >= 1
    ensures Deserialize(Entry(id, Some(Serialize(t))), cfg) == Some(Rebuilt(t, id, cfg))
  {
    StatusValueRoundTrip(t.status);
  }

  // ---------------------------------------------------------------------
  // Recovery.

  /** The recovery rule: IN_PROGRESS goes back to PENDING with its progress
      cleared; every other status is kept. */
  function RecoveryStatus(t: Task): (u: Task) {
    if t.status == InProgress then t.(status := Pending, translated := [], currentChunk := 0) else t
  }

  /** Whether a recovered task is queued again. */
  predicate Requeued(t: Task) {
    t.status == InProgress || t.status == Pending
  }

  /** The job `_queue_recovered_tasks` builds: no url and no Notion sync. */
  function RecoveryJob(t: Task): Worker.Job {
    Worker.Job(t.id, t.originalContent, "", t.title, t.sourceUrl, t.domain, false)
  }

  /** `_restore_task_to_cache`: a plain dict assignment, which overwrites. */
  function RestoreToCache(s: Store, t: Task): (r: Store)
    requires Valid(s)
    ensures Valid(r) && r.tasks == s.tasks[t.id := t]
  {
    Put(s, t.id, t)
  }

  datatype Recovery = Recovery(store: Store, jobs: seq<Worker.Job>)

  /** The loop of `load_and_recover` over the records, in file order. */
  function Recover(s: Store, entries: seq<Entry>, cfg: Chunking.Config): (r: Recovery)
    requires Valid(s) && cfg.maxTokens >= 1
    ensures Valid(r.store)
    decreases |entries|
  {
    if entries == [] then Recovery(s, [])
    else
      match Deserialize(entries[0], cfg)
      case None => Recover(s, entries[1..], cfg)
      case Some(t) =>
        var u := RecoveryStatus(t);
        var rest := Recover(RestoreToCache(s, u), entries[1..], cfg);
        Recovery(rest.store, (if Requeued(t) then [RecoveryJob(u)] else []) + rest.jobs)
  }

  function JobIds(jobs: seq<Worker.Job>): set<Id> {
    set i | 0 <= i < |jobs| :: jobs[i].id
  }

  datatype Loaded = Loaded(manager: Worker.Manager, count: nat)

  /** `load_and_recover`: no file or an unreadable one recovers nothing;
      otherwise every readable record is restored (overwriting), and the
      PENDING and IN_PROGRESS ones are queued and marked pending. The count
      is the number queued. */
  function LoadAndRecover(fs: FileSystem, m: Worker.Manager, cfg: Chunking.Config): (r: Loaded)
    requires Valid(m.store) && cfg.maxTokens >= 1
    ensures Valid(r.manager.store)
    ensures TasksPath !in fs ==> r == Loaded(m, 0)
    ensures r.count == |r.manager.queue| - |m.queue|
    ensures r.manager.queue[..|m.queue|] == m.queue
    ensures r.manager.running == m.running && r.manager.stopRequested == m.stopRequested
  {
    if TasksPath !in fs then Loaded(m, 0)
    else
      var entries :=
        match fs[TasksPath]
        case SnapshotFile(_, _, Entries(items)) => Some(items)
        case SnapshotFile(_, _, Missing) => Some([])
        case _ => None;
      if entries.None? then Loaded(m, 0)
      else
        var rec := Recover(m.store, entries.value, cfg);
        Loaded(m.(store := rec.store, queue := m.queue + rec.jobs, pending := m.pending + JobIds(rec.jobs)),
               |rec.jobs|)
  }

  /** After `json.load`, the members of an object have distinct names. */
  predicate DistinctIds(entries: seq<Entry>) {
    forall i, j :: 0 <= i < j < |entries| ==> entries[i].id != entries[j].id
  }

  function ReadableIds(entries: seq<Entry>, cfg: Chunking.Config): set<Id>
    requires cfg.maxTokens >= 1
  {
    set k | 0 <= k < |entries| && Deserialize(entries[k], cfg).Some? :: entries[k].id
  }

  lemma ReadableIdsCons(entries: seq<Entry>, cfg: Chunking.Config)
    requires cfg.maxTokens >= 1 && entries != []
    ensures ReadableIds(entries, cfg) ==
      (if Deserialize(entries[0], cfg).Some? then {entries[0].id} else {}) + ReadableIds(entries[1..], cfg)
  {
    var rest := entries[1..];
    forall id | id in ReadableIds(entries, cfg)
      ensures id in (if Deserialize(entries[0], cfg).Some? then {entries[0].id} else {}) + ReadableIds(rest, cfg)
    {
      var k :| 0 <= k < |entries| && Deserialize(entries[k], cfg).Some? && entries[k].id == id;
      if k > 0 {
        assert rest[k-1] == entries[k];
      }
    }
    forall id | id in ReadableIds(rest, cfg) ensures id in ReadableIds(entries, cfg) {
      var k :| 0 <= k < |rest| && Deserialize(rest[k], cfg).Some? && rest[k].id == id;
      assert entries[k+1] == rest[k];
    }
  }

  /** How many records are queued: the readable PENDING and IN_PROGRESS ones. */
  function QueuedCount(entries: seq<Entry>, cfg: Chunking.Config): nat
    requires cfg.maxTokens >= 1
  {
    if entries == [] then 0
    else
      var t := Deserialize(entries[0], cfg);
      (if t.Some? && Requeued(t.value) then 1 else 0) + QueuedCount(entries[1..], cfg)
  }

  /** Recovery touches exactly the readable ids: they are added (or
      overwritten), every other task stays as it was. */
  lemma {:induction false} RecoverKeeps(s: Store, entries: seq<Entry>, cfg: Chunking.Config)
    requires Valid(s) && cfg.maxTokens >= 1
    ensures var r := Recover(s, entries, cfg);
      && (forall id :: id in r.store.tasks <==> id in s.tasks || id in ReadableIds(entries, cfg))
      && (forall id :: id in s.tasks && id !in ReadableIds(entries, cfg) ==> r.store.tasks[id] == s.tasks[id])
    decreases |entries|
  {
    if entries != [] {
      ReadableIdsCons(entries, cfg);
      match Deserialize(entries[0], cfg)
      case None => RecoverKeeps(s, entries[1..], cfg);
      case Some(t) => RecoverKeeps(RestoreToCache(s, RecoveryStatus(t)), entries[1..], cfg);
    }
  }

  /** Each readable record ends up in the store as the recovery rule makes it. */
  lemma {:induction false} RecoverRestores(s: Store, entries: seq<Entry>, cfg: Chunking.Config, k: nat)
    requires Valid(s) && cfg.maxTokens >= 1 && DistinctIds(entries)
    requires k < |entries| && Deserialize(entries[k], cfg).Some?
    ensures var r := Recover(s, entries, cfg);
      entries[k].id in r.store.tasks &&
      r.store.tasks[entries[k].id] == RecoveryStatus(Deserialize(entries[k], cfg).value)
    decreases |entries|
  {
    var rest := entries[1..];
    assert DistinctIds(rest) by {
      forall i, j | 0 <= i < j < |rest| ensures rest[i].id != rest[j].id {
        assert rest[i] == entries[i+1] && rest[j] == entries[j+1];
      }
    }
    match Deserialize(entries[0], cfg)
    case None =>
      RecoverRestores(s, rest, cfg, k - 1);
    case Some(t) =>
      var s' := RestoreToCache(s, RecoveryStatus(t));
      if k == 0 {
        RecoverKeeps(s', rest, cfg);
        forall j | 0 <= j < |rest| ensures rest[j].id != entries[0].id {
          assert rest[j] == entries[j+1];
        }
        assert entries[0].id !in ReadableIds(rest, cfg);
      } else {
        RecoverRestores(s', rest, cfg, k - 1);
      }
  }

  /** The queue holds one job per readable PENDING or IN_PROGRESS record, in
      file order; each job's task is stored as PENDING with no translations,
      and the job carries that task's content, title, source and domain. */
  lemma {:induction false} RecoverQueues(s: Store, entries: seq<Entry>, cfg: Chunking.Config)
    requires Valid(s) && cfg.maxTokens >= 1 && DistinctIds(entries)
    ensures var r := Recover(s, entries, cfg);
      && |r.jobs| == QueuedCount(entries, cfg)
      && forall i :: 0 <= i < |r.jobs| ==> Queued(r.store, r.jobs[i])
    decreases |entries|
  {
    if entries != [] {
      var rest := entries[1..];
      assert DistinctIds(rest) by {
        forall i, j | 0 <= i < j < |rest| ensures rest[i].id != rest[j].id {
          assert rest[i] == entries[i+1] && rest[j] == entries[j+1];
        }
      }
      match Deserialize(entries[0], cfg)
      case None => RecoverQueues(s, rest, cfg);
      case Some(t) =>
        var u := RecoveryStatus(t);
        var s' := RestoreToCache(s, u);
        RecoverQueues(s', rest, cfg);
        RecoverRestores(s, entries, cfg, 0);
    }
  }

  /** A queued job's task is stored PENDING with no translations, and the job
      is the one recovery builds from it. */
  predicate Queued(s: Store, job: Worker.Job) {
    job.id in s.tasks && s.tasks[job.id].status == Pending && s.tasks[job.id].translated == []
    && job == RecoveryJob(s.tasks[job.id])
  }

  lemma LoadIsRecover(fs: FileSystem, m: Worker.Manager, cfg: Chunking.Config)
    requires Valid(m.store) && cfg.maxTokens >= 1
    requires TasksPath in fs && fs[TasksPath].SnapshotFile? && fs[TasksPath].tasks.Entries?
    ensures var rec := Recover(m.store, fs[TasksPath].tasks.items, cfg);
      LoadAndRecover(fs, m, cfg) ==
      Loaded(m.(store := rec.store, queue := m.queue + rec.jobs, pending := m.pending + JobIds(rec.jobs)), |rec.jobs|)
  {
  }

  /** Loading a snapshot reports as many recovered tasks as it read
      PENDING and IN_PROGRESS records. */
  lemma LoadCounts(fs: FileSystem, m: Worker.Manager, cfg: Chunking.Config)
    requires Valid(m.store) && cfg.maxTokens >= 1
    requires TasksPath in fs && fs[TasksPath].SnapshotFile? && fs[TasksPath].tasks.Entries?
    requires DistinctIds(fs[TasksPath].tasks.items)
    ensures LoadAndRecover(fs, m, cfg).count == QueuedCount(fs[TasksPath].tasks.items, cfg)
  {
    LoadIsRecover(fs, m, cfg);
    RecoverQueues(m.store, fs[TasksPath].tasks.items, cfg);
  }

  /** Every job loading adds behind the queue is queued and marked pending. */
  lemma LoadQueues(fs: FileSystem, m: Worker.Manager, cfg: Chunking.Config)
    requires Valid(m.store) && cfg.maxTokens >= 1
    requires TasksPath in fs && fs[TasksPath].SnapshotFile? && fs[TasksPath].tasks.Entries?
    requires DistinctIds(fs[TasksPath].tasks.items)
    ensures var r := LoadAndRecover(fs, m, cfg);
      forall i :: |m.queue| <= i < |r.manager.queue| ==>
        Queued(r.manager.store, r.manager.queue[i]) && r.manager.queue[i].id in r.manager.pending
  {
    var entries := fs[TasksPath].tasks.items;
    var rec := Recover(m.store, entries, cfg);
    LoadIsRecover(fs, m, cfg);
    RecoverQueues(m.store, entries, cfg);
    var q := m.queue + rec.jobs;
    forall i | |m.queue| <= i < |q| ensures Queued(rec.store, q[i]) && q[i].id in m.pending + JobIds(rec.jobs) {
      assert q[i] == rec.jobs[i - |m.queue|];
    }
  }

  /** Loading restores each readable record as the recovery rule makes it. */
  lemma LoadRestores(fs: FileSystem, m: Worker.Manager, cfg: Chunking.Config, k: nat)
    requires Valid(m.store) && cfg.maxTokens >= 1
    requires TasksPath in fs && fs[TasksPath].SnapshotFile? && fs[TasksPath].tasks.Entries?
    requires DistinctIds(fs[TasksPath].tasks.items)
    ensures var entries := fs[TasksPath].tasks.items;
      var r := LoadAndRecover(fs, m, cfg);
      k < |entries| && Deserialize(entries[k], cfg).Some? ==>
        entries[k].id in r.manager.store.tasks &&
        r.manager.store.tasks[entries[k].id] == RecoveryStatus(Deserialize(entries[k], cfg).value)
  {
    var entries := fs[TasksPath].tasks.items;
    LoadIsRecover(fs, m, cfg);
    if k < |entries| && Deserialize(entries[k], cfg).Some? {
      RecoverRestores(m.store, entries, cfg, k);
    }
  }

  /** Loading a snapshot restores every readable record as the recovery
      rule makes it, and queues (and marks pending) exactly the readable
      PENDING and IN_PROGRESS ones behind the jobs already queued. */
  lemma LoadRecovers(fs: FileSystem, m: Worker.Manager, cfg: Chunking.Config, k: nat)
    requires Valid(m.store) && cfg.maxTokens >= 1
    requires TasksPath in fs && fs[TasksPath].SnapshotFile? && fs[TasksPath].tasks.Entries?
    requires DistinctIds(fs[TasksPath].tasks.items)
    ensures var entries := fs[TasksPath].tasks.items;
      var r := LoadAndRecover(fs, m, cfg);
      && r.count == QueuedCount(entries, cfg)
      && (forall i :: |m.queue| <= i < |r.manager.queue| ==>
            Queued(r.manager.store, r.manager.queue[i]) && r.manager.queue[i].id in r.manager.pending)
      && (k < |entries| && Deserialize(entries[k], cfg).Some? ==>
            entries[k].id in r.manager.store.tasks &&
            r.manager.store.tasks[entries[k].id] == RecoveryStatus(Deserialize(entries[k], cfg).value))
  {
    LoadCounts(fs, m, cfg);
    LoadQueues(fs, m, cfg);
    LoadRestores(fs, m, cfg, k);
  }


  /** Saving and then loading brings every task back, rebuilt from its
      record and put through the recovery rule. */
  lemma SaveThenRecover(fs: FileSystem, s: Store, now: int, m: Worker.Manager, cfg: Chunking.Config, id: Id)
    requires Valid(s) && Valid(m.store) && cfg.maxTokens >= 1 && id in s.tasks
    ensures var r := LoadAndRecover(SaveSnapshot(fs, s, now, true).fs, m, cfg);
      id in r.manager.store.tasks &&
      r.manager.store.tasks[id] == RecoveryStatus(Rebuilt(s.tasks[id], id, cfg))
  {
    var saved := SaveSnapshot(fs, s, now, true).fs;
    var entries := SerializeTasks(s);
    assert saved[TasksPath] == SnapshotFile(JInt(SchemaVersion), JInt(now), Entries(entries));
    assert DistinctIds(entries) by {
      forall i, j | 0 <= i < j < |entries| ensures entries[i].id != entries[j].id {
        assert entries[i].id == s.order[i] && entries[j].id == s.order[j];
      }
    }
    assert id in Elems(s.order);
    var k :| 0 <= k < |s.order| && s.order[k] == id;
    DeserializeSerialize(s.tasks[id], id, cfg);
    assert entries[k] == Entry(id, Some(Serialize(s.tasks[id])));
    LoadRecovers(saved, m, cfg, k);
  }

  // ---------------------------------------------------------------------
  // Result files.

  /** `save_result_to_file`: overwrites the task's result file. */
  function SaveResult(fs: FileSystem, id: Id, text: string, writable: bool): (r: Saved)
    ensures r.ok == writable
    ensures !r.ok ==> r.fs == fs
    ensures r.ok ==> r.fs == fs[ResultPath(id) := TextFile(text)]
  {
    if writable then Saved(fs[ResultPath(id) := TextFile(text)], true) else Saved(fs, false)
  }

  /** `load_result_from_file`: the text, or `None` when there is no file. */
  function LoadResult(fs: FileSystem, id: Id): (r: Option<string>)
    ensures r.Some? <==> ResultPath(id) in fs && fs[ResultPath(id)].TextFile?
  {
    if ResultPath(id) in fs && fs[ResultPath(id)].TextFile? then Some(fs[ResultPath(id)].text) else None
  }

  /** `delete_result_file`: removing an absent file also succeeds. */
  function DeleteResult(fs: FileSystem, id: Id): (r: FileSystem)
    ensures ResultPath(id) !in r
    ensures forall p :: p != ResultPath(id) ==> (p in r <==> p in fs)
    ensures forall p :: p in r ==> r[p] == fs[p]
  {
    fs - {ResultPath(id)}
  }

  /** Different tasks have different result files. */
  lemma ResultPathInjective(a: Id, b: Id)
    ensures ResultPath(a) == ResultPath(b) ==> a == b
  {
    if ResultPath(a) == ResultPath(b) {
      assert |a| == |b|;
      assert a == ResultPath(a)[13..13 + |a|];
      assert b == ResultPath(b)[13..13 + |b|];
    }
  }

  /** A saved result reads back, and leaves every other task's result as it was. */
  lemma LoadAfterSave(fs: FileSystem, id: Id, text: string, other: Id)
    ensures LoadResult(SaveResult(fs, id, text, true).fs, id) == Some(text)
    ensures other != id ==> LoadResult(SaveResult(fs, id, text, true).fs, other) == LoadResult(fs, other)
  {
    ResultPathInjective(id, other);
  }

  /** After a delete the result is gone; other results are untouched. */
  lemma LoadAfterDelete(fs: FileSystem, id: Id, other: Id)
    ensures LoadResult(DeleteResult(fs, id), id) == None
    ensures other != id ==> LoadResult(DeleteResult(fs, id), other) == LoadResult(fs, other)
  {
    ResultPathInjective(id, other);
  }

  // ---------------------------------------------------------------------
  // Retention.

  /** A task `cleanup_expired_tasks` removes: finished (COMPLETED or FAILED)
      and created strictly before the retention cut-off. */
  predicate Retired(t: Task, now: int) {
    (t.status == Completed || t.status == Failed) && t.createdAt < now - RetentionSeconds
  }

  /** The retired ids among `ids`, in order. */
  function RetiredIds(s: Store, ids: seq<Id>, now: int): (r: seq<Id>)
    requires Elems(ids) <= s.tasks.Keys
    ensures forall id :: id in r <==> id in ids && Retired(s.tasks[id], now)
    ensures |r| <= |ids|
    ensures Distinct(ids) ==> Distinct(r)
  {
    if ids == [] then []
    else
      assert ids[0] in Elems(ids);
      var rest := RetiredIds(s, ids[1..], now);
      if Retired(s.tasks[ids[0]], now) then
        assert Distinct(ids) ==> ids[0] !in rest by {
          if Distinct(ids) { HeadNotInTail(ids); }
        }
        [ids[0]] + rest
      else rest
  }

  datatype Removal = Removal(store: Store, fs: FileSystem)

  /** The removal loop: each id leaves the cache and loses its result file. */
  function RemoveEach(s: Store, fs: FileSystem, ids: seq<Id>): (r: Removal)
    requires Valid(s)
    ensures Valid(r.store)
    ensures r.store.ttlMinutes == s.ttlMinutes && r.store.maxEntries == s.maxEntries
    decreases |ids|
  {
    if ids == [] then Removal(s, fs)
    else RemoveEach(DeleteTask(s, ids[0]).store, DeleteResult(fs, ids[0]), ids[1..])
  }

  lemma RemoveEachLaw(s: Store, fs: FileSystem, ids: seq<Id>)
    requires Valid(s)
    ensures var r := RemoveEach(s, fs, ids);
      && r.store.tasks == s.tasks - Elems(ids)
      && (forall id :: id in ids ==> ResultPath(id) !in r.fs)
      && (forall p :: p in r.fs ==> p in fs && r.fs[p] == fs[p])
      && (forall p :: p in fs && (forall id :: id in ids ==> p != ResultPath(id)) ==> p in r.fs)
  {
    RemoveEachTasks(s, fs, ids);
    RemoveEachFiles(s, fs, ids);
  }

  /** The loop removes exactly the listed tasks from the cache. */
  lemma {:induction false} RemoveEachTasks(s: Store, fs: FileSystem, ids: seq<Id>)
    requires Valid(s)
    ensures RemoveEach(s, fs, ids).store.tasks == s.tasks - Elems(ids)
    decreases |ids|
  {
    if ids != [] {
      var s' := DeleteTask(s, ids[0]).store;
      assert Elems(ids) == {ids[0]} + Elems(ids[1..]);
      RemoveEachTasks(s', DeleteResult(fs, ids[0]), ids[1..]);
      MapMinusTwice(s.tasks, ids[0], Elems(ids[1..]), Elems(ids));
    }
  }

  /** The loop deletes the listed tasks' result files and no other file. */
  lemma {:induction false} RemoveEachFiles(s: Store, fs: FileSystem, ids: seq<Id>)
    requires Valid(s)
    ensures var r := RemoveEach(s, fs, ids);
      && (forall id :: id in ids ==> ResultPath(id) !in r.fs)
      && (forall p :: p in r.fs ==> p in fs && r.fs[p] == fs[p])
      && (forall p :: p in fs && (forall id :: id in ids ==> p != ResultPath(id)) ==> p in r.fs)
    decreases |ids|
  {
    if ids != [] {
      var s' := DeleteTask(s, ids[0]).store;
      var fs' := DeleteResult(fs, ids[0]);
      RemoveEachFiles(s', fs', ids[1..]);
      var r := RemoveEach(s', fs', ids[1..]);
      assert RemoveEach(s, fs, ids) == r;
      forall id | id in ids ensures ResultPath(id) !in r.fs {
        if id != ids[0] {
          assert id in ids[1..];
        }
      }
      forall p | p in fs && (forall id :: id in ids ==> p != ResultPath(id)) ensures p in r.fs {
        assert p != ResultPath(ids[0]);
        forall id | id in ids[1..] ensures p != ResultPath(id) {
          assert id in ids;
        }
      }
    }
  }

  lemma MapMinusTwice<K, V>(m: map<K, V>, k: K, rest: set<K>, all: set<K>)
    requires all == {k} + rest
    ensures (m - {k}) - rest == m - all
  {
  }

  /** Removing distinct known ids shrinks the cache by their number. */
  lemma RemovedCount(s: Store, ids: seq<Id>)
    requires Distinct(ids) && Elems(ids) <= s.tasks.Keys
    ensures |ids| == |s.tasks| - |s.tasks - Elems(ids)|
  {
    var e := Elems(ids);
    DistinctCard(ids);
    assert (s.tasks - e).Keys == s.tasks.Keys - e;
    assert s.tasks.Keys == (s.tasks.Keys - e) + e;
    assert |s.tasks.Keys| == |s.tasks.Keys - e| + |e|;
  }

  datatype Cleaned = Cleaned(store: Store, fs: FileSystem, count: nat)

  /** `cleanup_expired_tasks`: removes the retired tasks and their result
      files and, when any was removed, saves a snapshot. The count is the
      number removed. */
  function CleanupExpiredTasks(fs: FileSystem, s: Store, now: int, writable: bool): (r: Cleaned)
    requires Valid(s)
    ensures Valid(r.store)
    ensures forall id :: id in r.store.tasks <==> id in s.tasks && !Retired(s.tasks[id], now)
    ensures forall id :: id in r.store.tasks ==> r.store.tasks[id] == s.tasks[id]
    ensures r.count == 0 ==> r.store == s && r.fs == fs
    ensures r.count > 0 && writable ==> TasksPath in r.fs && r.fs[TasksPath] == SnapshotOf(r.store, now)
    ensures forall id :: id in s.tasks && Retired(s.tasks[id], now) ==> LoadResult(r.fs, id) == None
    ensures r.count == |s.tasks| - |r.store.tasks|
    ensures r.count > 0 <==> exists id :: id in s.tasks && Retired(s.tasks[id], now)
  {
    var ids := RetiredIds(s, s.order, now);
    var removed := RemoveEach(s, fs, ids);
    RemoveEachLaw(s, fs, ids);
    assert forall id :: id in s.tasks ==> id in Elems(s.order);
    assert Elems(ids) <= s.tasks.Keys;
    RemovedCount(s, ids);
    assert |ids| > 0 ==> ids[0] in ids;
    var files := if |ids| > 0 then SaveSnapshot(removed.fs, removed.store, now, writable).fs else removed.fs;
    assert forall id :: id in ids ==> ResultPath(id) !in files by {
      forall id | id in ids ensures ResultPath(id) !in files {
        ResultPathIsNotSnapshot(id);
      }
    }
    Cleaned(removed.store, files, |ids|)
  }

  /** After a cleanup no retired task is left, so a second cleanup at the
      same time removes nothing and changes nothing. */
  lemma CleanupSettles(fs: FileSystem, s: Store, now: int, writable: bool)
    requires Valid(s)
    ensures var r := CleanupExpiredTasks(fs, s, now, writable);
      CleanupExpiredTasks(r.fs, r.store, now, writable) == Cleaned(r.store, r.fs, 0)
  {
    var r := CleanupExpiredTasks(fs, s, now, writable);
    var ids := RetiredIds(r.store, r.store.order, now);
    assert forall id :: id in r.store.tasks ==> id in Elems(r.store.order);
  }

  // ---------------------------------------------------------------------
  // Status changes.

  datatype Persisted = Persisted(store: Store, fs: FileSystem)

  /** `on_task_status_change`: on COMPLETED the live task's joined result goes
      to its result file; a snapshot is saved in every case. */
  function OnStatusChange(fs: FileSystem, s: Store, id: Id, newStatus: Status, now: int, writable: bool): (r: Persisted)
    requires Valid(s)
    ensures Valid(r.store)
    ensures writable ==> TasksPath in r.fs && r.fs[TasksPath] == SnapshotOf(r.store, now)
    ensures newStatus != Completed ==> r.store == s
    ensures r.store == GetTask(s, id, now).store || r.store == s
  {
    var l := if newStatus == Completed then GetTask(s, id, now) else Lookup(s, None);
    var files := if l.task.Some? then SaveResult(fs, id, PartialResult(l.task.value), writable).fs else fs;
    Persisted(l.store, SaveSnapshot(files, l.store, now, writable).fs)
  }

  /** A live task's completion leaves its whole result readable from disk. */
  lemma CompletionSavesResult(fs: FileSystem, s: Store, id: Id, now: int)
    requires Valid(s) && id in s.tasks && !IsExpired(s, s.tasks[id], now)
    ensures LoadResult(OnStatusChange(fs, s, id, Completed, now, true).fs, id) == Some(PartialResult(s.tasks[id]))
  {
    ResultPathIsNotSnapshot(id);
  }
}
