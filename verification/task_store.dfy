/**
 * The in-memory job store: translation tasks keyed by id, with lazy TTL
 * expiry, eviction of the oldest tasks at capacity, append-only progress,
 * status transitions, listing, statistics and a non-overwriting restore.
 *
 * The store is an immutable value. Python's dict is a map plus its insertion
 * order (`order`), which the stable sorts of eviction and listing depend on.
 * The clock is the parameter `now` (seconds); fresh ids are parameters.
 */
module TaskStore {
  import opened Opt
  import opened Text
  import opened Seqs

  type Id = string

  datatype Status = Pending | Preparing | InProgress | Completed | Failed

  /** The enum's string value, as stored in snapshots and API responses. */
  function StatusValue(st: Status): string {
    match st
    case Pending => "pending"
    case Preparing => "preparing"
    case InProgress => "in_progress"
    case Completed => "completed"
    case Failed => "failed"
  }

  /** `TaskStatus(value)`: None where the enum constructor raises. */
  function StatusOf(v: string): (r: Option<Status>)
    ensures r.Some? ==> StatusValue(r.value) == v
  {
    if v == "pending" then Some(Pending)
    else if v == "preparing" then Some(Preparing)
    else if v == "in_progress" then Some(InProgress)
    else if v == "completed" then Some(Completed)
    else if v == "failed" then Some(Failed)
    else None
  }

  lemma StatusValueRoundTrip(st: Status)
    ensures StatusOf(StatusValue(st)) == Some(st)
  {
  }

  datatype Task = Task(
    id: Id,
    originalContent: string,
    chunks: seq<string>,
    translated: seq<string>,
    currentChunk: int,
    status: Status,
    createdAt: int,
    updatedAt: int,
    title: Option<string>,
    sourceUrl: Option<string>,
    domain: string,
    error: Option<string>,
    inputTokens: int,
    outputTokens: int,
    url: string)

  /** A task as the dataclass constructor builds it, stamped at `now`. */
  function NewTask(id: Id, content: string, chunks: seq<string>, title: Option<string>,
                   sourceUrl: Option<string>, domain: string, status: Status, url: string,
                   now: int): Task
  {
    Task(id, content, chunks, [], 0, status, now, now, title, sourceUrl, domain, None, 0, 0, url)
  }

  /** Percentage of chunks translated (integer arithmetic; see README). */
  function Progress(t: Task): (p: int)
    ensures |t.chunks| == 0 ==> p == 0
    ensures |t.chunks| > 0 && |t.translated| == |t.chunks| ==> p == 100
    ensures |t.translated| <= |t.chunks| ==> 0 <= p <= 100
    ensures p >= 0
  {
    if |t.chunks| == 0 then 0
    else
      PercentFacts(|t.translated|, |t.chunks|);
      (|t.translated| * 100) / |t.chunks|
  }

  lemma PercentFacts(a: nat, d: nat)
    requires d > 0
    ensures a * 100 / d >= 0
    ensures a <= d ==> a * 100 / d <= 100
    ensures a == d ==> a * 100 / d == 100
  {
    var p := a * 100;
    DivNonNegative(p, d);
    if a <= d {
      DivMonotone(p, d * 100, d);
      DivOfMultiple(d, 100);
    }
  }

  lemma DivNonNegative(p: nat, d: nat)
    requires d > 0
    ensures p / d >= 0
  {
  }

  lemma DivOfMultiple(d: nat, k: nat)
    requires d > 0
    ensures d * k / d == k
  {
    var q, r := d * k / d, d * k % d;
    assert q * d + r == d * k && 0 <= r < d;
    if q < k {
      MulLe(q + 1, k, d);
    } else if q > k {
      MulLe(k + 1, q, d);
    }
  }

  lemma ProgressMonotone(t: Task, u: Task)
    requires t.chunks == u.chunks && |t.translated| <= |u.translated|
    ensures Progress(t) <= Progress(u)
  {
    if |t.chunks| > 0 {
      MulLe(|t.translated|, |u.translated|, 100);
      DivMonotone(|t.translated| * 100, |u.translated| * 100, |t.chunks|);
    }
  }

  lemma DivMonotone(a: nat, b: nat, d: nat)
    requires a <= b && d > 0
    ensures a / d <= b / d
  {
    var qa, qb := a / d, b / d;
    assert qa * d + a % d == a;
    assert qb * d + b % d == b;
    if qa > qb {
      MulLe(qb + 1, qa, d);
    }
  }

  lemma MulLe(x: nat, y: nat, d: nat)
    requires x <= y
    ensures x * d <= y * d
  {
  }

  predicate IsComplete(t: Task) {
    |t.translated| >= |t.chunks|
  }

  /** The translated chunks so far, separated by blank lines. */
  function PartialResult(t: Task): string {
    Join("\n\n", t.translated)
  }

  lemma {:induction false} PartialResultAppend(t: Task, chunk: string)
    ensures PartialResult(t.(translated := t.translated + [chunk])) ==
      if t.translated == [] then chunk else PartialResult(t) + "\n\n" + chunk
  {
    JoinSnoc("\n\n", t.translated, chunk);
  }

  datatype Store = Store(tasks: map<Id, Task>, order: seq<Id>, ttlMinutes: int, maxEntries: int)

  /** `order` lists every key exactly once: the dict's insertion order. */
  predicate Valid(s: Store) {
    Distinct(s.order) && Elems(s.order) == s.tasks.Keys
  }

  function Empty(ttlMinutes: int, maxEntries: int): (s: Store)
    ensures Valid(s) && s.tasks == map[]
  {
    Store(map[], [], ttlMinutes, maxEntries)
  }

  lemma SizeIsOrderLength(s: Store)
    requires Valid(s)
    ensures |s.tasks| == |s.order|
  {
    DistinctCard(s.order);
    assert |s.tasks.Keys| == |s.tasks|;
  }

  function Min(a: int, b: int): int { if a <= b then a else b }
  function Max(a: int, b: int): int { if a >= b then a else b }

  /** A task expires once strictly more than the TTL has passed since creation. */
  predicate IsExpired(s: Store, t: Task, now: int) {
    now - t.createdAt > s.ttlMinutes * 60
  }

  /** Dict assignment: a new key goes to the end, an existing key keeps its place. */
  function Put(s: Store, id: Id, t: Task): (r: Store)
    requires Valid(s)
    ensures Valid(r)
    ensures r.tasks == s.tasks[id := t]
    ensures r.ttlMinutes == s.ttlMinutes && r.maxEntries == s.maxEntries
    ensures id in s.tasks ==> r.order == s.order
  {
    if id in s.tasks then s.(tasks := s.tasks[id := t])
    else
      assert Elems(s.order + [id]) == Elems(s.order) + {id};
      assert Distinct(s.order + [id]) by {
        forall i | 0 <= i < |s.order| ensures s.order[i] != id {
          assert s.order[i] in Elems(s.order);
        }
      }
      s.(tasks := s.tasks[id := t], order := s.order + [id])
  }

  lemma MapMinusCard(m: map<Id, Task>, drop: set<Id>)
    ensures drop <= m.Keys ==> |m - drop| == |m| - |drop|
  {
    if !(drop <= m.Keys) { return; }
    var rest := (m - drop).Keys;
    assert rest == m.Keys - drop;
    assert m.Keys == rest + drop;
    assert rest * drop == {};
    assert |m.Keys| == |rest| + |drop|;
    assert |(m - drop).Keys| == |m - drop|;
    assert |m.Keys| == |m|;
  }

  /** Deletes the given ids, keeping the order of the rest. */
  function RemoveIds(s: Store, drop: set<Id>): (r: Store)
    requires Valid(s)
    ensures Valid(r)
    ensures r.tasks == s.tasks - drop
    ensures r.ttlMinutes == s.ttlMinutes && r.maxEntries == s.maxEntries
    ensures drop <= s.tasks.Keys ==> |r.tasks| == |s.tasks| - |drop|
  {
    MapMinusCard(s.tasks, drop);
    assert (s.tasks - drop).Keys == s.tasks.Keys - drop;
    s.(tasks := s.tasks - drop, order := Without(s.order, drop))
  }

  /** `_cleanup_expired`: drops every expired task. */
  function CleanupExpired(s: Store, now: int): (r: Store)
    requires Valid(s)
    ensures Valid(r)
    ensures forall id :: id in r.tasks <==> id in s.tasks && !IsExpired(s, s.tasks[id], now)
    ensures forall id :: id in r.tasks ==> r.tasks[id] == s.tasks[id]
    ensures r.ttlMinutes == s.ttlMinutes && r.maxEntries == s.maxEntries
    ensures |r.tasks| <= |s.tasks|
  {
    var expired := set id | id in s.tasks && IsExpired(s, s.tasks[id], now);
    RemoveIds(s, expired)
  }

  /** The sort key of eviction: creation time. */
  function AgeKey(s: Store): Id -> int {
    id => if id in s.tasks then s.tasks[id].createdAt else 0
  }

  /** `sorted(...)[:max(1, n // 10)]` removes this many of `n` tasks. */
  function EvictionCount(n: nat): nat {
    Min(n, Max(1, n / 10))
  }

  /** `_ensure_capacity`: at or above the limit, the oldest tenth (at least
      one) is evicted; ties keep insertion order because the sort is stable. */
  function EnsureCapacity(s: Store): (r: Store)
    requires Valid(s)
    ensures Valid(r)
    ensures |s.tasks| < s.maxEntries ==> r == s
    ensures |s.tasks| >= s.maxEntries ==> |r.tasks| == |s.tasks| - EvictionCount(|s.tasks|)
    ensures r.tasks.Keys <= s.tasks.Keys
    ensures forall id :: id in r.tasks ==> r.tasks[id] == s.tasks[id]
    ensures forall x, y :: x in s.tasks && x !in r.tasks && y in r.tasks ==>
      s.tasks[x].createdAt <= s.tasks[y].createdAt
    ensures r.ttlMinutes == s.ttlMinutes && r.maxEntries == s.maxEntries
  {
    if |s.tasks| < s.maxEntries then s
    else
      var sorted := SortBy(s.order, AgeKey(s));
      SizeIsOrderLength(s);
      var k := EvictionCount(|s.tasks|);
      EvictionFacts(s, sorted, k);
      RemoveIds(s, Elems(sorted[..k]))
  }

  lemma EvictionFacts(s: Store, sorted: seq<Id>, k: nat)
    requires Valid(s)
    requires sorted == SortBy(s.order, AgeKey(s))
    requires k <= |s.order|
    ensures Elems(sorted[..k]) <= s.tasks.Keys
    ensures |Elems(sorted[..k])| == k
    ensures forall x, y :: x in Elems(sorted[..k]) && y in s.tasks && y !in Elems(sorted[..k]) ==>
      s.tasks[x].createdAt <= s.tasks[y].createdAt
  {
    PermutationSameElems(s.order, sorted);
    EvictedCount(s, sorted, k);
    EvictedOldest(s, sorted, k);
  }

  lemma EvictedCount(s: Store, sorted: seq<Id>, k: nat)
    requires Valid(s)
    requires sorted == SortBy(s.order, AgeKey(s))
    requires k <= |s.order|
    ensures |Elems(sorted[..k])| == k
  {
    PermutationKeepsDistinct(s.order, sorted);
    var pre := sorted[..k];
    assert Distinct(pre);
    DistinctCard(pre);
  }

  lemma EvictedOldest(s: Store, sorted: seq<Id>, k: nat)
    requires Valid(s)
    requires sorted == SortBy(s.order, AgeKey(s))
    requires k <= |s.order|
    ensures Elems(sorted[..k]) <= s.tasks.Keys
    ensures forall x, y :: x in Elems(sorted[..k]) && y in s.tasks && y !in Elems(sorted[..k]) ==>
      s.tasks[x].createdAt <= s.tasks[y].createdAt
  {
    PermutationSameElems(s.order, sorted);
    var pre := sorted[..k];
    forall x, y | x in Elems(pre) && y in s.tasks && y !in Elems(pre)
      ensures s.tasks[x].createdAt <= s.tasks[y].createdAt
    {
      assert y in Elems(sorted);
      SortedPrefixBelow(sorted, AgeKey(s), k, x, y);
    }
  }

  /** The store discipline shared by every create variant: clean up expired
      tasks, make room, then insert. */
  function Insert(s: Store, id: Id, t: Task, now: int): (r: Store)
    requires Valid(s)
    ensures Valid(r)
    ensures id in r.tasks && r.tasks[id] == t
    ensures forall other :: other in r.tasks && other != id ==>
      other in s.tasks && r.tasks[other] == s.tasks[other] && !IsExpired(s, s.tasks[other], now)
    ensures r.ttlMinutes == s.ttlMinutes && r.maxEntries == s.maxEntries
    ensures s.maxEntries >= 1 && |s.tasks| <= s.maxEntries ==> |r.tasks| <= s.maxEntries
  {
    InsertKeeps(s, id, t, now);
    InsertBound(s, id, t, now);
    Put(EnsureCapacity(CleanupExpired(s, now)), id, t)
  }

  lemma InsertKeeps(s: Store, id: Id, t: Task, now: int)
    requires Valid(s)
    ensures var r := Put(EnsureCapacity(CleanupExpired(s, now)), id, t);
      forall other :: other in r.tasks && other != id ==>
        other in s.tasks && r.tasks[other] == s.tasks[other] && !IsExpired(s, s.tasks[other], now)
  {
    var c := CleanupExpired(s, now);
    var e := EnsureCapacity(c);
    var r := Put(e, id, t);
    forall other | other in r.tasks && other != id
      ensures other in s.tasks && r.tasks[other] == s.tasks[other] && !IsExpired(s, s.tasks[other], now)
    {
      assert other in e.tasks && r.tasks[other] == e.tasks[other];
      assert other in c.tasks && e.tasks[other] == c.tasks[other];
    }
  }

  lemma InsertBound(s: Store, id: Id, t: Task, now: int)
    requires Valid(s)
    ensures s.maxEntries >= 1 && |s.tasks| <= s.maxEntries ==>
      |Put(EnsureCapacity(CleanupExpired(s, now)), id, t).tasks| <= s.maxEntries
  {
    var c := CleanupExpired(s, now);
    var e := EnsureCapacity(c);
    PutCard(e.tasks, id, t);
    CapacityBound(|s.tasks|, |c.tasks|, |e.tasks|, s.maxEntries);
  }

  /** Cleanup never grows the store, and eviction at the limit frees at least
      one slot, so a store within its limit stays within it after an insert. */
  lemma CapacityBound(n0: nat, n1: nat, n2: nat, max: int)
    requires n1 <= n0
    requires n1 < max ==> n2 == n1
    requires n1 >= max ==> n2 == n1 - EvictionCount(n1)
    ensures max >= 1 && n0 <= max ==> n2 + 1 <= max
  {
  }

  lemma PutCard(m: map<Id, Task>, id: Id, t: Task)
    ensures |m[id := t]| <= |m| + 1
  {
    assert m[id := t].Keys == m.Keys + {id};
    assert |m[id := t].Keys| == |m[id := t]|;
    assert |m.Keys| == |m|;
  }

  /** `create_task` and `create_task_with_id`: the id (a fresh uuid in the
      first) is a parameter; the task starts IN_PROGRESS. */
  function CreateTask(s: Store, id: Id, content: string, chunks: seq<string>, title: Option<string>,
                      sourceUrl: Option<string>, domain: string, now: int): (r: Store)
    requires Valid(s)
    ensures Valid(r)
    ensures id in r.tasks
    ensures r.tasks[id].status == InProgress && r.tasks[id].chunks == chunks
    ensures r.tasks[id].translated == [] && r.tasks[id].originalContent == content
    ensures r.tasks[id].createdAt == now
    ensures s.ttlMinutes >= 0 ==> !IsExpired(r, r.tasks[id], now)
    ensures forall other :: other in r.tasks && other != id ==>
      other in s.tasks && r.tasks[other] == s.tasks[other]
    ensures s.maxEntries >= 1 && |s.tasks| <= s.maxEntries ==> |r.tasks| <= s.maxEntries
  {
    Insert(s, id, NewTask(id, content, chunks, title, sourceUrl, domain, InProgress, "", now), now)
  }

  /** `create_task_pending`: no chunks yet; the worker prepares it later. */
  function CreateTaskPending(s: Store, id: Id, content: string, url: string, title: Option<string>,
                             sourceUrl: Option<string>, domain: string, now: int): (r: Store)
    requires Valid(s)
    ensures Valid(r)
    ensures id in r.tasks
    ensures r.tasks[id].status == Pending && r.tasks[id].chunks == [] && r.tasks[id].translated == []
    ensures r.tasks[id].originalContent == content && r.tasks[id].url == url
    ensures r.tasks[id].sourceUrl == sourceUrl && r.tasks[id].domain == domain
    ensures r.tasks[id].title == title && r.tasks[id].createdAt == now && r.tasks[id].error == None
    ensures forall other :: other in r.tasks && other != id ==>
      other in s.tasks && r.tasks[other] == s.tasks[other]
    ensures s.maxEntries >= 1 && |s.tasks| <= s.maxEntries ==> |r.tasks| <= s.maxEntries
  {
    Insert(s, id, NewTask(id, content, [], title, sourceUrl, domain, Pending, url, now), now)
  }

  datatype Lookup = Lookup(store: Store, task: Option<Task>)

  /** `get_task`: an expired task is deleted on the way and reported absent. */
  function GetTask(s: Store, id: Id, now: int): (r: Lookup)
    requires Valid(s)
    ensures Valid(r.store)
    ensures r.task.Some? <==> id in s.tasks && !IsExpired(s, s.tasks[id], now)
    ensures r.task.Some? ==> r.task.value == s.tasks[id]
    ensures r.store == s || (id in s.tasks && IsExpired(s, s.tasks[id], now))
    ensures r.store.tasks == if id in s.tasks && IsExpired(s, s.tasks[id], now)
                            then s.tasks - {id} else s.tasks
    ensures r.store.ttlMinutes == s.ttlMinutes && r.store.maxEntries == s.maxEntries
  {
    if id in s.tasks && IsExpired(s, s.tasks[id], now) then
      Lookup(RemoveIds(s, {id}), None)
    else if id in s.tasks then Lookup(s, Some(s.tasks[id]))
    else Lookup(s, None)
  }

  /** A second lookup at the same time sees the same answer and changes nothing. */
  lemma GetTaskSettles(s: Store, id: Id, now: int)
    requires Valid(s)
    ensures var r := GetTask(s, id, now);
      GetTask(r.store, id, now) == Lookup(r.store, r.task)
  {
  }

  datatype Updated = Updated(store: Store, ok: bool)

  /** Replaces the record of a present task; nothing else moves. */
  function Replace(s: Store, id: Id, t: Task): (r: Store)
    requires Valid(s) && id in s.tasks
    ensures Valid(r) && r.tasks == s.tasks[id := t] && r.order == s.order
    ensures r.ttlMinutes == s.ttlMinutes && r.maxEntries == s.maxEntries
  {
    Put(s, id, t)
  }

  /** The record `update_progress` leaves behind. */
  function Advance(t: Task, chunk: string, inTokens: int, outTokens: int, now: int): (u: Task)
    ensures u.translated == t.translated + [chunk]
    ensures u.currentChunk == |u.translated|
    ensures u.inputTokens == t.inputTokens + inTokens && u.outputTokens == t.outputTokens + outTokens
    ensures u.updatedAt == now
    ensures u.status == if IsComplete(u) then Completed else t.status
    ensures u.(translated := t.translated, currentChunk := t.currentChunk, inputTokens := t.inputTokens,
               outputTokens := t.outputTokens, updatedAt := t.updatedAt, status := t.status) == t
  {
    var tr := t.translated + [chunk];
    var u := t.(translated := tr, currentChunk := |tr|, inputTokens := t.inputTokens + inTokens,
                outputTokens := t.outputTokens + outTokens, updatedAt := now);
    if IsComplete(u) then u.(status := Completed) else u
  }

  /** `update_progress`: append-only; no expiry check; unknown id changes nothing. */
  function UpdateProgress(s: Store, id: Id, chunk: string, inTokens: int, outTokens: int, now: int): (r: Updated)
    requires Valid(s)
    ensures Valid(r.store)
    ensures r.ok <==> id in s.tasks
    ensures !r.ok ==> r.store == s
    ensures r.ok ==> (r.store.order == s.order &&
      r.store.tasks == s.tasks[id := Advance(s.tasks[id], chunk, inTokens, outTokens, now)])
  {
    if id in s.tasks then
      Updated(Replace(s, id, Advance(s.tasks[id], chunk, inTokens, outTokens, now)), true)
    else Updated(s, false)
  }

  /** One progress update per translated chunk, in order. */
  function ApplyProgress(s: Store, id: Id, outs: seq<string>, now: int): (r: Store)
    requires Valid(s)
    ensures Valid(r)
    decreases |outs|
  {
    if outs == [] then s
    else ApplyProgress(UpdateProgress(s, id, outs[0], 0, 0, now).store, id, outs[1..], now)
  }

  /** Appending chunk after chunk yields exactly their concatenation, and the
      task is COMPLETED at the end exactly when every chunk has a translation
      (or when it already was). */
  lemma ApplyProgressLaw(s: Store, id: Id, outs: seq<string>, now: int)
    requires Valid(s) && id in s.tasks
    ensures id in ApplyProgress(s, id, outs, now).tasks
    ensures var r := ApplyProgress(s, id, outs, now);
      var t, u := s.tasks[id], r.tasks[id];
      r.order == s.order &&
      u.translated == t.translated + outs &&
      u.chunks == t.chunks &&
      u.status == (if outs != [] && |t.translated| + |outs| >= |t.chunks| then Completed else t.status) &&
      (forall other :: other in s.tasks && other != id ==> other in r.tasks && r.tasks[other] == s.tasks[other])
  {
    ApplyProgressOthers(s, id, outs, now);
    ApplyProgressAppends(s, id, outs, now);
  }

  /** The updates leave the order and every other task alone. */
  lemma {:induction false} ApplyProgressOthers(s: Store, id: Id, outs: seq<string>, now: int)
    requires Valid(s) && id in s.tasks
    ensures var r := ApplyProgress(s, id, outs, now);
      && id in r.tasks && r.order == s.order
      && (forall other :: other in s.tasks && other != id ==> other in r.tasks && r.tasks[other] == s.tasks[other])
    decreases |outs|
  {
    if outs != [] {
      var s1 := UpdateProgress(s, id, outs[0], 0, 0, now).store;
      ApplyProgressOthers(s1, id, outs[1..], now);
    }
  }

  /** The task's translations grow by exactly `outs`, and it completes once
      they cover its chunks. */
  lemma {:induction false} ApplyProgressAppends(s: Store, id: Id, outs: seq<string>, now: int)
    requires Valid(s) && id in s.tasks
    ensures id in ApplyProgress(s, id, outs, now).tasks
    ensures var t, u := s.tasks[id], ApplyProgress(s, id, outs, now).tasks[id];
      && u.translated == t.translated + outs
      && u.chunks == t.chunks
      && u.status == (if outs != [] && |t.translated| + |outs| >= |t.chunks| then Completed else t.status)
    decreases |outs|
  {
    ApplyProgressOthers(s, id, outs, now);
    if outs != [] {
      var s1 := UpdateProgress(s, id, outs[0], 0, 0, now).store;
      var t, t1 := s.tasks[id], s1.tasks[id];
      assert t1 == Advance(t, outs[0], 0, 0, now);
      ApplyProgressAppends(s1, id, outs[1..], now);
      assert t.translated + [outs[0]] + outs[1..] == t.translated + outs;
    }
  }

  /** `mark_completed`. */
  function MarkCompleted(s: Store, id: Id, now: int): (r: Updated)
    requires Valid(s)
    ensures Valid(r.store)
    ensures r.ok <==> id in s.tasks
    ensures !r.ok ==> r.store == s
    ensures r.ok ==> (r.store.order == s.order &&
      r.store.tasks == s.tasks[id := s.tasks[id].(status := Completed, updatedAt := now)])
  {
    if id in s.tasks then Updated(Replace(s, id, s.tasks[id].(status := Completed, updatedAt := now)), true)
    else Updated(s, false)
  }

  /** `mark_failed`: the error is recorded even when it is empty. */
  function MarkFailed(s: Store, id: Id, error: string, now: int): (r: Updated)
    requires Valid(s)
    ensures Valid(r.store)
    ensures r.ok <==> id in s.tasks
    ensures !r.ok ==> r.store == s
    ensures r.ok ==> (r.store.order == s.order &&
      r.store.tasks == s.tasks[id := s.tasks[id].(status := Failed, error := Some(error), updatedAt := now)])
  {
    if id in s.tasks then
      Updated(Replace(s, id, s.tasks[id].(status := Failed, error := Some(error), updatedAt := now)), true)
    else Updated(s, false)
  }

  /** `set_task_status`: the error is replaced only by a non-empty one. */
  function SetTaskStatus(s: Store, id: Id, status: Status, error: Option<string>, now: int): (r: Updated)
    requires Valid(s)
    ensures Valid(r.store)
    ensures r.ok <==> id in s.tasks
    ensures !r.ok ==> r.store == s
    ensures r.ok ==> (r.store.order == s.order && id in r.store.tasks &&
      r.store.tasks[id].status == status && r.store.tasks[id].updatedAt == now &&
      r.store.tasks[id].error == (if Truthy(error) then error else s.tasks[id].error) &&
      r.store.tasks == s.tasks[id := r.store.tasks[id]] &&
      r.store.tasks[id].(status := s.tasks[id].status, updatedAt := s.tasks[id].updatedAt,
                         error := s.tasks[id].error) == s.tasks[id])
  {
    if id in s.tasks then
      var t := s.tasks[id];
      var u := t.(status := status, updatedAt := now, error := if Truthy(error) then error else t.error);
      Updated(Replace(s, id, u), true)
    else Updated(s, false)
  }

  /** The two dedicated transitions are `set_task_status` with a fixed status. */
  lemma MarkIsSetStatus(s: Store, id: Id, error: string, now: int)
    requires Valid(s)
    ensures MarkCompleted(s, id, now) == SetTaskStatus(s, id, Completed, None, now)
    ensures error != "" ==> MarkFailed(s, id, error, now) == SetTaskStatus(s, id, Failed, Some(error), now)
  {
  }

  /** `update_task_prepared`: content and chunks set, IN_PROGRESS, and the
      title filled only when the task has none. */
  function UpdateTaskPrepared(s: Store, id: Id, content: string, chunks: seq<string>,
                              title: Option<string>, now: int): (r: Updated)
    requires Valid(s)
    ensures Valid(r.store)
    ensures r.ok <==> id in s.tasks
    ensures !r.ok ==> r.store == s
    ensures r.ok ==> r.store.order == s.order && id in r.store.tasks
    ensures r.ok ==> (
      var t, u := s.tasks[id], r.store.tasks[id];
      u.originalContent == content && u.chunks == chunks && u.status == InProgress &&
      u.updatedAt == now &&
      u.title == (if Truthy(title) && !Truthy(t.title) then title else t.title) &&
      u.translated == t.translated && u.createdAt == t.createdAt && u.url == t.url &&
      r.store.tasks == s.tasks[id := u])
  {
    if id in s.tasks then
      var t := s.tasks[id];
      var u := t.(originalContent := content, chunks := chunks,
                  title := if Truthy(title) && !Truthy(t.title) then title else t.title,
                  status := InProgress, updatedAt := now);
      Updated(Replace(s, id, u), true)
    else Updated(s, false)
  }

  datatype Chunks = Chunks(store: Store, chunks: seq<string>)

  /** `get_pending_chunks`: the chunks after the translated prefix. */
  function GetPendingChunks(s: Store, id: Id, now: int): (r: Chunks)
    requires Valid(s)
    ensures r.store == GetTask(s, id, now).store
    ensures GetTask(s, id, now).task.None? ==> r.chunks == []
    ensures GetTask(s, id, now).task.Some? ==>
      var t := s.tasks[id];
      (|t.translated| <= |t.chunks| ==> |t.translated| + |r.chunks| == |t.chunks| &&
                                        t.chunks == t.chunks[..|t.translated|] + r.chunks) &&
      (|t.translated| >= |t.chunks| ==> r.chunks == [])
  {
    var l := GetTask(s, id, now);
    if l.task.None? then Chunks(l.store, [])
    else
      var t := l.task.value;
      Chunks(l.store, PySlice(t.chunks, |t.translated|, |t.chunks|))
  }

  /** A progress update consumes exactly the first pending chunk. */
  lemma PendingShrinks(s: Store, id: Id, chunk: string, now: int)
    requires Valid(s) && id in s.tasks && !IsExpired(s, s.tasks[id], now)
    requires |s.tasks[id].translated| < |s.tasks[id].chunks|
    ensures var s1 := UpdateProgress(s, id, chunk, 0, 0, now).store;
      GetPendingChunks(s1, id, now).chunks == GetPendingChunks(s, id, now).chunks[1..]
  {
  }

  /** After preparation a task with nothing translated has all its chunks pending. */
  lemma PreparedThenPending(s: Store, id: Id, content: string, chunks: seq<string>,
                            title: Option<string>, now: int)
    requires Valid(s) && id in s.tasks && !IsExpired(s, s.tasks[id], now)
    requires s.tasks[id].translated == []
    ensures var s1 := UpdateTaskPrepared(s, id, content, chunks, title, now).store;
      GetPendingChunks(s1, id, now).chunks == chunks
  {
  }

  datatype TextLookup = TextLookup(store: Store, text: Option<string>)

  /** `get_task_result`: a completed task's full text, or the partial text of
      an unfinished task that has at least one translated chunk. */
  function GetTaskResult(s: Store, id: Id, now: int): (r: TextLookup)
    requires Valid(s)
    ensures r.store == GetTask(s, id, now).store
    ensures r.text.Some? <==> (GetTask(s, id, now).task.Some? &&
      (s.tasks[id].status == Completed || s.tasks[id].translated != []))
    ensures r.text.Some? ==> r.text.value == PartialResult(s.tasks[id])
  {
    var l := GetTask(s, id, now);
    if l.task.None? then TextLookup(l.store, None)
    else
      var t := l.task.value;
      if t.status != Completed then
        TextLookup(l.store, if t.translated != [] then Some(PartialResult(t)) else None)
      else TextLookup(l.store, Some(PartialResult(t)))
  }

  /** `delete_task`: no expiry check. */
  function DeleteTask(s: Store, id: Id): (r: Updated)
    requires Valid(s)
    ensures Valid(r.store)
    ensures r.ok <==> id in s.tasks
    ensures r.store.tasks == s.tasks - {id}
    ensures !r.ok ==> r.store == s
  {
    if id in s.tasks then Updated(RemoveIds(s, {id}), true) else Updated(s, false)
  }

  lemma DeleteThenAbsent(s: Store, id: Id, now: int)
    requires Valid(s)
    ensures GetTask(DeleteTask(s, id).store, id, now).task == None
  {
  }

  /** `clear_all`: the number of tasks dropped. */
  function ClearAll(s: Store): (r: (Store, nat))
    requires Valid(s)
    ensures Valid(r.0) && r.0.tasks == map[] && r.1 == |s.tasks|
  {
    (Empty(s.ttlMinutes, s.maxEntries), |s.tasks|)
  }

  /** The stored tasks in insertion order (`self._cache.values()`). */
  function TasksInOrder(s: Store): (ts: seq<Task>)
    requires Valid(s)
    ensures |ts| == |s.order|
    ensures forall i :: 0 <= i < |ts| ==> s.order[i] in s.tasks && ts[i] == s.tasks[s.order[i]]
  {
    seq(|s.order|, i requires 0 <= i < |s.order| && Valid(s) => assert s.order[i] in Elems(s.order); s.tasks[s.order[i]])
  }

  function WithStatus(ts: seq<Task>, st: Status): (r: seq<Task>)
    ensures |r| <= |ts|
    ensures forall i :: 0 <= i < |r| ==> r[i].status == st
    ensures multiset(r) <= multiset(ts)
  {
    if ts == [] then []
    else
      assert ts == [ts[0]] + ts[1..];
      if ts[0].status == st then [ts[0]] + WithStatus(ts[1..], st) else WithStatus(ts[1..], st)
  }

  function CountStatus(ts: seq<Task>, st: Status): nat {
    |WithStatus(ts, st)|
  }

  lemma {:induction false} CountsAddUp(ts: seq<Task>)
    ensures CountStatus(ts, Pending) + CountStatus(ts, Preparing) + CountStatus(ts, InProgress) +
            CountStatus(ts, Completed) + CountStatus(ts, Failed) == |ts|
  {
    if ts != [] {
      CountsAddUp(ts[1..]);
      CountStatusCons(ts, Pending);
      CountStatusCons(ts, Preparing);
      CountStatusCons(ts, InProgress);
      CountStatusCons(ts, Completed);
      CountStatusCons(ts, Failed);
    }
  }

  lemma CountStatusCons(ts: seq<Task>, st: Status)
    requires ts != []
    ensures CountStatus(ts, st) == (if ts[0].status == st then 1 else 0) + CountStatus(ts[1..], st)
  {
  }

  lemma {:induction false} CountPositiveIffOccurs(ts: seq<Task>, st: Status)
    ensures CountStatus(ts, st) > 0 <==> exists i :: 0 <= i < |ts| && ts[i].status == st
  {
    if ts != [] {
      CountPositiveIffOccurs(ts[1..], st);
      if ts[0].status != st && exists i :: 0 <= i < |ts| && ts[i].status == st {
        var i :| 0 <= i < |ts| && ts[i].status == st;
        assert ts[1..][i - 1].status == st;
      }
    }
  }

  datatype Stats = Stats(total: nat, byStatus: map<Status, nat>, maxEntries: int, ttlMinutes: int)

  function CountOr0(m: map<Status, nat>, st: Status): nat {
    if st in m then m[st] else 0
  }

  /** Counts per status, listing only the statuses that occur. */
  function ByStatus(ts: seq<Task>): (m: map<Status, nat>)
    ensures forall st :: st in m <==> CountStatus(ts, st) > 0
    ensures forall st :: st in m ==> m[st] == CountStatus(ts, st)
  {
    map st | st in {Pending, Preparing, InProgress, Completed, Failed} && CountStatus(ts, st) > 0
      :: CountStatus(ts, st)
  }

  lemma ByStatusAddsUp(ts: seq<Task>)
    ensures var m := ByStatus(ts);
      CountOr0(m, Pending) + CountOr0(m, Preparing) + CountOr0(m, InProgress) +
      CountOr0(m, Completed) + CountOr0(m, Failed) == |ts|
  {
    var m := ByStatus(ts);
    assert forall st :: CountOr0(m, st) == CountStatus(ts, st);
    CountsAddUp(ts);
  }

  /** `get_stats`: only statuses that occur are listed; their counts add up
      to the total. */
  function GetStats(s: Store): (r: Stats)
    requires Valid(s)
    ensures r.total == |s.tasks|
    ensures forall st :: st in r.byStatus <==> exists id :: id in s.tasks && s.tasks[id].status == st
    ensures forall st :: st in r.byStatus ==> r.byStatus[st] == CountStatus(TasksInOrder(s), st)
    ensures CountOr0(r.byStatus, Pending) + CountOr0(r.byStatus, Preparing) +
            CountOr0(r.byStatus, InProgress) + CountOr0(r.byStatus, Completed) +
            CountOr0(r.byStatus, Failed) == r.total
    ensures r.maxEntries == s.maxEntries && r.ttlMinutes == s.ttlMinutes
  {
    var ts := TasksInOrder(s);
    var m := ByStatus(ts);
    SizeIsOrderLength(s);
    ByStatusAddsUp(ts);
    StatsOccurrence(s, ts, m);
    Stats(|s.tasks|, m, s.maxEntries, s.ttlMinutes)
  }

  lemma StatsOccurrence(s: Store, ts: seq<Task>, m: map<Status, nat>)
    requires Valid(s) && ts == TasksInOrder(s)
    requires forall st :: st in m <==> CountStatus(ts, st) > 0
    ensures forall st :: st in m <==> exists id :: id in s.tasks && s.tasks[id].status == st
  {
    forall st ensures st in m <==> exists id :: id in s.tasks && s.tasks[id].status == st {
      CountPositiveIffOccurs(ts, st);
      OccursInOrder(s, st);
    }
  }

  /** A status occurs among the stored tasks exactly when it occurs in the
      listing order. */
  lemma OccursInOrder(s: Store, st: Status)
    requires Valid(s)
    ensures var ts := TasksInOrder(s);
      (exists i :: 0 <= i < |ts| && ts[i].status == st) <==>
      (exists id :: id in s.tasks && s.tasks[id].status == st)
  {
    var ts := TasksInOrder(s);
    if exists id :: id in s.tasks && s.tasks[id].status == st {
      var id :| id in s.tasks && s.tasks[id].status == st;
      assert id in Elems(s.order);
      var i :| 0 <= i < |s.order| && s.order[i] == id;
      assert ts[i].status == st;
    }
    if exists i :: 0 <= i < |ts| && ts[i].status == st {
      var i :| 0 <= i < |ts| && ts[i].status == st;
      assert s.tasks[s.order[i]].status == st;
    }
  }

  /** The title shown in listings: the task's title, else the first 50
      characters of its content with "..." when it was cut. */
  function DisplayTitle(t: Task): (r: string)
    ensures Truthy(t.title) ==> r == t.title.value
    ensures !Truthy(t.title) && |t.originalContent| <= 50 ==> r == t.originalContent
    ensures !Truthy(t.title) && |t.originalContent| > 50 ==>
      r == t.originalContent[..50] + "..." && |r| == 53
  {
    if Truthy(t.title) then t.title.value
    else
      var preview := PySlice(t.originalContent, 0, 50);
      if |t.originalContent| > 50 then preview + "..." else preview
  }

  datatype Metadata = Metadata(
    id: Id, title: string, status: Status, progress: int, domain: string,
    createdAt: int, updatedAt: int, errorMessage: Option<string>,
    totalChunks: nat, completedChunks: nat)

  function MetadataOf(t: Task): Metadata {
    Metadata(t.id, DisplayTitle(t), t.status, Progress(t), t.domain, t.createdAt, t.updatedAt,
             t.error, |t.chunks|, |t.translated|)
  }

  datatype MetadataLookup = MetadataLookup(store: Store, metadata: Option<Metadata>)

  /** `get_task_metadata`: like `get_task`, reporting counts instead of text. */
  function GetTaskMetadata(s: Store, id: Id, now: int): (r: MetadataLookup)
    requires Valid(s)
    ensures r.store == GetTask(s, id, now).store
    ensures r.metadata.Some? <==> GetTask(s, id, now).task.Some?
    ensures r.metadata.Some? ==>
      var t, m := s.tasks[id], r.metadata.value;
      m.status == t.status && m.totalChunks == |t.chunks| && m.completedChunks == |t.translated| &&
      m.title == DisplayTitle(t) && m.progress == Progress(t) && m.errorMessage == t.error
  {
    var l := GetTask(s, id, now);
    MetadataLookup(l.store, if l.task.Some? then Some(MetadataOf(l.task.value)) else None)
  }

  datatype ListItem = ListItem(id: Id, title: string, status: Status, progress: int,
                               domain: string, createdAt: int)

  datatype Page = Page(items: seq<ListItem>, total: nat, hasMore: bool)

  function ItemOf(t: Task): ListItem {
    ListItem(t.id, DisplayTitle(t), t.status, Progress(t), t.domain, t.createdAt)
  }

  /** Descending creation time, as an ascending key for the stable sort. */
  function NewestFirst(t: Task): int {
    -t.createdAt
  }

  /** The tasks a listing draws from: all of them, or those with the
      filtered status, in insertion order. */
  function Source(s: Store, filter: Option<Status>): (r: seq<Task>)
    requires Valid(s)
  {
    if filter.Some? then WithStatus(TasksInOrder(s), filter.value) else TasksInOrder(s)
  }

  /** The filtered tasks, newest first. */
  function Listed(s: Store, filter: Option<Status>): (r: seq<Task>)
    requires Valid(s)
    ensures SortedBy(r, NewestFirst)
    ensures multiset(r) == multiset(Source(s, filter))
    ensures |r| == |Source(s, filter)|
  {
    SortBy(Source(s, filter), NewestFirst)
  }

  /** Equal creation times keep insertion order: the tasks created at any
      one time appear in the listing as they do in the store. */
  lemma ListedKeepsTies(s: Store, filter: Option<Status>, k: int)
    requires Valid(s)
    ensures WithKey(Listed(s, filter), NewestFirst, k) == WithKey(Source(s, filter), NewestFirst, k)
  {
    var src := Source(s, filter);
    SortByStable(src, NewestFirst, k);
  }

  /** The listing holds every task (or every task with the filtered status)
      once, and nothing else. */
  lemma ListedContents(s: Store, filter: Option<Status>)
    requires Valid(s)
    ensures |Listed(s, filter)| == if filter.Some? then CountStatus(TasksInOrder(s), filter.value) else |s.tasks|
  {
    SizeIsOrderLength(s);
  }

  /** A filtered listing holds only tasks with the filtered status. */
  lemma ListedStatus(s: Store, st: Status)
    requires Valid(s)
    ensures forall i :: 0 <= i < |Listed(s, Some(st))| ==> Listed(s, Some(st))[i].status == st
  {
    SortedKeepsStatus(Source(s, Some(st)), Listed(s, Some(st)), st);
  }

  lemma SortedKeepsStatus(filtered: seq<Task>, sorted: seq<Task>, st: Status)
    requires forall i :: 0 <= i < |filtered| ==> filtered[i].status == st
    requires multiset(sorted) == multiset(filtered)
    ensures forall i :: 0 <= i < |sorted| ==> sorted[i].status == st
  {
    forall i | 0 <= i < |sorted| ensures sorted[i].status == st {
      assert sorted[i] in multiset(filtered);
      var j :| 0 <= j < |filtered| && filtered[j] == sorted[i];
    }
  }

  /** `get_tasks_list`: no expiry check; filter, sort newest first (ties in
      insertion order), then take the slice `[offset:offset+limit]`. */
  function GetTasksList(s: Store, offset: int, limit: int, filter: Option<Status>): (r: Page)
    requires Valid(s)
    ensures r.items == Items(PySlice(Listed(s, filter), offset, offset + limit))
    ensures r.total == |Source(s, filter)|
    ensures r.hasMore <==> offset + limit < r.total
  {
    var sorted := Listed(s, filter);
    Page(Items(PySlice(sorted, offset, offset + limit)), |sorted|, offset + limit < |sorted|)
  }

  /** The page's total counts the tasks the filter admits. */
  lemma GetTasksListTotal(s: Store, offset: int, limit: int, filter: Option<Status>)
    requires Valid(s)
    ensures GetTasksList(s, offset, limit, filter).total
              == if filter.Some? then CountStatus(TasksInOrder(s), filter.value) else |s.tasks|
  {
    SizeIsOrderLength(s);
  }

  /** The page is newest first. */
  lemma GetTasksListSorted(s: Store, offset: int, limit: int, filter: Option<Status>)
    requires Valid(s)
    ensures var r := GetTasksList(s, offset, limit, filter);
      forall i, j :: 0 <= i < j < |r.items| ==> r.items[i].createdAt >= r.items[j].createdAt
  {
    PageOfSorted(Listed(s, filter), offset, offset + limit);
  }

  /** A filtered page holds only tasks with the filtered status. */
  lemma GetTasksListStatus(s: Store, offset: int, limit: int, st: Status)
    requires Valid(s)
    ensures var r := GetTasksList(s, offset, limit, Some(st));
      forall i :: 0 <= i < |r.items| ==> r.items[i].status == st
  {
    ListedStatus(s, st);
    PageOfStatus(Listed(s, Some(st)), offset, offset + limit, st);
  }

  lemma PageOfSorted(sorted: seq<Task>, a: int, b: int)
    requires SortedBy(sorted, NewestFirst)
    ensures var items := Items(PySlice(sorted, a, b));
      forall i, j :: 0 <= i < j < |items| ==> items[i].createdAt >= items[j].createdAt
  {
    PageSorted(sorted, a, b);
    ItemsSorted(PySlice(sorted, a, b));
  }

  lemma PageOfStatus(sorted: seq<Task>, a: int, b: int, st: Status)
    requires forall i :: 0 <= i < |sorted| ==> sorted[i].status == st
    ensures var items := Items(PySlice(sorted, a, b));
      forall i :: 0 <= i < |items| ==> items[i].status == st
  {
    PageStatus(sorted, a, b, st);
    ItemsStatus(PySlice(sorted, a, b), st);
  }

  lemma ItemsSorted(page: seq<Task>)
    requires forall i, j :: 0 <= i < j < |page| ==> page[i].createdAt >= page[j].createdAt
    ensures forall i, j :: 0 <= i < j < |Items(page)| ==> Items(page)[i].createdAt >= Items(page)[j].createdAt
  {
  }

  lemma ItemsStatus(page: seq<Task>, st: Status)
    requires forall i :: 0 <= i < |page| ==> page[i].status == st
    ensures forall i :: 0 <= i < |Items(page)| ==> Items(page)[i].status == st
  {
  }

  /** The page has `limit` items, or fewer at the end of the listing. */
  lemma GetTasksListLength(s: Store, offset: int, limit: int, filter: Option<Status>)
    requires Valid(s) && 0 <= offset && 0 <= limit
    ensures var r := GetTasksList(s, offset, limit, filter);
      |r.items| == Min(limit, Max(0, r.total - offset))
  {
    PageLength(Listed(s, filter), offset, limit);
  }

  function Items(page: seq<Task>): (r: seq<ListItem>)
    ensures |r| == |page|
    ensures forall i :: 0 <= i < |page| ==> r[i] == ItemOf(page[i])
  {
    seq(|page|, i requires 0 <= i < |page| => ItemOf(page[i]))
  }

  lemma PageLength<T>(xs: seq<T>, offset: int, limit: int)
    ensures 0 <= offset && 0 <= limit ==>
      |PySlice(xs, offset, offset + limit)| == Min(limit, Max(0, |xs| - offset))
  {
  }

  lemma PageSorted(sorted: seq<Task>, a: int, b: int)
    requires SortedBy(sorted, NewestFirst)
    ensures var page := PySlice(sorted, a, b);
      forall i, j :: 0 <= i < j < |page| ==> page[i].createdAt >= page[j].createdAt
  {
    var lo := SliceBound(a, |sorted|);
    var hi := SliceBound(b, |sorted|);
    var page := PySlice(sorted, a, b);
    if lo < hi {
      assert page == sorted[lo..hi];
      forall i, j | 0 <= i < j < |page| ensures page[i].createdAt >= page[j].createdAt {
        assert NewestFirst(sorted[lo + i]) <= NewestFirst(sorted[lo + j]);
      }
    }
  }

  lemma PageStatus(sorted: seq<Task>, a: int, b: int, st: Status)
    requires forall i :: 0 <= i < |sorted| ==> sorted[i].status == st
    ensures var page := PySlice(sorted, a, b);
      forall i :: 0 <= i < |page| ==> page[i].status == st
  {
    var lo := SliceBound(a, |sorted|);
    var hi := SliceBound(b, |sorted|);
    var page := PySlice(sorted, a, b);
    if lo < hi {
      assert page == sorted[lo..hi];
      forall i | 0 <= i < |page| ensures page[i].status == st {
        assert page[i] == sorted[lo + i];
      }
    }
  }

  /** The listing's total agrees with the statistics. */
  lemma ListTotalIsStatsCount(s: Store, offset: int, limit: int, st: Status)
    requires Valid(s)
    ensures GetTasksList(s, offset, limit, Some(st)).total == CountOr0(GetStats(s).byStatus, st)
  {
    GetTasksListTotal(s, offset, limit, Some(st));
  }

  datatype Restored = Restored(store: Store, count: nat)

  function IdsOf(incoming: seq<(Id, Task)>): set<Id> {
    set i | 0 <= i < |incoming| :: incoming[i].0
  }

  lemma IdsOfCons(incoming: seq<(Id, Task)>)
    requires incoming != []
    ensures IdsOf(incoming) == {incoming[0].0} + IdsOf(incoming[1..])
  {
    forall x | x in IdsOf(incoming) ensures x in {incoming[0].0} + IdsOf(incoming[1..]) {
      var i :| 0 <= i < |incoming| && incoming[i].0 == x;
      if i > 0 { assert incoming[1..][i - 1].0 == x; }
    }
  }

  lemma PutNewCard(m: map<Id, Task>, id: Id, t: Task)
    ensures id !in m ==> |m[id := t]| == |m| + 1
  {
    assert m[id := t].Keys == m.Keys + {id};
    assert |m[id := t].Keys| == |m[id := t]|;
    assert |m.Keys| == |m|;
  }

  lemma UnionCard(known: set<Id>, more: set<Id>)
    ensures |known + more| == |known| + |more - known|
  {
    assert known + more == known + (more - known);
    assert known * (more - known) == {};
  }

  /** `restore_tasks`: inserts only ids the store lacks, never overwrites, and
      counts the insertions. */
  function RestoreTasks(s: Store, incoming: seq<(Id, Task)>): (r: Restored)
    requires Valid(s)
    ensures Valid(r.store)
    ensures r.store.tasks.Keys == s.tasks.Keys + IdsOf(incoming)
    ensures forall id :: id in s.tasks ==> r.store.tasks[id] == s.tasks[id]
    ensures forall id :: id in r.store.tasks && id !in s.tasks ==>
      exists i :: 0 <= i < |incoming| && incoming[i] == (id, r.store.tasks[id])
    ensures r.store.ttlMinutes == s.ttlMinutes && r.store.maxEntries == s.maxEntries
    decreases |incoming|
  {
    if incoming == [] then
      assert IdsOf(incoming) == {};
      Restored(s, 0)
    else
      var id, t := incoming[0].0, incoming[0].1;
      var s1 := if id in s.tasks then s else Put(s, id, t);
      var rest := RestoreTasks(s1, incoming[1..]);
      IdsOfCons(incoming);
      assert s1.tasks.Keys == s.tasks.Keys + {id};
      RestoreProvenance(s, s1, incoming, rest.store);
      Restored(rest.store, rest.count + (if id in s.tasks then 0 else 1))
  }

  lemma RestoreProvenance(s: Store, s1: Store, incoming: seq<(Id, Task)>, r: Store)
    requires incoming != []
    requires s1.tasks == if incoming[0].0 in s.tasks then s.tasks else s.tasks[incoming[0].0 := incoming[0].1]
    requires forall id :: id in s1.tasks ==> id in r.tasks && r.tasks[id] == s1.tasks[id]
    requires forall id :: id in r.tasks && id !in s1.tasks ==>
      exists i :: 0 <= i < |incoming[1..]| && incoming[1..][i] == (id, r.tasks[id])
    ensures forall id :: id in r.tasks && id !in s.tasks ==>
      exists i :: 0 <= i < |incoming| && incoming[i] == (id, r.tasks[id])
  {
    forall x | x in r.tasks && x !in s.tasks
      ensures exists i :: 0 <= i < |incoming| && incoming[i] == (x, r.tasks[x])
    {
      if x in s1.tasks {
        assert incoming[0] == (x, r.tasks[x]);
      } else {
        var i :| 0 <= i < |incoming[1..]| && incoming[1..][i] == (x, r.tasks[x]);
        assert incoming[i + 1] == (x, r.tasks[x]);
      }
    }
  }

  /** The restore count is exactly how much the store grew. */
  lemma {:induction false} RestoreCountIsGrowth(s: Store, incoming: seq<(Id, Task)>)
    requires Valid(s)
    ensures RestoreTasks(s, incoming).count == |RestoreTasks(s, incoming).store.tasks| - |s.tasks|
    decreases |incoming|
  {
    if incoming != [] {
      var id, t := incoming[0].0, incoming[0].1;
      var s1 := if id in s.tasks then s else Put(s, id, t);
      RestoreCountIsGrowth(s1, incoming[1..]);
      PutNewCard(s.tasks, id, t);
    }
  }

  /** The restore count is the number of distinct incoming ids the store lacked. */
  lemma RestoreCountsNewIds(s: Store, incoming: seq<(Id, Task)>)
    requires Valid(s)
    ensures RestoreTasks(s, incoming).count == |IdsOf(incoming) - s.tasks.Keys|
  {
    RestoreCountIsGrowth(s, incoming);
    var r := RestoreTasks(s, incoming).store;
    UnionCard(s.tasks.Keys, IdsOf(incoming));
    assert |r.tasks.Keys| == |r.tasks| && |s.tasks.Keys| == |s.tasks|;
  }
}
