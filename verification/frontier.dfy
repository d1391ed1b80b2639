/**
 * The crawl loop both scripts share: a FIFO queue of `{ url, depth }` tasks
 * seeded with the start URL at depth 0, a set of visited keys (normalised
 * URLs), and one record per processed page. A task whose key was seen is
 * skipped; otherwise the page is visited, its key marked, its record pushed,
 * and, when the page did not fail and lies above the depth limit, every link
 * not in the visited set is queued one level deeper. The loop stops when the
 * queue is empty or the page limit is reached. The page step itself (fetch,
 * parse, record) is the parameter `visit`, and the key function `key`.
 */
module Frontier {
  import Seqs

  datatype Task = Task(url: string, depth: int)

  /** What visiting one page yields: its record, whether it failed (no links
      are followed from it), and the links it offers. */
  datatype Visit<R> = Visit(record: R, failed: bool, next: seq<string>)

  datatype Limits = Limits(maxDepth: int, maxPages: int)

  /** The loop state: the queue, the visited keys, the records pushed, and the
      tasks processed (one per record). */
  datatype State<R> = State(queue: seq<Task>, seen: set<string>, records: seq<R>, visited: seq<Task>)

  function Start<R>(start: string): State<R> {
    State([Task(start, 0)], {}, [], [])
  }

  /** The loop condition `queue.length && pages.length < maxPages`. */
  predicate Running<R>(lim: Limits, s: State<R>) {
    s.queue != [] && |s.records| < lim.maxPages
  }

  /** A processed page whose links are queued: it did not fail and lies above
      the depth limit. */
  predicate Expands<R>(lim: Limits, visit: string -> Visit<R>, t: Task) {
    !visit(t.url).failed && t.depth < lim.maxDepth
  }

  /** The tasks queued for the links of a page at `depth`: one level deeper,
      for every link not in `seen`, in order. */
  function Enqueue(next: seq<string>, seen: set<string>, depth: int): (r: seq<Task>)
    ensures forall q :: q in r ==> q.depth == depth + 1 && q.url in next && q.url !in seen
    ensures forall n :: n in next && n !in seen ==> Task(n, depth + 1) in r
  {
    var unseen := Seqs.Filter(next, n => n !in seen);
    var r := Seqs.Map(unseen, n => Task(n, depth + 1));
    assert forall q :: q in r ==> q.depth == depth + 1 && q.url in unseen by {
      forall q | q in r ensures q.depth == depth + 1 && q.url in unseen {
        Seqs.MapMember(unseen, n => Task(n, depth + 1), q);
      }
    }
    assert forall n :: n in unseen ==> Task(n, depth + 1) in r by {
      forall n | n in unseen ensures Task(n, depth + 1) in r {
        Seqs.MapMember(unseen, n => Task(n, depth + 1), Task(n, depth + 1));
      }
    }
    r
  }

  /** One iteration of the loop body. */
  function Step<R>(lim: Limits, visit: string -> Visit<R>, key: string -> string, s: State<R>): State<R>
    requires s.queue != []
  {
    var t := s.queue[0];
    var k := key(t.url);
    if k in s.seen then s.(queue := s.queue[1..])
    else
      var v := visit(t.url);
      var seen := s.seen + {k};
      var more := if Expands(lim, visit, t) then Enqueue(v.next, seen, t.depth) else [];
      State(s.queue[1..] + more, seen, s.records + [v.record], s.visited + [t])
  }

  /** Pages the limit still allows. */
  function Room<R>(lim: Limits, s: State<R>): nat {
    if |s.records| < lim.maxPages then lim.maxPages - |s.records| else 0
  }

  /** The whole loop from state `s`. Each iteration either pushes a record
      (so the page limit gets closer) or drops a task. */
  function Run<R>(lim: Limits, visit: string -> Visit<R>, key: string -> string, s: State<R>): State<R>
    decreases Room(lim, s), |s.queue|
  {
    if Running(lim, s) then Run(lim, visit, key, Step(lim, visit, key, s)) else s
  }

  // ---------------------------------------------------------------------
  // Invariants of the loop, each with the lemma that one step keeps it.
  // ---------------------------------------------------------------------

  /** The keys of a sequence of tasks. */
  function Keys(key: string -> string, ts: seq<Task>): (r: set<string>)
    decreases |ts|
  {
    if ts == [] then {} else Keys(key, ts[..|ts| - 1]) + {key(ts[|ts| - 1].url)}
  }

  lemma {:induction false} KeysMember(key: string -> string, ts: seq<Task>, k: string)
    ensures k in Keys(key, ts) <==> exists i :: 0 <= i < |ts| && key(ts[i].url) == k
    decreases |ts|
  {
    if ts != [] {
      var init := ts[..|ts| - 1];
      KeysMember(key, init, k);
      if exists i :: 0 <= i < |init| && key(init[i].url) == k {
        var i :| 0 <= i < |init| && key(init[i].url) == k;
        assert ts[i] == init[i];
      }
      if exists i :: 0 <= i < |ts| && key(ts[i].url) == k {
        var i :| 0 <= i < |ts| && key(ts[i].url) == k;
        if i < |init| {
          assert init[i] == ts[i];
        }
      }
    }
  }

  /** The visited set holds exactly the keys of the processed tasks, and no
      two processed tasks share a key. */
  ghost predicate SeenInv<R>(key: string -> string, s: State<R>) {
    && s.seen == Keys(key, s.visited)
    && forall i, j :: 0 <= i < j < |s.visited| ==> key(s.visited[i].url) != key(s.visited[j].url)
  }

  lemma StepSeen<R>(lim: Limits, visit: string -> Visit<R>, key: string -> string, s: State<R>)
    requires s.queue != [] && SeenInv(key, s)
    ensures SeenInv(key, Step(lim, visit, key, s))
  {
    var t := s.queue[0];
    if key(t.url) !in s.seen {
      var s' := Step(lim, visit, key, s);
      assert s'.visited == s.visited + [t] && s'.seen == s.seen + {key(t.url)};
      assert s'.visited[..|s'.visited| - 1] == s.visited;
      assert Keys(key, s'.visited) == s.seen + {key(t.url)};
      forall i | 0 <= i < |s.visited| ensures key(s.visited[i].url) != key(t.url) {
        KeysMember(key, s.visited, key(s.visited[i].url));
      }
    }
  }

  /** A record per processed task, in the same order. */
  ghost predicate RecordsInv<R>(visit: string -> Visit<R>, s: State<R>) {
    |s.records| == |s.visited| && forall i :: 0 <= i < |s.visited| ==> s.records[i] == visit(s.visited[i].url).record
  }

  lemma StepRecords<R>(lim: Limits, visit: string -> Visit<R>, key: string -> string, s: State<R>)
    requires s.queue != [] && RecordsInv(visit, s)
    ensures RecordsInv(visit, Step(lim, visit, key, s))
  {
  }

  /** Never more records than the page limit allows. */
  ghost predicate BoundInv<R>(lim: Limits, s: State<R>) {
    |s.records| <= lim.maxPages || s.records == []
  }

  /** The depth rule: the start is at depth 0, every other task at a depth
      between 1 and `maxDepth`. */
  predicate DepthOk(lim: Limits, t: Task) {
    t.depth == 0 || 1 <= t.depth <= lim.maxDepth
  }

  ghost predicate DepthInv<R>(lim: Limits, s: State<R>) {
    && (forall i :: 0 <= i < |s.queue| ==> DepthOk(lim, s.queue[i]))
    && (forall i :: 0 <= i < |s.visited| ==> DepthOk(lim, s.visited[i]))
  }

  lemma StepDepth<R>(lim: Limits, visit: string -> Visit<R>, key: string -> string, s: State<R>)
    requires s.queue != [] && DepthInv(lim, s)
    ensures DepthInv(lim, Step(lim, visit, key, s))
  {
    var t := s.queue[0];
    var s' := Step(lim, visit, key, s);
    assert DepthOk(lim, t);
    forall i | 0 <= i < |s'.queue| ensures DepthOk(lim, s'.queue[i]) {
      if i < |s.queue| - 1 {
        assert s'.queue[i] == s.queue[i + 1];
      } else {
        assert s'.queue[i] in s'.queue[|s.queue| - 1..];
      }
    }
  }

  /** Depths never decrease along a sequence of tasks. */
  predicate Sorted(ts: seq<Task>) {
    forall i, j :: 0 <= i <= j < |ts| ==> ts[i].depth <= ts[j].depth
  }

  /**
   * Breadth-first order: the processed tasks and the queue are sorted by
   * depth, the queue spans at most two adjacent depths, and nothing processed
   * is deeper than the head of the queue.
   */
  ghost predicate BfsInv<R>(s: State<R>) {
    BfsOrder(s.visited, s.queue)
  }

  predicate BfsOrder(visited: seq<Task>, queue: seq<Task>) {
    && Sorted(visited)
    && Sorted(queue)
    && (queue != [] ==> queue[|queue| - 1].depth <= queue[0].depth + 1)
    && (queue != [] && visited != [] ==> visited[|visited| - 1].depth <= queue[0].depth)
  }

  /** Dropping the head of a breadth-first queue keeps it one. */
  lemma PopSorted(q: seq<Task>)
    requires q != [] && Sorted(q) && q[|q| - 1].depth <= q[0].depth + 1
    ensures Sorted(q[1..])
    ensures q[1..] != [] ==> q[0].depth <= q[1].depth && q[|q| - 1].depth <= q[1].depth + 1
  {
  }

  /** Queueing tasks one level below the popped head keeps a breadth-first
      queue one. */
  lemma PushSorted(q: seq<Task>, more: seq<Task>)
    requires q != [] && Sorted(q) && q[|q| - 1].depth <= q[0].depth + 1
    requires forall i :: 0 <= i < |more| ==> more[i].depth == q[0].depth + 1
    ensures Sorted(q[1..] + more)
    ensures q[1..] + more != [] ==>
              q[0].depth <= (q[1..] + more)[0].depth && (q[1..] + more)[|q[1..] + more| - 1].depth <= (q[1..] + more)[0].depth + 1
  {
    var r := q[1..] + more;
    forall i, j | 0 <= i <= j < |r| ensures r[i].depth <= r[j].depth {
      if j < |q| - 1 {
        assert r[i] == q[i + 1] && r[j] == q[j + 1];
      } else if i < |q| - 1 {
        assert r[i] == q[i + 1] && r[j] == more[j - |q| + 1];
      } else {
        assert r[i] == more[i - |q| + 1] && r[j] == more[j - |q| + 1];
      }
    }
    if r != [] {
      if |q| > 1 {
        assert r[0] == q[1];
      } else {
        assert r[0] == more[0];
      }
      if more != [] {
        assert r[|r| - 1] == more[|more| - 1];
      } else {
        assert r[|r| - 1] == q[|q| - 1];
      }
    }
  }

  /** Appending a task no shallower than the last processed one keeps the
      processed tasks sorted. */
  lemma AppendSorted(v: seq<Task>, t: Task)
    requires Sorted(v) && (v != [] ==> v[|v| - 1].depth <= t.depth)
    ensures Sorted(v + [t])
  {
    var r := v + [t];
    forall i, j | 0 <= i <= j < |r| ensures r[i].depth <= r[j].depth {
      if j < |v| {
        assert r[i] == v[i] && r[j] == v[j];
      } else if i < |v| {
        assert r[i] == v[i] && v[i].depth <= v[|v| - 1].depth;
      }
    }
  }

  /** Dropping an already-seen head keeps the order. */
  lemma BfsDrop(visited: seq<Task>, queue: seq<Task>)
    requires queue != [] && BfsOrder(visited, queue)
    ensures BfsOrder(visited, queue[1..])
  {
    PopSorted(queue);
  }

  /** Processing the head and queueing tasks one level below it keeps the
      order. */
  lemma BfsPush(visited: seq<Task>, queue: seq<Task>, more: seq<Task>)
    requires queue != [] && BfsOrder(visited, queue)
    requires forall i :: 0 <= i < |more| ==> more[i].depth == queue[0].depth + 1
    ensures BfsOrder(visited + [queue[0]], queue[1..] + more)
  {
    PushSorted(queue, more);
    AppendSorted(visited, queue[0]);
  }

  lemma StepBfs<R>(lim: Limits, visit: string -> Visit<R>, key: string -> string, s: State<R>)
    requires s.queue != [] && BfsInv(s)
    ensures BfsInv(Step(lim, visit, key, s))
  {
    var t := s.queue[0];
    var s' := Step(lim, visit, key, s);
    if key(t.url) in s.seen {
      BfsDrop(s.visited, s.queue);
      assert s'.queue == s.queue[1..] && s'.visited == s.visited;
    } else {
      var more := if Expands(lim, visit, t) then Enqueue(visit(t.url).next, s.seen + {key(t.url)}, t.depth) else [];
      assert forall i :: 0 <= i < |more| ==> more[i].depth == t.depth + 1 by {
        forall i | 0 <= i < |more| ensures more[i].depth == t.depth + 1 {
          assert more[i] in more;
        }
      }
      BfsPush(s.visited, s.queue, more);
      assert s'.queue == s.queue[1..] + more && s'.visited == s.visited + [t];
    }
  }

  /** The loop starts from the start URL: before the first page nothing has
      happened, and afterwards the start task is the first one processed. */
  ghost predicate StartInv<R>(start: string, s: State<R>) {
    && (s.visited == [] ==> s.queue == [Task(start, 0)] && s.seen == {} && s.records == [])
    && (s.visited != [] ==> s.visited[0] == Task(start, 0))
  }

  lemma StepStart<R>(lim: Limits, visit: string -> Visit<R>, key: string -> string, start: string, s: State<R>)
    requires s.queue != [] && StartInv(start, s)
    ensures StartInv(start, Step(lim, visit, key, s))
  {
  }

  /** `child` was queued from the links of `parent`. */
  ghost predicate Spawned<R>(lim: Limits, visit: string -> Visit<R>, child: Task, parent: Task) {
    Expands(lim, visit, parent) && child.url in visit(parent.url).next && child.depth == parent.depth + 1
  }

  /** `t` was queued from the links of one of the `visited` tasks. */
  ghost predicate FromVisited<R>(lim: Limits, visit: string -> Visit<R>, visited: seq<Task>, t: Task) {
    exists i :: 0 <= i < |visited| && Spawned(lim, visit, t, visited[i])
  }

  /** Entry `j` of `visited` was queued from the links of an earlier entry. */
  ghost predicate HasParent<R>(lim: Limits, visit: string -> Visit<R>, visited: seq<Task>, j: int)
    requires 0 <= j < |visited|
  {
    exists i :: 0 <= i < j && Spawned(lim, visit, visited[j], visited[i])
  }

  /** Provenance: every queued task, and every processed task but the first,
      comes from the links of a page processed before it. */
  ghost predicate SpawnInv<R>(lim: Limits, visit: string -> Visit<R>, s: State<R>) {
    && (s.visited != [] ==> forall q :: 0 <= q < |s.queue| ==> FromVisited(lim, visit, s.visited, s.queue[q]))
    && (forall j :: 1 <= j < |s.visited| ==> HasParent(lim, visit, s.visited, j))
  }

  lemma StepSpawn<R>(lim: Limits, visit: string -> Visit<R>, key: string -> string, start: string, s: State<R>)
    requires s.queue != [] && SpawnInv(lim, visit, s) && StartInv(start, s)
    ensures SpawnInv(lim, visit, Step(lim, visit, key, s))
  {
    var t := s.queue[0];
    var s' := Step(lim, visit, key, s);
    if key(t.url) in s.seen {
      forall q | 0 <= q < |s'.queue| ensures FromVisited(lim, visit, s'.visited, s'.queue[q]) {
        assert s'.queue[q] == s.queue[q + 1];
      }
    } else {
      var more := s'.queue[|s.queue| - 1..];
      assert s'.queue == s.queue[1..] + more;
      assert forall q :: q in more ==> Spawned(lim, visit, q, t);
      QueueSpawned(lim, visit, s.visited, s.queue, more);
      VisitedSpawned(lim, visit, s.visited, s.queue);
    }
  }

  /** Provenance survives processing more tasks. */
  lemma FromVisitedGrow<R>(lim: Limits, visit: string -> Visit<R>, visited: seq<Task>, x: Task, t: Task)
    requires FromVisited(lim, visit, visited, t)
    ensures FromVisited(lim, visit, visited + [x], t)
  {
    var i :| 0 <= i < |visited| && Spawned(lim, visit, t, visited[i]);
    assert (visited + [x])[i] == visited[i];
  }

  /** After a pop and a push of `more`, every queued task still comes from a
      processed page, the popped one included. */
  lemma QueueSpawned<R>(lim: Limits, visit: string -> Visit<R>, visited: seq<Task>, queue: seq<Task>, more: seq<Task>)
    requires queue != [] && (visited == [] ==> queue == [queue[0]])
    requires visited != [] ==> forall q :: 0 <= q < |queue| ==> FromVisited(lim, visit, visited, queue[q])
    requires forall q :: q in more ==> Spawned(lim, visit, q, queue[0])
    ensures forall q :: 0 <= q < |queue[1..] + more| ==>
              FromVisited(lim, visit, visited + [queue[0]], (queue[1..] + more)[q])
  {
    var queue', visited' := queue[1..] + more, visited + [queue[0]];
    forall q | 0 <= q < |queue'| ensures FromVisited(lim, visit, visited', queue'[q]) {
      if q < |queue| - 1 {
        assert queue'[q] == queue[q + 1];
        FromVisitedGrow(lim, visit, visited, queue[0], queue[q + 1]);
      } else {
        assert queue'[q] in more;
        assert visited'[|visited|] == queue[0];
      }
    }
  }

  /** Appending the head of the queue keeps every processed task but the
      first spawned by an earlier one. */
  lemma VisitedSpawned<R>(lim: Limits, visit: string -> Visit<R>, visited: seq<Task>, queue: seq<Task>)
    requires queue != []
    requires visited != [] ==> forall q :: 0 <= q < |queue| ==> FromVisited(lim, visit, visited, queue[q])
    requires forall j :: 1 <= j < |visited| ==> HasParent(lim, visit, visited, j)
    ensures forall j :: 1 <= j <= |visited| ==> HasParent(lim, visit, visited + [queue[0]], j)
  {
    var visited' := visited + [queue[0]];
    forall j | 1 <= j <= |visited| ensures HasParent(lim, visit, visited', j) {
      if j < |visited| {
        assert HasParent(lim, visit, visited, j);
        var i :| 0 <= i < j && Spawned(lim, visit, visited[j], visited[i]);
        assert visited'[i] == visited[i] && visited'[j] == visited[j];
      } else {
        assert FromVisited(lim, visit, visited, queue[0]);
        var i :| 0 <= i < |visited| && Spawned(lim, visit, queue[0], visited[i]);
        assert visited'[i] == visited[i] && visited'[j] == queue[0];
      }
    }
  }

  /** A link is taken care of: its key or itself is in the visited set, or a
      task for it is still queued. */
  ghost predicate Covered<R>(key: string -> string, s: State<R>, n: string) {
    n in s.seen || key(n) in s.seen || exists q :: q in s.queue && q.url == n
  }

  /** Every link of every expanding processed page is taken care of. */
  ghost predicate ClosedInv<R>(lim: Limits, visit: string -> Visit<R>, key: string -> string, s: State<R>) {
    forall i, n :: 0 <= i < |s.visited| && Expands(lim, visit, s.visited[i]) && n in visit(s.visited[i].url).next ==>
      Covered(key, s, n)
  }

  /** Covered links stay covered: a task leaving the queue has its key seen. */
  lemma StepCovered<R>(lim: Limits, visit: string -> Visit<R>, key: string -> string, s: State<R>, n: string)
    requires s.queue != [] && Covered(key, s, n)
    ensures Covered(key, Step(lim, visit, key, s), n)
  {
    var s' := Step(lim, visit, key, s);
    var t := s.queue[0];
    assert s.seen <= s'.seen;
    assert forall q :: q in s.queue[1..] ==> q in s'.queue;
    if n !in s.seen && key(n) !in s.seen {
      var q :| q in s.queue && q.url == n;
      if q != t {
        assert q in s.queue[1..];
      }
    }
  }

  lemma StepClosed<R>(lim: Limits, visit: string -> Visit<R>, key: string -> string, s: State<R>)
    requires s.queue != [] && ClosedInv(lim, visit, key, s)
    ensures ClosedInv(lim, visit, key, Step(lim, visit, key, s))
  {
    var s' := Step(lim, visit, key, s);
    var t := s.queue[0];
    forall i, n | 0 <= i < |s'.visited| && Expands(lim, visit, s'.visited[i]) && n in visit(s'.visited[i].url).next
      ensures Covered(key, s', n)
    {
      if i < |s.visited| {
        assert s'.visited[i] == s.visited[i];
        StepCovered(lim, visit, key, s, n);
      } else {
        assert s'.visited[i] == t && key(t.url) !in s.seen;
        var more := Enqueue(visit(t.url).next, s'.seen, t.depth);
        if n !in s'.seen {
          assert Task(n, t.depth + 1) in more;
          assert s'.queue == s.queue[1..] + more;
        }
      }
    }
  }

  /** All the invariants together. */
  ghost predicate Inv<R>(lim: Limits, visit: string -> Visit<R>, key: string -> string, start: string, s: State<R>) {
    && SeenInv(key, s) && RecordsInv(visit, s) && BoundInv(lim, s) && DepthInv(lim, s)
    && BfsInv(s) && StartInv(start, s) && SpawnInv(lim, visit, s) && ClosedInv(lim, visit, key, s)
  }

  lemma StartHolds<R>(lim: Limits, visit: string -> Visit<R>, key: string -> string, start: string)
    ensures Inv(lim, visit, key, start, Start<R>(start))
  {
    assert Keys(key, []) == {};
  }

  lemma StepInv<R>(lim: Limits, visit: string -> Visit<R>, key: string -> string, start: string, s: State<R>)
    requires Running(lim, s) && Inv(lim, visit, key, start, s)
    ensures Inv(lim, visit, key, start, Step(lim, visit, key, s))
  {
    StepSeen(lim, visit, key, s);
    StepRecords(lim, visit, key, s);
    StepDepth(lim, visit, key, s);
    StepBfs(lim, visit, key, s);
    StepStart(lim, visit, key, start, s);
    StepSpawn(lim, visit, key, start, s);
    StepClosed(lim, visit, key, s);
  }

  /** Each iteration either brings the page limit closer or shortens the
      queue, and does not change where the loop ends. */
  lemma StepProgress<R>(lim: Limits, visit: string -> Visit<R>, key: string -> string, s: State<R>)
    requires Running(lim, s)
    ensures Room(lim, Step(lim, visit, key, s)) < Room(lim, s)
            || (Room(lim, Step(lim, visit, key, s)) == Room(lim, s) && |Step(lim, visit, key, s).queue| < |s.queue|)
    ensures Run(lim, visit, key, Step(lim, visit, key, s)) == Run(lim, visit, key, s)
  {
  }

  /** What the invariants say once the loop has stopped. */
  lemma Finish<R>(lim: Limits, visit: string -> Visit<R>, key: string -> string, start: string, s: State<R>)
    requires Inv(lim, visit, key, start, s) && !Running(lim, s)
    ensures |s.records| == |s.visited| && forall i :: 0 <= i < |s.visited| ==> s.records[i] == visit(s.visited[i].url).record
    ensures forall i, j :: 0 <= i < j < |s.visited| ==> key(s.visited[i].url) != key(s.visited[j].url)
    ensures forall i :: 0 <= i < |s.visited| ==> DepthOk(lim, s.visited[i])
    ensures forall i, j :: 0 <= i <= j < |s.visited| ==> s.visited[i].depth <= s.visited[j].depth
    ensures forall j :: 1 <= j < |s.visited| ==> HasParent(lim, visit, s.visited, j)
    ensures lim.maxPages > 0 ==> 1 <= |s.records| <= lim.maxPages && s.visited[0] == Task(start, 0)
    ensures lim.maxPages <= 0 ==> s.records == []
    ensures s.queue != [] ==> |s.records| >= lim.maxPages
    ensures s.queue == [] ==>
              forall i, n :: 0 <= i < |s.visited| && Expands(lim, visit, s.visited[i]) && n in visit(s.visited[i].url).next ==>
                n in Keys(key, s.visited) || key(n) in Keys(key, s.visited)
  {
    if s.queue == [] {
      forall i, n | 0 <= i < |s.visited| && Expands(lim, visit, s.visited[i]) && n in visit(s.visited[i].url).next
        ensures n in Keys(key, s.visited) || key(n) in Keys(key, s.visited)
      {
        assert Covered(key, s, n);
      }
    }
  }

  /** The invariants hold wherever the loop ends. */
  lemma {:induction false} RunInv<R>(lim: Limits, visit: string -> Visit<R>, key: string -> string, start: string, s: State<R>)
    requires Inv(lim, visit, key, start, s)
    ensures Inv(lim, visit, key, start, Run(lim, visit, key, s)) && !Running(lim, Run(lim, visit, key, s))
    decreases Room(lim, s), |s.queue|
  {
    if Running(lim, s) {
      StepInv(lim, visit, key, start, s);
      StepProgress(lim, visit, key, s);
      RunInv(lim, visit, key, start, Step(lim, visit, key, s));
    }
  }

  /** The loop run from the start task. */
  function Crawled<R>(lim: Limits, visit: string -> Visit<R>, key: string -> string, start: string): State<R> {
    Run(lim, visit, key, Start(start))
  }

  lemma CrawledInv<R>(lim: Limits, visit: string -> Visit<R>, key: string -> string, start: string)
    ensures Inv(lim, visit, key, start, Crawled(lim, visit, key, start))
    ensures !Running(lim, Crawled(lim, visit, key, start))
  {
    StartHolds(lim, visit, key, start);
    RunInv(lim, visit, key, start, Start(start));
  }

  /**
   * What `crawl()` / `crawlSite()` return, read off the loop run from the
   * start task. The start URL is processed first (whenever the limit allows a
   * page at all); there is one record per processed task and never more than
   * the limit, and fewer only when the queue ran empty; no two processed
   * tasks share a key; depths stay within the limit and never decrease
   * (breadth-first order); every task but the first was queued from the links
   * of an earlier expanding page, one level deeper; and when the queue ran
   * empty, every link of every expanding page has its key or itself among the
   * keys of the processed pages.
   */
  lemma CrawlSpec<R>(lim: Limits, visit: string -> Visit<R>, key: string -> string, start: string)
    returns (s: State<R>)
    ensures s == Crawled(lim, visit, key, start)
    ensures |s.records| == |s.visited| && forall i :: 0 <= i < |s.visited| ==> s.records[i] == visit(s.visited[i].url).record
    ensures lim.maxPages > 0 ==> 1 <= |s.records| <= lim.maxPages && s.visited[0] == Task(start, 0)
    ensures lim.maxPages <= 0 ==> s.records == []
    ensures s.queue != [] ==> |s.records| >= lim.maxPages
    ensures forall i, j :: 0 <= i < j < |s.visited| ==> key(s.visited[i].url) != key(s.visited[j].url)
    ensures forall i :: 0 <= i < |s.visited| ==> DepthOk(lim, s.visited[i])
    ensures forall i, j :: 0 <= i <= j < |s.visited| ==> s.visited[i].depth <= s.visited[j].depth
    ensures forall j :: 1 <= j < |s.visited| ==> HasParent(lim, visit, s.visited, j)
    ensures s.queue == [] ==>
              forall i, n :: 0 <= i < |s.visited| && Expands(lim, visit, s.visited[i]) && n in visit(s.visited[i].url).next ==>
                n in Keys(key, s.visited) || key(n) in Keys(key, s.visited)
  {
    s := Crawled(lim, visit, key, start);
    CrawledInv(lim, visit, key, start);
    Finish(lim, visit, key, start, s);
  }

  /** When the queue ran empty, a link of an expanding processed page, or its
      key, is the key of a processed page. */
  lemma Covers<R>(lim: Limits, visit: string -> Visit<R>, key: string -> string, start: string, i: nat, n: string)
    requires var s := Crawled(lim, visit, key, start);
             s.queue == [] && i < |s.visited| && Expands(lim, visit, s.visited[i]) && n in visit(s.visited[i].url).next
    ensures var s := Crawled(lim, visit, key, start);
            exists j :: 0 <= j < |s.visited| && (key(s.visited[j].url) == n || key(s.visited[j].url) == key(n))
  {
    var s := Crawled(lim, visit, key, start);
    CrawledInv(lim, visit, key, start);
    assert Covered(key, s, n);
    KeysMember(key, s.visited, n);
    KeysMember(key, s.visited, key(n));
  }

  /**
   * The loop itself: the records pushed, the tasks they belong to, and
   * whether the queue ran empty. It computes exactly the recursive `Run`,
   * so `CrawlSpec` describes its result.
   */
  method Crawl<R>(lim: Limits, visit: string -> Visit<R>, key: string -> string, start: string)
    returns (records: seq<R>, visited: seq<Task>, exhausted: bool)
    ensures records == Crawled(lim, visit, key, start).records
    ensures visited == Crawled(lim, visit, key, start).visited
    ensures exhausted <==> Crawled(lim, visit, key, start).queue == []
  {
    var s := Start<R>(start);
    while Running(lim, s)
      invariant Run(lim, visit, key, s) == Crawled(lim, visit, key, start)
      decreases Room(lim, s), |s.queue|
    {
      StepProgress(lim, visit, key, s);
      s := Step(lim, visit, key, s);
    }
    records, visited, exhausted := s.records, s.visited, s.queue == [];
  }
}
