/**
  The four collections `StateManager` keeps for the dashboard (handbrakevidz.py lines
  55-109): the queue, the current job, the completed records and the error records.
  Each operation loads a collection, changes it and saves it whole; the model keeps the
  collections in memory and leaves timestamps out.
*/
module StateStore {
  import opened Optional

  datatype QueueEntry = QueueEntry(path: string)

  datatype CurrentJob = CurrentJob(path: string, progress: int, eta: string)

  datatype CompletedRecord = CompletedRecord(input: string, output: string, originalSize: nat, compressedSize: nat)

  datatype ErrorRecord = ErrorRecord(path: string, reason: string)

  datatype State = State(
    queue: seq<QueueEntry>,
    current: Option<CurrentJob>,
    completed: seq<CompletedRecord>,
    errors: seq<ErrorRecord>)

  /** The queue entries whose path is not p, in their order. */
  function Without(q: seq<QueueEntry>, p: string): (r: seq<QueueEntry>)
    ensures |r| <= |q|
    decreases |q|
  {
    if |q| == 0 then []
    else (if q[0].path == p then [] else [q[0]]) + Without(q[1..], p)
  }

  /** The queue entries whose path is not in ps, in their order. */
  function WithoutAny(q: seq<QueueEntry>, ps: set<string>): (r: seq<QueueEntry>)
    ensures |r| <= |q|
    decreases |q|
  {
    if |q| == 0 then []
    else (if q[0].path in ps then [] else [q[0]]) + WithoutAny(q[1..], ps)
  }

  /** An entry survives the removal exactly when it was queued and its path is not
      among the removed ones. */
  lemma {:induction false} WithoutAnyMembers(q: seq<QueueEntry>, ps: set<string>)
    ensures forall e :: e in WithoutAny(q, ps) <==> e in q && e.path !in ps
    decreases |q|
  {
    if |q| > 0 {
      WithoutAnyMembers(q[1..], ps);
      assert q == [q[0]] + q[1..];
    }
  }

  lemma WithoutMembers(q: seq<QueueEntry>, p: string)
    ensures forall e :: e in Without(q, p) <==> e in q && e.path != p
  {
    WithoutIsWithoutAny(q, p);
    WithoutAnyMembers(q, {p});
  }

  /** r keeps some of the entries of q, in their original order. */
  ghost predicate IsSubsequence(r: seq<QueueEntry>, q: seq<QueueEntry>)
    decreases |q|
  {
    if |r| == 0 then true
    else if |q| == 0 then false
    else (r[0] == q[0] && IsSubsequence(r[1..], q[1..])) || IsSubsequence(r, q[1..])
  }

  lemma {:induction false} WithoutAnyIsSubsequence(q: seq<QueueEntry>, ps: set<string>)
    ensures IsSubsequence(WithoutAny(q, ps), q)
    decreases |q|
  {
    if |q| > 0 {
      WithoutAnyIsSubsequence(q[1..], ps);
      var r := WithoutAny(q, ps);
      if q[0].path !in ps {
        assert r[0] == q[0] && r[1..] == WithoutAny(q[1..], ps);
      } else {
        assert r == WithoutAny(q[1..], ps);
      }
    }
  }

  /** Removal by path keeps every other entry as often as it was queued. */
  lemma {:induction false} WithoutMultiset(q: seq<QueueEntry>, p: string)
    ensures forall e :: multiset(Without(q, p))[e] == if e.path == p then 0 else multiset(q)[e]
    decreases |q|
  {
    if |q| > 0 {
      WithoutMultiset(q[1..], p);
      assert q == [q[0]] + q[1..];
      assert multiset(q) == multiset([q[0]]) + multiset(q[1..]);
      assert multiset(Without(q, p)) == multiset(if q[0].path == p then [] else [q[0]]) + multiset(Without(q[1..], p));
    }
  }

  /** Removing one path is removing the singleton set of paths. */
  lemma {:induction false} WithoutIsWithoutAny(q: seq<QueueEntry>, p: string)
    ensures Without(q, p) == WithoutAny(q, {p})
    decreases |q|
  {
    if |q| > 0 {
      WithoutIsWithoutAny(q[1..], p);
    }
  }

  /** Removal distributes over concatenation. */
  lemma {:induction false} WithoutAnyAppend(a: seq<QueueEntry>, b: seq<QueueEntry>, ps: set<string>)
    ensures WithoutAny(a + b, ps) == WithoutAny(a, ps) + WithoutAny(b, ps)
    decreases |a|
  {
    if |a| == 0 {
      assert a + b == b;
    } else {
      assert (a + b)[1..] == a[1..] + b;
      WithoutAnyAppend(a[1..], b, ps);
    }
  }

  /** Removing one more path after a set of paths removes the enlarged set. */
  lemma {:induction false} WithoutAfterWithoutAny(q: seq<QueueEntry>, ps: set<string>, p: string)
    ensures Without(WithoutAny(q, ps), p) == WithoutAny(q, ps + {p})
    decreases |q|
  {
    if |q| > 0 {
      WithoutAfterWithoutAny(q[1..], ps, p);
      var w := WithoutAny(q, ps);
      if q[0].path !in ps {
        assert w == [q[0]] + WithoutAny(q[1..], ps);
        assert w[0] == q[0] && w[1..] == WithoutAny(q[1..], ps);
        assert Without(w, p) == (if q[0].path == p then [] else [q[0]]) + Without(w[1..], p);
      } else {
        assert w == WithoutAny(q[1..], ps);
      }
    }
  }

  /** Removing no path keeps the queue as it is. */
  lemma {:induction false} WithoutNothing(q: seq<QueueEntry>)
    ensures WithoutAny(q, {}) == q
    decreases |q|
  {
    if |q| > 0 {
      WithoutNothing(q[1..]);
      assert q == [q[0]] + q[1..];
    }
  }

  /** `StateManager.add_to_queue`: one entry for path at the end. */
  function AddToQueue(st: State, path: string): (r: State)
    ensures |r.queue| == |st.queue| + 1
    ensures r.queue[..|st.queue|] == st.queue && r.queue[|st.queue|].path == path
    ensures r.current == st.current && r.completed == st.completed && r.errors == st.errors
  {
    st.(queue := st.queue + [QueueEntry(path)])
  }

  /** `StateManager.remove_from_queue`: every entry whose path equals path goes, the
      others stay in order, each as often as it was queued. */
  function RemoveFromQueue(st: State, path: string): (r: State)
    ensures forall e | e in r.queue :: e.path != path
    ensures forall e | e in st.queue && e.path != path :: e in r.queue
    ensures IsSubsequence(r.queue, st.queue)
    ensures forall e :: multiset(r.queue)[e] == if e.path == path then 0 else multiset(st.queue)[e]
    ensures r.current == st.current && r.completed == st.completed && r.errors == st.errors
  {
    WithoutMembers(st.queue, path);
    WithoutIsWithoutAny(st.queue, path);
    WithoutAnyIsSubsequence(st.queue, {path});
    WithoutMultiset(st.queue, path);
    st.(queue := Without(st.queue, path))
  }

  /** `StateManager.set_current`. */
  function SetCurrent(st: State, path: string, progress: int, eta: string): (r: State)
    ensures r.current == Some(CurrentJob(path, progress, eta))
    ensures r.queue == st.queue && r.completed == st.completed && r.errors == st.errors
  {
    st.(current := Some(CurrentJob(path, progress, eta)))
  }

  /** `StateManager.clear_current`. */
  function ClearCurrent(st: State): (r: State)
    ensures r.current.None?
    ensures r.queue == st.queue && r.completed == st.completed && r.errors == st.errors
  {
    st.(current := None)
  }

  /** `StateManager.add_completed`; sizes are kept in bytes. */
  function AddCompleted(st: State, input: string, output: string, originalSize: nat, compressedSize: nat): (r: State)
    ensures r.completed == st.completed + [CompletedRecord(input, output, originalSize, compressedSize)]
    ensures r.queue == st.queue && r.current == st.current && r.errors == st.errors
  {
    st.(completed := st.completed + [CompletedRecord(input, output, originalSize, compressedSize)])
  }

  /** `StateManager.add_error`. */
  function AddError(st: State, path: string, reason: string): (r: State)
    ensures r.errors == st.errors + [ErrorRecord(path, reason)]
    ensures r.queue == st.queue && r.current == st.current && r.completed == st.completed
  {
    st.(errors := st.errors + [ErrorRecord(path, reason)])
  }

  /** The completed and error records of st are kept, in order, at the front of st'. */
  predicate RecordsExtend(st: State, st': State) {
    && |st.completed| <= |st'.completed| && st'.completed[..|st.completed|] == st.completed
    && |st.errors| <= |st'.errors| && st'.errors[..|st.errors|] == st.errors
  }

  /** The number of outcomes recorded so far. */
  function RecordCount(st: State): nat { |st.completed| + |st.errors| }

  lemma RecordsExtendTransitive(a: State, b: State, c: State)
    requires RecordsExtend(a, b) && RecordsExtend(b, c)
    ensures RecordsExtend(a, c)
  {
    assert c.completed[..|a.completed|] == c.completed[..|b.completed|][..|a.completed|];
    assert c.errors[..|a.errors|] == c.errors[..|b.errors|][..|a.errors|];
  }

  /** Every operation keeps the records it found: completed and errors are append-only,
      and only the two add operations grow them, by exactly one. */
  lemma OperationsAreAppendOnly(st: State, path: string, other: string, progress: int, eta: string, a: nat, b: nat)
    ensures RecordsExtend(st, AddToQueue(st, path)) && RecordCount(AddToQueue(st, path)) == RecordCount(st)
    ensures RecordsExtend(st, RemoveFromQueue(st, path)) && RecordCount(RemoveFromQueue(st, path)) == RecordCount(st)
    ensures RecordsExtend(st, SetCurrent(st, path, progress, eta)) && RecordCount(SetCurrent(st, path, progress, eta)) == RecordCount(st)
    ensures RecordsExtend(st, ClearCurrent(st)) && RecordCount(ClearCurrent(st)) == RecordCount(st)
    ensures RecordsExtend(st, AddCompleted(st, path, other, a, b)) && RecordCount(AddCompleted(st, path, other, a, b)) == RecordCount(st) + 1
    ensures RecordsExtend(st, AddError(st, path, other)) && RecordCount(AddError(st, path, other)) == RecordCount(st) + 1
  {
  }

  /** Removing a path just added takes out that entry and every older one with the same
      path, and nothing else; removing it again changes nothing. */
  lemma RemoveAfterAdd(st: State, path: string)
    ensures RemoveFromQueue(AddToQueue(st, path), path).queue == Without(st.queue, path)
    ensures RemoveFromQueue(RemoveFromQueue(st, path), path) == RemoveFromQueue(st, path)
  {
    WithoutIsWithoutAny(st.queue + [QueueEntry(path)], path);
    WithoutAnyAppend(st.queue, [QueueEntry(path)], {path});
    WithoutIsWithoutAny(st.queue, path);
    assert WithoutAny([QueueEntry(path)], {path}) == [];
    WithoutAfterWithoutAny(st.queue, {path}, path);
    assert {path} + {path} == {path};
  }
}
