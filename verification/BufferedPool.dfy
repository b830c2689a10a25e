/**
 One package's mutants in a pool whose results go to a buffered channel that is read only after the
 last task has ended.
 */
module BufferedPool {
  import opened Mutants
  import opened Statuses

  /** A task that still owes its result, or one that has sent it and is about to free its slot. */
  datatype Task = Working(id: int) | Sent

  /** The ids not yet started, the tasks holding a slot, what is in the channel, and whether it is closed. */
  datatype State = State(waiting: seq<int>, tasks: seq<Task>, buffer: seq<Result>, closed: bool)

  datatype Step =
    | Launch                           // a slot is free: start the next mutant
    | Send(k: nat, cancelled: bool)    // task k puts its result into the channel
    | Release(k: nat)                  // task k frees its slot
    | Close                            // every task has ended

  /** `slots` is the size of the semaphore, `capacity` that of the channel. */
  datatype Pool = Pool(slots: nat, capacity: nat, run: int -> RunResult)

  function ResultOf(p: Pool, id: int, cancelled: bool): Result {
    if cancelled then Result(id, Error, "") else Result(id, p.run(id).status, p.run(id).killedBy)
  }

  predicate Enabled(p: Pool, s: State, step: Step) {
    match step
    case Launch => s.waiting != [] && |s.tasks| < p.slots
    case Send(k, _) => k < |s.tasks| && s.tasks[k].Working? && |s.buffer| < p.capacity
    case Release(k) => k < |s.tasks| && s.tasks[k].Sent?
    case Close => s.waiting == [] && s.tasks == [] && !s.closed
  }

  function Next(p: Pool, s: State, step: Step): State
    requires Enabled(p, s, step)
  {
    match step
    case Launch => State(s.waiting[1..], s.tasks + [Working(s.waiting[0])], s.buffer, s.closed)
    case Send(k, cancelled) =>
      State(s.waiting, s.tasks[k := Sent], s.buffer + [ResultOf(p, s.tasks[k].id, cancelled)], s.closed)
    case Release(k) => State(s.waiting, s.tasks[..k] + s.tasks[k + 1..], s.buffer, s.closed)
    case Close => State(s.waiting, s.tasks, s.buffer, true)
  }

  function Init(ids: seq<int>): State { State(ids, [], [], false) }

  // ---- Invariant ----

  /** The ids whose result is still owed. */
  function Owed(tasks: seq<Task>): seq<int> {
    if tasks == [] then [] else (if tasks[0].Working? then [tasks[0].id] else []) + Owed(tasks[1..])
  }

  lemma {:induction false} OwedAppend(a: seq<Task>, b: seq<Task>)
    ensures Owed(a + b) == Owed(a) + Owed(b)
    decreases |a|
  {
    if a == [] {
      assert a + b == b;
    } else {
      assert (a + b)[1..] == a[1..] + b;
      OwedAppend(a[1..], b);
    }
  }

  function BufferedIds(rs: seq<Result>): (r: seq<int>)
    ensures |r| == |rs|
  {
    if rs == [] then [] else BufferedIds(rs[..|rs| - 1]) + [rs[|rs| - 1].id]
  }

  /** Every id is waiting, owed or buffered, exactly once. */
  ghost predicate Inv(p: Pool, ids: seq<int>, s: State) {
    && |s.tasks| <= p.slots
    && multiset(s.waiting) + multiset(Owed(s.tasks)) + multiset(BufferedIds(s.buffer)) == multiset(ids)
    && |s.waiting| + |Owed(s.tasks)| + |s.buffer| == |ids|
    && (s.closed ==> s.waiting == [] && s.tasks == [])
  }

  lemma OwedTask(tasks: seq<Task>, k: nat) returns (a: seq<int>, b: seq<int>)
    requires k < |tasks|
    ensures Owed(tasks) == a + (if tasks[k].Working? then [tasks[k].id] else []) + b
    ensures Owed(tasks[k := Sent]) == a + b == Owed(tasks[..k] + tasks[k + 1..])
  {
    var l, r := tasks[..k], tasks[k + 1..];
    a, b := Owed(l), Owed(r);
    OwedAppend(l, [tasks[k]] + r);
    OwedAppend([tasks[k]], r);
    OwedAppend(l, [Sent] + r);
    OwedAppend([Sent], r);
    OwedAppend(l, r);
    assert tasks == l + ([tasks[k]] + r);
    assert tasks[k := Sent] == l + ([Sent] + r);
  }

  /** The books of the invariant on plain lists. */
  ghost predicate Divided(ids: seq<int>, waiting: seq<int>, owed: seq<int>, buffered: seq<int>) {
    multiset(waiting) + multiset(owed) + multiset(buffered) == multiset(ids)
  }

  lemma MoveToOwed(ids: seq<int>, x: int, waiting: seq<int>, owed: seq<int>, buffered: seq<int>)
    requires Divided(ids, [x] + waiting, owed, buffered)
    ensures Divided(ids, waiting, owed + [x], buffered)
  {
  }

  lemma MoveToBuffer(ids: seq<int>, waiting: seq<int>, a: seq<int>, x: int, b: seq<int>, buffered: seq<int>)
    requires Divided(ids, waiting, a + [x] + b, buffered)
    ensures Divided(ids, waiting, a + b, buffered + [x])
  {
  }

  lemma InvDivided(p: Pool, ids: seq<int>, s: State)
    requires Inv(p, ids, s)
    ensures Divided(ids, s.waiting, Owed(s.tasks), BufferedIds(s.buffer))
    ensures |s.tasks| <= p.slots && (s.closed ==> s.waiting == [] && s.tasks == [])
  {
  }

  lemma BufferedMore(buffer: seq<Result>, r: Result)
    ensures BufferedIds(buffer + [r]) == BufferedIds(buffer) + [r.id]
  {
    assert (buffer + [r])[..|buffer|] == buffer;
  }

  lemma StepKeepsInv(p: Pool, ids: seq<int>, s: State, step: Step)
    requires Inv(p, ids, s) && Enabled(p, s, step)
    ensures Inv(p, ids, Next(p, s, step))
  {
    hide Inv, Divided, Owed, BufferedIds, ResultOf;
    InvDivided(p, ids, s);
    var t := Next(p, s, step);
    match step
    case Launch =>
      var x := s.waiting[0];
      OwedAppend(s.tasks, [Working(x)]);
      OwedOne(x);
      assert s.waiting == [x] + t.waiting;
      MoveToOwed(ids, x, t.waiting, Owed(s.tasks), BufferedIds(s.buffer));
      KeptInv(p, ids, t);
    case Send(k, cancelled) =>
      var a, b := OwedTask(s.tasks, k);
      var r := ResultOf(p, s.tasks[k].id, cancelled);
      assert r.id == s.tasks[k].id by { ResultId(p, s.tasks[k].id, cancelled); }
      BufferedMore(s.buffer, r);
      MoveToBuffer(ids, s.waiting, a, r.id, b, BufferedIds(s.buffer));
      KeptInv(p, ids, t);
    case Release(k) =>
      var a, b := OwedTask(s.tasks, k);
      assert a + [] + b == a + b;
      KeptInv(p, ids, t);
    case Close => KeptInv(p, ids, t);
  }

  lemma ResultId(p: Pool, id: int, cancelled: bool)
    ensures ResultOf(p, id, cancelled).id == id
  {
  }

  lemma KeptInv(p: Pool, ids: seq<int>, t: State)
    requires Divided(ids, t.waiting, Owed(t.tasks), BufferedIds(t.buffer))
    requires |t.tasks| <= p.slots && (t.closed ==> t.waiting == [] && t.tasks == [])
    ensures Inv(p, ids, t)
  {
    var all := t.waiting + Owed(t.tasks) + BufferedIds(t.buffer);
    assert multiset(all) == multiset(ids);
    assert |multiset(all)| == |all| && |multiset(ids)| == |ids|;
  }

  lemma OwedOne(id: int)
    ensures Owed([Working(id)]) == [id]
  {
  }

  // ---- What the capacity is for ----

  /** The channel has room for every result, so no send ever waits, although nobody reads yet. */
  lemma SendNeverBlocks(p: Pool, ids: seq<int>, s: State, k: nat, cancelled: bool)
    requires Inv(p, ids, s) && p.capacity == |ids| && k < |s.tasks| && s.tasks[k].Working?
    ensures Enabled(p, s, Send(k, cancelled))
  {
    var a, b := OwedTask(s.tasks, k);
  }

  /** With at least one slot some step can be taken until the channel is closed. */
  lemma Progress(p: Pool, ids: seq<int>, s: State) returns (step: Step)
    requires Inv(p, ids, s) && p.capacity == |ids| && p.slots >= 1 && !s.closed
    ensures Enabled(p, s, step)
  {
    if s.tasks != [] {
      if s.tasks[0].Working? {
        SendNeverBlocks(p, ids, s, 0, false);
        step := Send(0, false);
      } else {
        step := Release(0);
      }
    } else {
      step := if s.waiting != [] then Launch else Close;
    }
  }

  function Work(s: State): nat { 3 * |s.waiting| + |s.tasks| + |Owed(s.tasks)| + if s.closed then 0 else 1 }

  lemma StepWorks(p: Pool, s: State, step: Step)
    requires Enabled(p, s, step)
    ensures Work(Next(p, s, step)) < Work(s)
  {
    hide Owed;
    match step
    case Launch =>
      OwedAppend(s.tasks, [Working(s.waiting[0])]);
      OwedOne(s.waiting[0]);
    case Send(k, _) => var a, b := OwedTask(s.tasks, k);
    case Release(k) => var a, b := OwedTask(s.tasks, k);
    case Close =>
  }

  ghost predicate Runs(p: Pool, s: State, steps: seq<Step>, t: State)
    decreases |steps|
  {
    if steps == [] then s == t else Enabled(p, s, steps[0]) && Runs(p, Next(p, s, steps[0]), steps[1..], t)
  }

  lemma {:induction false} RunKeeps(p: Pool, ids: seq<int>, s: State, steps: seq<Step>, t: State)
    requires Runs(p, s, steps, t) && Inv(p, ids, s)
    ensures Inv(p, ids, t) && |steps| + Work(t) <= Work(s)
    decreases |steps|
  {
    if steps != [] {
      StepKeepsInv(p, ids, s, steps[0]);
      StepWorks(p, s, steps[0]);
      RunKeeps(p, ids, Next(p, s, steps[0]), steps[1..], t);
    }
  }

  /** A buffered result is what the run of its mutant gave, or an error that blames nobody for a mutant cancelled. */
  ghost predicate Told(p: Pool, rs: seq<Result>) {
    forall r :: r in rs ==>
      (r.status == p.run(r.id).status && r.killedBy == p.run(r.id).killedBy) || (r.status == Error && r.killedBy == "")
  }

  predicate Cancels(step: Step) { step.Send? && step.cancelled }

  /** Unless a task was cancelled, every buffered result is that of the run. */
  ghost predicate ToldByRuns(p: Pool, rs: seq<Result>) {
    forall r :: r in rs ==> r.status == p.run(r.id).status && r.killedBy == p.run(r.id).killedBy
  }

  lemma {:induction false} BufferTells(p: Pool, s: State, steps: seq<Step>, t: State)
    requires Runs(p, s, steps, t) && Told(p, s.buffer)
    ensures Told(p, t.buffer)
    ensures ToldByRuns(p, s.buffer) && (forall step :: step in steps ==> !Cancels(step)) ==> ToldByRuns(p, t.buffer)
    decreases |steps|
  {
    if steps != [] {
      var step, rest := steps[0], steps[1..];
      assert steps == [step] + rest && step in steps;
      assert forall x :: x in rest ==> x in steps;
      BufferTells(p, Next(p, s, step), rest, t);
      if ToldByRuns(p, s.buffer) && !Cancels(step) { assert ToldByRuns(p, Next(p, s, step).buffer); }
    }
  }

  /** A smaller channel would do harm: two mutants, room for one result, and after four steps nothing can happen. */
  lemma SmallBufferDeadlocks(run: int -> RunResult, step: Step)
    ensures var p := Pool(1, 1, run);
            var s := State([], [Working(2)], [ResultOf(p, 1, false)], false);
            Runs(p, Init([1, 2]), [Launch, Send(0, false), Release(0), Launch], s) && !Enabled(p, s, step)
  {
  }

  /** When the reader starts, the closed channel holds one result for every id, whatever the schedule. */
  lemma ClosedHoldsAll(p: Pool, ids: seq<int>, steps: seq<Step>, t: State)
    requires Runs(p, Init(ids), steps, t) && t.closed
    ensures multiset(BufferedIds(t.buffer)) == multiset(ids)
    ensures |steps| <= 3 * |ids| + 1
  {
    RunKeeps(p, ids, Init(ids), steps, t);
  }
}
