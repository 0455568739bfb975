/** The thread manager: a fixed table of slots through which threads are created, launched and joined. */
module ThreadManager {
  import opened Wrappers

  const MAX_THREADS: nat := 32

  /** What a thread is to run: a function, by name, and its argument. */
  datatype Job = Job(func: nat, arg: nat)

  /** An entry of the table; `handle` is the system's thread once launched. */
  datatype Slot = Slot(used: bool, running: bool, func: Option<nat>, arg: nat, handle: nat)

  const FREE: Slot := Slot(false, false, None, 0, 0)

  /** The table, what the system's threads 0, 1, ... were started with, and the joins made so far. */
  datatype State = State(slots: seq<Slot>, started: seq<Job>, joined: seq<nat>)

  // ---------- what each operation does ----------

  function FirstFree(slots: seq<Slot>): (i: nat)
    ensures i <= |slots| && (i < |slots| ==> !slots[i].used)
    ensures forall j :: 0 <= j < i ==> slots[j].used
  {
    if slots == [] || !slots[0].used then 0 else 1 + FirstFree(slots[1..])
  }

  /** The thread number that a creation returns, or -1. */
  function CreatedId(s: State): int {
    if FirstFree(s.slots) < |s.slots| then FirstFree(s.slots) else -1
  }

  function Created(s: State, job: Job): State {
    var i := FirstFree(s.slots);
    if i < |s.slots|
    then s.(slots := s.slots[i := s.slots[i].(used := true, func := Some(job.func), arg := job.arg)])
    else s
  }

  function SlotJob(slot: Slot): Job
    requires slot.func.Some?
  {
    Job(slot.func.value, slot.arg)
  }

  /** The assertions of `launch`. */
  predicate CanLaunch(s: State, tid: int) {
    0 <= tid < |s.slots| && !s.slots[tid].running && s.slots[tid].func.Some?
  }

  function Launched(s: State, tid: nat): State
    requires CanLaunch(s, tid)
  {
    State(s.slots[tid := s.slots[tid].(running := true, handle := |s.started|)], s.started + [SlotJob(s.slots[tid])],
          s.joined)
  }

  /** The assertions of `wait(tid)`. */
  predicate CanWait(s: State, tid: int) {
    0 <= tid < |s.slots| && s.slots[tid].running
  }

  /** The join of one thread; its slot stays marked as used. */
  function Waited(s: State, tid: nat): State
    requires CanWait(s, tid)
  {
    State(s.slots[tid := s.slots[tid].(running := false, func := None)], s.started, s.joined + [s.slots[tid].handle])
  }

  function Freed(s: State, tid: nat): State
    requires tid < |s.slots|
  {
    s.(slots := s.slots[tid := s.slots[tid].(used := false)])
  }

  /** The loop of `wait()` from slot `i` on: it joins the running threads and frees their slots, and no others. */
  function WaitedFrom(s: State, i: nat): (r: State)
    ensures |r.slots| == |s.slots| && r.started == s.started
    decreases |s.slots| - i
  {
    if i >= |s.slots| then s
    else WaitedFrom(if s.slots[i].running then Freed(Waited(s, i), i) else s, i + 1)
  }

  lemma {:induction false} WaitedFromSlots(s: State, i: nat)
    ensures forall j :: 0 <= j < |s.slots| ==>
              WaitedFrom(s, i).slots[j] == if i <= j && s.slots[j].running
                                           then s.slots[j].(used := false, running := false, func := None)
                                           else s.slots[j]
    decreases |s.slots| - i
  {
    if i < |s.slots| {
      WaitedFromSlots(if s.slots[i].running then Freed(Waited(s, i), i) else s, i + 1);
    }
  }

  // ---------- the invariant ----------

  predicate SlotOk(slot: Slot) {
    (slot.running ==> slot.func.Some?) && (slot.func.Some? ==> slot.used)
  }

  predicate Runs(s: State, i: nat, handle: nat) {
    i < |s.slots| && s.slots[i].running && s.slots[i].handle == handle
  }

  ghost predicate RunsSomewhere(s: State, handle: nat) {
    exists i: nat :: Runs(s, i, handle)
  }

  ghost predicate NoRepeats(handles: seq<nat>) {
    forall j, k :: 0 <= j < k < |handles| ==> handles[j] != handles[k]
  }

  /** A started thread runs in one slot until it is joined, and is joined once. */
  ghost predicate Inv(s: State) {
    && (forall i :: 0 <= i < |s.slots| ==> SlotOk(s.slots[i]))
    && NoRepeats(s.joined)
    && (forall h :: h in s.joined ==> h < |s.started|)
    && (forall i: nat, h: nat :: Runs(s, i, h) ==> h < |s.started| && h !in s.joined)
    && (forall i: nat, j: nat, h: nat :: Runs(s, i, h) && Runs(s, j, h) ==> i == j)
    && (forall h: nat :: h < |s.started| ==> h in s.joined || RunsSomewhere(s, h))
  }

  function Slots(n: nat): (slots: seq<Slot>)
    ensures |slots| == n && forall i :: 0 <= i < n ==> slots[i] == FREE
  {
    if n == 0 then [] else Slots(n - 1) + [FREE]
  }

  function Fresh(n: nat): State {
    State(Slots(n), [], [])
  }

  lemma CreateKeeps(s: State, job: Job)
    requires Inv(s)
    ensures Inv(Created(s, job))
  {
    var s' := Created(s, job);
    forall i: nat, h: nat ensures Runs(s', i, h) <==> Runs(s, i, h) {
    }
    forall h: nat | h < |s.started| && h !in s.joined ensures RunsSomewhere(s', h) {
      var i: nat :| Runs(s, i, h);
      assert Runs(s', i, h);
    }
  }

  lemma LaunchKeeps(s: State, tid: nat)
    requires Inv(s) && CanLaunch(s, tid)
    ensures Inv(Launched(s, tid))
  {
    var s' := Launched(s, tid);
    forall i: nat, h: nat ensures Runs(s', i, h) <==> Runs(s, i, h) || (i == tid && h == |s.started|) {
    }
    forall h: nat | h < |s'.started| && h !in s'.joined ensures RunsSomewhere(s', h) {
      if h < |s.started| {
        var i: nat :| Runs(s, i, h);
        assert Runs(s', i, h);
      } else {
        assert Runs(s', tid, h);
      }
    }
  }

  lemma WaitKeeps(s: State, tid: nat)
    requires Inv(s) && CanWait(s, tid)
    ensures Inv(Waited(s, tid)) && Inv(Freed(Waited(s, tid), tid))
  {
    var s', handle := Waited(s, tid), s.slots[tid].handle;
    assert Runs(s, tid, handle);
    forall i: nat, h: nat ensures Runs(s', i, h) <==> Runs(s, i, h) && i != tid {
    }
    forall h: nat | h < |s'.started| && h !in s'.joined ensures RunsSomewhere(s', h) {
      var i: nat :| Runs(s, i, h);
      assert Runs(s', i, h);
    }
    FreeKeeps(s', tid);
  }

  lemma FreeKeeps(s: State, tid: nat)
    requires Inv(s) && tid < |s.slots| && s.slots[tid].func.None?
    ensures Inv(Freed(s, tid))
  {
    var s' := Freed(s, tid);
    forall i: nat, h: nat ensures Runs(s', i, h) <==> Runs(s, i, h) {
    }
    forall h: nat | h < |s.started| && h !in s.joined ensures RunsSomewhere(s', h) {
      var i: nat :| Runs(s, i, h);
      assert Runs(s', i, h);
    }
  }

  lemma {:induction false} WaitAllKeeps(s: State, i: nat)
    requires Inv(s)
    ensures Inv(WaitedFrom(s, i))
    decreases |s.slots| - i
  {
    hide Inv;
    if i < |s.slots| {
      if s.slots[i].running {
        WaitKeeps(s, i);
        WaitAllKeeps(Freed(Waited(s, i), i), i + 1);
      } else {
        WaitAllKeeps(s, i + 1);
      }
    }
  }

  /** The joins made so far are of all threads that were started, each joined once. */
  ghost predicate AllJoinedOnce(s: State) {
    NoRepeats(s.joined) && forall h: nat :: h in s.joined <==> h < |s.started|
  }

  /** The destructor's `wait()` joins whatever still runs, so then every thread ever started was joined exactly once. */
  lemma WaitAllJoins(s: State)
    requires Inv(s)
    ensures AllJoinedOnce(WaitedFrom(s, 0))
  {
    var s' := WaitedFrom(s, 0);
    WaitAllKeeps(s, 0);
    WaitedFromSlots(s, 0);
    forall h: nat | h < |s'.started| ensures h in s'.joined {
      assert forall i: nat :: !Runs(s', i, h);
    }
  }

  // ---------- runs ----------

  datatype Op = Create(job: Job) | Launch(tid: nat) | Wait(tid: nat) | WaitAll

  /** An operation, or nothing if one of its assertions fails. */
  function Apply(s: State, op: Op): Option<State> {
    match op
    case Create(job) => Some(Created(s, job))
    case Launch(tid) => if CanLaunch(s, tid) then Some(Launched(s, tid)) else None
    case Wait(tid) => if CanWait(s, tid) then Some(Waited(s, tid)) else None
    case WaitAll => Some(WaitedFrom(s, 0))
  }

  function Run(s: State, ops: seq<Op>): (r: Option<State>)
    ensures r.Some? ==> |r.value.slots| == |s.slots|
  {
    if ops == [] then Some(s)
    else
      match Run(s, ops[..|ops| - 1])
      case None => None
      case Some(t) => Apply(t, ops[|ops| - 1])
  }

  /** In every run that respects the assertions a running slot is used and has its function, and no join is repeated. */
  lemma {:induction false} RunKeeps(n: nat, ops: seq<Op>)
    requires Run(Fresh(n), ops).Some?
    ensures Inv(Run(Fresh(n), ops).value)
  {
    if ops != [] {
      RunKeeps(n, ops[..|ops| - 1]);
      var s := Run(Fresh(n), ops[..|ops| - 1]).value;
      ApplyKeeps(s, ops[|ops| - 1]);
    }
  }

  lemma ApplyKeeps(s: State, op: Op)
    requires Inv(s) && Apply(s, op).Some?
    ensures Inv(Apply(s, op).value)
  {
    hide Inv;
    match op
    case Create(job) => CreateKeeps(s, job);
    case Launch(tid) => LaunchKeeps(s, tid);
    case Wait(tid) => WaitKeeps(s, tid);
    case WaitAll => WaitAllKeeps(s, 0);
  }

  /** Whatever was done before, after the destructor every thread ever started was joined exactly once. */
  lemma JoinedOnceInTheEnd(n: nat, ops: seq<Op>)
    requires Run(Fresh(n), ops).Some?
    ensures AllJoinedOnce(WaitedFrom(Run(Fresh(n), ops).value, 0))
  {
    hide Inv, AllJoinedOnce;
    RunKeeps(n, ops);
    WaitAllJoins(Run(Fresh(n), ops).value);
  }

  // ---------- which numbers are handed out ----------

  function Creations(ops: seq<Op>): nat {
    if ops == [] then 0 else Creations(ops[..|ops| - 1]) + if ops[|ops| - 1].Create? then 1 else 0
  }

  predicate UsedUpTo(slots: seq<Slot>, k: nat) {
    forall i :: 0 <= i < |slots| ==> (slots[i].used <==> i < k)
  }

  lemma FirstFreeAt(slots: seq<Slot>, k: nat)
    requires UsedUpTo(slots, k)
    ensures FirstFree(slots) == if k < |slots| then k else |slots|
  {
    var i := FirstFree(slots);
    assert k < |slots| ==> !slots[k].used;
    assert i < |slots| ==> !slots[i].used;
  }

  /** After the run and after each shorter one, the next creation returns how many there were, or -1 if that is `n`. */
  predicate Numbered(n: nat, ops: seq<Op>)
    requires Run(Fresh(n), ops).Some?
  {
    && CreatedId(Run(Fresh(n), ops).value) == (if Creations(ops) < n then Creations(ops) else -1)
    && (ops != [] ==> Numbered(n, ops[..|ops| - 1]))
  }

  predicate NoneRuns(s: State) {
    forall i :: 0 <= i < |s.slots| ==> !s.slots[i].running
  }

  /** Every `wait()` of the run was made when nothing was running. */
  predicate WaitsWhenIdle(n: nat, ops: seq<Op>)
    requires Run(Fresh(n), ops).Some?
  {
    ops != [] ==>
      && (ops[|ops| - 1].WaitAll? ==> NoneRuns(Run(Fresh(n), ops[..|ops| - 1]).value))
      && WaitsWhenIdle(n, ops[..|ops| - 1])
  }

  /** An operation that frees nothing keeps the used slots in front. */
  lemma StaysInOrder(s: State, op: Op, k: nat)
    requires UsedUpTo(s.slots, k) && Apply(s, op).Some? && (op.WaitAll? ==> NoneRuns(s))
    ensures UsedUpTo(Apply(s, op).value.slots, k + if op.Create? then 1 else 0)
  {
    FirstFreeAt(s.slots, k);
    WaitedFromSlots(s, 0);
  }

  /** The slot that `wait()` takes back from a running thread is handed out again, or one before it. */
  lemma FreesUsedSlot(s: State, k: nat)
    requires Inv(s) && UsedUpTo(s.slots, k) && !NoneRuns(s)
    ensures 0 <= CreatedId(WaitedFrom(s, 0)) < k
  {
    WaitedFromSlots(s, 0);
    var i :| 0 <= i < |s.slots| && s.slots[i].running;
    assert SlotOk(s.slots[i]);
    assert !WaitedFrom(s, 0).slots[i].used;
  }

  lemma {:induction false} UsedInOrder(n: nat, ops: seq<Op>)
    requires Run(Fresh(n), ops).Some? && WaitsWhenIdle(n, ops)
    ensures UsedUpTo(Run(Fresh(n), ops).value.slots, Creations(ops))
  {
    if ops != [] {
      UsedInOrder(n, ops[..|ops| - 1]);
      StaysInOrder(Run(Fresh(n), ops[..|ops| - 1]).value, ops[|ops| - 1], Creations(ops[..|ops| - 1]));
    }
  }

  /**
   * The creations on a new manager of `n` slots return 0, 1, ..., n-1 and then -1 exactly in the runs in which `wait()`
   * was called only when nothing ran. Whatever is launched and joined by `wait(tid)` makes no difference.
   */
  lemma {:induction false} CreationsCount(n: nat, ops: seq<Op>)
    requires Run(Fresh(n), ops).Some?
    ensures Numbered(n, ops) <==> WaitsWhenIdle(n, ops)
  {
    hide Inv, Run, Apply, CreatedId, UsedUpTo;
    if ops == [] {
      UsedInOrder(n, ops);
      NumberAfter(n, ops);
    } else {
      var before, op := ops[..|ops| - 1], ops[|ops| - 1];
      RunBefore(n, ops);
      CreationsCount(n, before);
      if WaitsWhenIdle(n, ops) {
        UsedInOrder(n, ops);
        NumberAfter(n, ops);
      } else if WaitsWhenIdle(n, before) {
        UsedInOrder(n, before);
        RunKeeps(n, before);
        FreesUsedSlot(Run(Fresh(n), before).value, Creations(before));
      }
    }
  }

  lemma RunBefore(n: nat, ops: seq<Op>)
    requires ops != [] && Run(Fresh(n), ops).Some?
    ensures Run(Fresh(n), ops[..|ops| - 1]).Some?
    ensures ops[|ops| - 1].WaitAll? ==>
              Run(Fresh(n), ops).value == WaitedFrom(Run(Fresh(n), ops[..|ops| - 1]).value, 0)
  {
  }

  lemma NumberAfter(n: nat, ops: seq<Op>)
    requires Run(Fresh(n), ops).Some? && UsedUpTo(Run(Fresh(n), ops).value.slots, Creations(ops))
    ensures CreatedId(Run(Fresh(n), ops).value) == if Creations(ops) < n then Creations(ops) else -1
  {
    FirstFreeAt(Run(Fresh(n), ops).value.slots, Creations(ops));
  }

  /** Create, launch, `wait()`: the next creation returns 0 again, and not 1, or -1 if there is one slot. */
  lemma NumberUsedAgain(n: nat, job: Job)
    requires n > 0
    ensures var ops := [Create(job), Launch(0), WaitAll];
            && Run(Fresh(n), ops).Some? && CreatedId(Run(Fresh(n), ops).value) == 0
            && Creations(ops) == 1 && !Numbered(n, ops)
  {
    var created := Created(Fresh(n), job);
    var launched := Launched(created, 0);
    assert [Create(job)][..0] == [] && [Create(job), Launch(0)][..1] == [Create(job)];
    assert [Create(job), Launch(0), WaitAll][..2] == [Create(job), Launch(0)];
    assert Run(Fresh(n), [Create(job)]) == Some(created);
    assert Run(Fresh(n), [Create(job), Launch(0)]) == Some(launched);
    assert Creations([Create(job)]) == 1 && Creations([Create(job), Launch(0)]) == 1;
    WaitedFromSlots(launched, 0);
  }

  // ---------- which function a thread runs ----------

  /** What the last creation that returned `tid` was given. */
  function LastGiven(n: nat, ops: seq<Op>, tid: nat): Option<Job>
    requires Run(Fresh(n), ops).Some?
  {
    if ops == [] then None
    else
      var before, op := ops[..|ops| - 1], ops[|ops| - 1];
      if op.Create? && CreatedId(Run(Fresh(n), before).value) == tid then Some(op.job) else LastGiven(n, before, tid)
  }

  /** A slot that may be launched, or runs, holds what its last creation was given. */
  lemma {:induction false} SlotHoldsGiven(n: nat, ops: seq<Op>, tid: nat)
    requires Run(Fresh(n), ops).Some? && tid < n
    ensures var slot := Run(Fresh(n), ops).value.slots[tid];
            slot.func.Some? ==> LastGiven(n, ops, tid) == Some(Job(slot.func.value, slot.arg))
  {
    if ops != [] {
      var before := ops[..|ops| - 1];
      SlotHoldsGiven(n, before, tid);
      WaitedFromSlots(Run(Fresh(n), before).value, 0);
    }
  }

  /** In every run a launch of `tid` starts one thread, with what the last creation that returned `tid` was given. */
  lemma LaunchRunsGiven(n: nat, ops: seq<Op>, tid: nat)
    requires Run(Fresh(n), ops + [Launch(tid)]).Some?
    ensures Run(Fresh(n), ops).Some? && LastGiven(n, ops, tid).Some?
    ensures Run(Fresh(n), ops + [Launch(tid)]).value.started
         == Run(Fresh(n), ops).value.started + [LastGiven(n, ops, tid).value]
  {
    assert (ops + [Launch(tid)])[..|ops|] == ops;
    SlotHoldsGiven(n, ops, tid);
  }

  /** No operation changes what an earlier launch started. */
  lemma StartedStays(s: State, op: Op)
    requires Apply(s, op).Some?
    ensures |s.started| <= |Apply(s, op).value.started| && Apply(s, op).value.started[..|s.started|] == s.started
    ensures !op.Launch? ==> Apply(s, op).value.started == s.started
  {
  }

  /** A slot whose thread was joined by `wait(tid)`. */
  predicate Stuck(slot: Slot) {
    slot.used && !slot.running && slot.func.None?
  }

  lemma WaitMakesStuck(s: State, tid: nat)
    requires Inv(s) && CanWait(s, tid)
    ensures Stuck(Waited(s, tid).slots[tid])
  {
  }

  /** Such a slot is lost: no run of operations changes it, so it is never handed out again and never launched. */
  lemma {:induction false} StuckForever(s: State, ops: seq<Op>, tid: nat)
    requires tid < |s.slots| && Stuck(s.slots[tid]) && Run(s, ops).Some?
    ensures Run(s, ops).value.slots[tid] == s.slots[tid]
    ensures CreatedId(Run(s, ops).value) != tid && !CanLaunch(Run(s, ops).value, tid)
  {
    if ops != [] {
      StuckForever(s, ops[..|ops| - 1], tid);
      WaitedFromSlots(Run(s, ops[..|ops| - 1]).value, 0);
    }
  }

  // ---------- the manager ----------

  class Manager {
    const slots: array<Slot>
    var started: seq<Job>
    ghost var joined: seq<nat>

    constructor (numThreads: nat)
      requires 0 < numThreads <= MAX_THREADS
      ensures Now() == Fresh(numThreads) && fresh(slots)
    {
      slots := new Slot[numThreads](_ => FREE);
      started := [];
      joined := [];
      new;
      assert slots[..] == Slots(numThreads);
    }

    ghost function Now(): State
      reads this, slots
    {
      State(slots[..], started, joined)
    }

    method FindFreeThread() returns (i: nat)
      ensures i == FirstFree(Now().slots)
    {
      i := 0;
      while i < slots.Length && slots[i].used
        invariant i <= slots.Length && FirstFree(slots[..]) == i + FirstFree(slots[i..])
      {
        assert slots[i..][1..] == slots[i + 1..];
        i := i + 1;
      }
    }

    method Create(func: nat, arg: nat) returns (tid: int)
      modifies slots
      ensures tid == CreatedId(old(Now())) && Now() == Created(old(Now()), Job(func, arg))
      ensures tid == -1 || 0 <= tid < slots.Length
      ensures tid == -1 ==> slots[..] == old(slots[..]) && forall i :: 0 <= i < slots.Length ==> slots[i].used
      ensures tid >= 0 ==> !old(slots[tid].used) && forall i :: 0 <= i < tid ==> slots[i].used
      ensures tid >= 0 ==> slots[tid].used && slots[tid].func == Some(func) && slots[tid].arg == arg
      ensures tid >= 0 ==> slots[tid].running == old(slots[tid].running) && slots[tid].handle == old(slots[tid].handle)
      ensures forall i :: 0 <= i < slots.Length && i != tid ==> slots[i] == old(slots[i])
    {
      var i := FindFreeThread();
      if i == slots.Length {
        return -1;
      }
      assert !slots[i].used;
      slots[i] := slots[i].(used := true, func := Some(func), arg := arg);
      return i;
    }

    method Launch(tid: nat)
      requires CanLaunch(Now(), tid)
      modifies this`started, slots
      ensures Now() == Launched(old(Now()), tid)
      ensures started == old(started) + [Job(old(slots[tid]).func.value, old(slots[tid]).arg)]
      ensures slots[tid] == old(slots[tid]).(running := true, handle := |old(started)|)
      ensures forall i :: 0 <= i < slots.Length && i != tid ==> slots[i] == old(slots[i])
    {
      slots[tid] := slots[tid].(running := true, handle := |started|);
      started := started + [SlotJob(slots[tid])];
    }

    method Wait(tid: nat)
      requires CanWait(Now(), tid)
      modifies this`joined, slots
      ensures Now() == Waited(old(Now()), tid)
      ensures joined == old(joined) + [old(slots[tid]).handle]
      ensures slots[tid] == old(slots[tid]).(running := false, func := None)
      ensures forall i :: 0 <= i < slots.Length && i != tid ==> slots[i] == old(slots[i])
    {
      joined := joined + [slots[tid].handle];
      slots[tid] := slots[tid].(running := false, func := None);
    }

    method WaitAll()
      requires Inv(Now())
      modifies this`joined, slots
      ensures Now() == WaitedFrom(old(Now()), 0) && Inv(Now())
    {
      hide Inv;
      for i := 0 to slots.Length
        invariant Inv(Now()) && WaitedFrom(Now(), i) == WaitedFrom(old(Now()), 0)
      {
        if slots[i].running {
          ghost var before := Now();
          RunningIsUsed(before, i);
          WaitKeeps(before, i);
          assert slots[i].used;
          Wait(i);
          slots[i] := slots[i].(used := false);
          assert Now() == Freed(Waited(before, i), i);
        }
      }
    }
  }

  lemma RunningIsUsed(s: State, i: nat)
    requires Inv(s) && CanWait(s, i)
    ensures s.slots[i].used
  {
  }

  /** The first `i` threads run, in their own slots, and nothing else was done. */
  predicate RunningUpTo(s: State, i: nat) {
    && |s.started| == i && UsedUpTo(s.slots, i)
    && forall j :: 0 <= j < |s.slots| ==> (s.slots[j].running <==> j < i)
  }

  lemma FreshInv(n: nat)
    ensures Inv(Fresh(n)) && RunningUpTo(Fresh(n), 0)
  {
  }

  lemma StartedNext(s: State, i: nat, job: Job)
    requires Inv(s) && RunningUpTo(s, i) && i < |s.slots|
    ensures CreatedId(s) == i && CanLaunch(Created(s, job), i)
    ensures Launched(Created(s, job), i).started == s.started + [job]
    ensures Inv(Launched(Created(s, job), i)) && RunningUpTo(Launched(Created(s, job), i), i + 1)
  {
    FirstFreeAt(s.slots, i);
    CreateKeeps(s, job);
    LaunchKeeps(Created(s, job), i);
  }

  predicate RunningFrom(s: State, i: nat) {
    forall j :: i <= j < |s.slots| ==> s.slots[j].running
  }

  /**
   * The stitching reader's use of a manager with one slot for each chunk: creation `i` returns `i`, no assertion fails,
   * thread `i` runs the chunk reader on the data of chunk `i`, and after the joins and the destructor each of the
   * threads was joined once.
   */
  method RunChunkThreads(chunks: nat, doReadChunk: nat) returns (manager: Manager)
    requires 0 < chunks <= MAX_THREADS
    ensures |manager.started| == chunks && AllJoinedOnce(manager.Now())
    ensures forall i :: 0 <= i < chunks ==> manager.started[i] == Job(doReadChunk, i)
  {
    hide Inv, CreatedId, CanLaunch, FirstFree;
    manager := new Manager(chunks);
    FreshInv(chunks);
    for i := 0 to chunks
      invariant fresh(manager) && fresh(manager.slots) && manager.slots.Length == chunks
      invariant Inv(manager.Now()) && RunningUpTo(manager.Now(), i)
      invariant |manager.started| == i && forall j :: 0 <= j < i ==> manager.started[j] == Job(doReadChunk, j)
    {
      StartedNext(manager.Now(), i, Job(doReadChunk, i));
      var tid := manager.Create(doReadChunk, i);
      assert tid == i;
      manager.Launch(i);
    }
    ghost var started := manager.started;
    for i := 0 to chunks
      invariant fresh(manager) && fresh(manager.slots) && manager.slots.Length == chunks
      invariant Inv(manager.Now()) && RunningFrom(manager.Now(), i) && manager.started == started
    {
      WaitKeeps(manager.Now(), i);
      manager.Wait(i);
    }
    WaitAllJoins(manager.Now());
    manager.WaitAll();
  }
}
