/** The chunk threads as a step system: whatever the schedule, the shared heads and tails end up the same. */
module ThreadRuns {
  import opened Wrappers
  import opened Bytes
  import opened Ledger
  import opened Reading
  import opened Indexed
  import opened Stitching
  import opened IndexedTheorem

  /** What a chunk thread is given: its start balances, its blocks and the stored map. */
  datatype Job = Job(init: Option<Balances>, seg: seq<BlockData>, stored: Balances)

  datatype Pc = AtLoop | AtHeadLock | AtHeadInsert | AtHeadUnlock | AtCompare | AtTailLock | AtTailInsert | AtTailUnlock
              | Finished

  /** A thread's own state: where it is, how many blocks it has read, and its block map. */
  datatype Thread = Thread(pc: Pc, k: nat, s: ReadState)

  /** All threads, the owner of the mutex, and what the mutex protects. */
  datatype World = World(threads: seq<Thread>, owner: Option<nat>, heads: set<Node>, tails: map<Hash, Node>)

  predicate Enabled(w: World, i: nat) {
    && i < |w.threads|
    && match w.threads[i].pc
       case Finished => false
       case AtHeadLock => w.owner.None?
       case AtTailLock => w.owner.None?
       case _ => true
  }

  predicate Critical(pc: Pc) {
    pc.AtHeadInsert? || pc.AtHeadUnlock? || pc.AtTailInsert? || pc.AtTailUnlock?
  }

  /** One block of the loop of `readChunk`, or its end. */
  function LoopStep(cr: Crypto, job: Job, t: Thread): Thread {
    if t.k >= |job.seg| then t.(pc := AtCompare)
    else
      var b := job.seg[t.k];
      var s := Accept(cr, b, if t.k == 0 then FirstPrev(b, job.init) else FindPrev(b, t.s.bmap), t.s);
      Thread(if t.k == 0 && s.accepted != [] && b.prevHash != ZERO_HASH then AtHeadLock else AtLoop, t.k + 1, s)
  }

  /** The head goes in, the tail goes in: the only two writes to shared data, each between a lock and an unlock. */
  ghost function Step(cr: Crypto, job: Job, w: World, i: nat): World
    requires Enabled(w, i)
  {
    var t := w.threads[i];
    var tip := LastTip(t.s.accepted);
    match t.pc
    case AtLoop => w.(threads := w.threads[i := LoopStep(cr, job, t)])
    case AtHeadLock => w.(threads := w.threads[i := t.(pc := AtHeadInsert)], owner := Some(i))
    case AtHeadInsert =>
      w.(threads := w.threads[i := t.(pc := AtHeadUnlock)],
         heads := if t.s.accepted == [] then w.heads else w.heads + {t.s.accepted[0]})
    case AtHeadUnlock => w.(threads := w.threads[i := t.(pc := AtLoop)], owner := None)
    case AtCompare =>
      var equal := tip.Some? && SameMoney(tip.value.balances, job.stored);
      w.(threads := w.threads[i := t.(pc := if equal then AtTailLock else Finished)])
    case AtTailLock => w.(threads := w.threads[i := t.(pc := AtTailInsert)], owner := Some(i))
    case AtTailInsert =>
      w.(threads := w.threads[i := t.(pc := AtTailUnlock)],
         tails := if tip.None? then w.tails else w.tails[tip.value.blk.blkHash := tip.value])
    case AtTailUnlock => w.(threads := w.threads[i := t.(pc := Finished)], owner := None)
    case Finished => w
  }

  function Idle(n: nat): (ts: seq<Thread>)
    ensures |ts| == n && forall i :: 0 <= i < n ==> ts[i] == Thread(AtLoop, 0, ReadState(map[], []))
  {
    if n == 0 then [] else Idle(n - 1) + [Thread(AtLoop, 0, ReadState(map[], []))]
  }

  function StartWorld(jobs: seq<Job>): World {
    World(Idle(|jobs|), None, {}, map[])
  }

  /** The world after a schedule, if each of its threads could move when its turn came. */
  ghost function WorldAfter(cr: Crypto, jobs: seq<Job>, schedule: seq<nat>): (w: Option<World>)
    ensures w.Some? ==> |w.value.threads| == |jobs|
  {
    if schedule == [] then Some(StartWorld(jobs))
    else
      var i := schedule[|schedule| - 1];
      match WorldAfter(cr, jobs, schedule[..|schedule| - 1])
      case None => None
      case Some(w) => if Enabled(w, i) then Some(Step(cr, jobs[i], w, i)) else None
  }

  // ---------- the invariant ----------

  ghost function HeadOfJob(cr: Crypto, job: Job): Option<Node> {
    HeadOf(cr, job.init, job.seg)
  }

  ghost function TailOfJob(cr: Crypto, job: Job): Option<Node> {
    TailOf(cr, job.init, job.seg, job.stored)
  }

  /** A thread's own state is that of the sequential run of its chunk, however the others interleave. */
  ghost predicate ThreadOk(cr: Crypto, job: Job, t: Thread) {
    && t.k <= |job.seg| && t.s == ReadBlocks(cr, job.init, job.seg[..t.k])
    && (t.pc.AtHeadLock? || t.pc.AtHeadInsert? || t.pc.AtHeadUnlock? ==>
          t.k == 1 && t.s.accepted != [] && HeadOfJob(cr, job) == Some(t.s.accepted[0]))
    && (t.pc.AtCompare? || t.pc.AtTailLock? || t.pc.AtTailInsert? || t.pc.AtTailUnlock? || t.pc.Finished? ==>
          t.k == |job.seg|)
    && (t.pc.AtTailLock? || t.pc.AtTailInsert? || t.pc.AtTailUnlock? ==>
          TailOfJob(cr, job).Some? && TailOfJob(cr, job) == LastTip(t.s.accepted))
  }

  ghost predicate HeadIn(cr: Crypto, job: Job, t: Thread) {
    HeadOfJob(cr, job).Some? && t.k >= 1 && !t.pc.AtHeadLock? && !t.pc.AtHeadInsert?
  }

  ghost predicate TailIn(cr: Crypto, job: Job, t: Thread) {
    TailOfJob(cr, job).Some? && (t.pc.AtTailUnlock? || t.pc.Finished?)
  }

  ghost predicate HeadFrom(cr: Crypto, jobs: seq<Job>, w: World, i: nat, n: Node) {
    i < |jobs| == |w.threads| && HeadIn(cr, jobs[i], w.threads[i]) && HeadOfJob(cr, jobs[i]) == Some(n)
  }

  ghost predicate TailFrom(cr: Crypto, jobs: seq<Job>, w: World, i: nat, n: Node) {
    i < |jobs| == |w.threads| && TailIn(cr, jobs[i], w.threads[i]) && TailOfJob(cr, jobs[i]) == Some(n)
  }

  ghost predicate SameTail(cr: Crypto, a: Job, b: Job) {
    && TailOfJob(cr, a).Some? && TailOfJob(cr, b).Some?
    && TailOfJob(cr, a).value.blk.blkHash == TailOfJob(cr, b).value.blk.blkHash
  }

  /** No two chunks end in blocks of the same hash. */
  ghost predicate DistinctTails(cr: Crypto, jobs: seq<Job>) {
    forall i, j :: 0 <= i < |jobs| && 0 <= j < |jobs| && SameTail(cr, jobs[i], jobs[j]) ==> i == j
  }

  /** Only the owner of the mutex is in a critical section. */
  ghost predicate Excluded(w: World) {
    && (w.owner.Some? ==> w.owner.value < |w.threads|)
    && forall i :: 0 <= i < |w.threads| ==> (Critical(w.threads[i].pc) <==> w.owner == Some(i))
  }

  /** The shared data hold just what the threads that are past their insertions put there. */
  ghost predicate SharedOk(cr: Crypto, jobs: seq<Job>, w: World) {
    && (forall n :: n in w.heads <==> exists i: nat :: HeadFrom(cr, jobs, w, i, n))
    && (forall i: nat, n :: TailFrom(cr, jobs, w, i, n) ==> n.blk.blkHash in w.tails && w.tails[n.blk.blkHash] == n)
    && (forall h :: h in w.tails ==>
          exists i: nat :: TailFrom(cr, jobs, w, i, w.tails[h]) && w.tails[h].blk.blkHash == h)
  }

  ghost predicate Inv(cr: Crypto, jobs: seq<Job>, w: World) {
    && |w.threads| == |jobs|
    && (forall i :: 0 <= i < |jobs| ==> ThreadOk(cr, jobs[i], w.threads[i]))
    && Excluded(w) && SharedOk(cr, jobs, w)
  }

  lemma InvStart(cr: Crypto, jobs: seq<Job>)
    ensures Inv(cr, jobs, StartWorld(jobs))
  {
    hide HeadOfJob, TailOfJob;
    var w := StartWorld(jobs);
    forall i | 0 <= i < |jobs| ensures ThreadOk(cr, jobs[i], w.threads[i]) {
      assert jobs[i].seg[..0] == [];
    }
  }

  lemma ThreadStepOk(cr: Crypto, job: Job, w: World, i: nat)
    requires Enabled(w, i) && ThreadOk(cr, job, w.threads[i])
    ensures ThreadOk(cr, job, Step(cr, job, w, i).threads[i])
  {
    var t := w.threads[i];
    if t.pc.AtLoop? && t.k < |job.seg| {
      LoopStepOk(cr, job, t);
    } else {
      hide ReadBlocks, HeadOf, SameMoney;
      assert t.k == |job.seg| ==> job.seg[..t.k] == job.seg;
    }
  }

  lemma LoopStepOk(cr: Crypto, job: Job, t: Thread)
    requires ThreadOk(cr, job, t) && t.pc.AtLoop? && t.k < |job.seg|
    ensures ThreadOk(cr, job, LoopStep(cr, job, t))
    ensures t.k == 0 ==> (LoopStep(cr, job, t).pc.AtHeadLock? <==> HeadOfJob(cr, job).Some?)
  {
    hide ReadBlocks, ValidateBlock;
    ReadOneMore(cr, job.init, job.seg[..t.k], job.seg[t.k]);
    assert job.seg[..t.k] + [job.seg[t.k]] == job.seg[..t.k + 1];
    if t.k == 0 {
      ReadNothing(cr, job.init);
      assert job.seg[..0] == [];
    }
  }

  lemma ReadNothing(cr: Crypto, init: Option<Balances>)
    ensures ReadBlocks(cr, init, []) == ReadState(map[], [])
  {
  }

  lemma StepExcludes(cr: Crypto, job: Job, w: World, i: nat)
    requires Enabled(w, i) && Excluded(w)
    ensures Excluded(Step(cr, job, w, i))
  {
    hide SameMoney, Accept, LastTip;
  }

  /** A step of one thread leaves what the others contributed. */
  lemma OthersStay(cr: Crypto, jobs: seq<Job>, w: World, i: nat, j: nat, n: Node)
    requires |w.threads| == |jobs| && Enabled(w, i) && j != i
    ensures var w' := Step(cr, jobs[i], w, i);
            && (HeadFrom(cr, jobs, w, j, n) <==> HeadFrom(cr, jobs, w', j, n))
            && (TailFrom(cr, jobs, w, j, n) <==> TailFrom(cr, jobs, w', j, n))
  {
    hide SameMoney, Accept, HeadOfJob, TailOfJob, LastTip;
  }

  /** A thread's own contributions change only in its two insertion steps. */
  lemma OwnInsertions(cr: Crypto, jobs: seq<Job>, w: World, i: nat)
    requires |w.threads| == |jobs| && Enabled(w, i) && ThreadOk(cr, jobs[i], w.threads[i])
    ensures var t, w' := w.threads[i], Step(cr, jobs[i], w, i);
            && (HeadIn(cr, jobs[i], w'.threads[i]) <==> HeadIn(cr, jobs[i], t) || t.pc.AtHeadInsert?)
            && (TailIn(cr, jobs[i], w'.threads[i]) <==> TailIn(cr, jobs[i], t) || t.pc.AtTailInsert?)
  {
    var t := w.threads[i];
    if t.pc.AtLoop? && t.k < |jobs[i].seg| {
      LoopStepOk(cr, jobs[i], t);
      hide ReadBlocks, Accept, HeadOf, TailOf;
    } else {
      hide ReadBlocks, HeadOf, SameMoney, Accept;
      assert t.k == |jobs[i].seg| ==> jobs[i].seg[..t.k] == jobs[i].seg;
    }
  }

  lemma StepShares(cr: Crypto, jobs: seq<Job>, w: World, i: nat)
    requires Inv(cr, jobs, w) && Enabled(w, i) && DistinctTails(cr, jobs)
    ensures SharedOk(cr, jobs, Step(cr, jobs[i], w, i))
  {
    hide SameMoney, LoopStep, LastTip, HeadOfJob, TailOfJob, Excluded;
    var w' := Step(cr, jobs[i], w, i);
    var t := w.threads[i];
    OwnInsertions(cr, jobs, w, i);
    forall n ensures n in w'.heads <==> exists j: nat :: HeadFrom(cr, jobs, w', j, n) {
      HeadsStep(cr, jobs, w, i, n);
    }
    forall j: nat, n | TailFrom(cr, jobs, w', j, n) ensures n.blk.blkHash in w'.tails && w'.tails[n.blk.blkHash] == n {
      TailsStepIn(cr, jobs, w, i, j, n);
    }
    forall h | h in w'.tails
      ensures exists j: nat :: TailFrom(cr, jobs, w', j, w'.tails[h]) && w'.tails[h].blk.blkHash == h
    {
      TailsStepFrom(cr, jobs, w, i, h);
    }
  }

  lemma HeadsStep(cr: Crypto, jobs: seq<Job>, w: World, i: nat, n: Node)
    requires Inv(cr, jobs, w) && Enabled(w, i)
    ensures var w' := Step(cr, jobs[i], w, i);
            n in w'.heads <==> exists j: nat :: HeadFrom(cr, jobs, w', j, n)
  {
    hide SameMoney, LoopStep, LastTip, HeadOfJob, TailOfJob, Excluded, TailFrom;
    var w' := Step(cr, jobs[i], w, i);
    OwnInsertions(cr, jobs, w, i);
    assert ThreadOk(cr, jobs[i], w.threads[i]);
    if n in w'.heads {
      if n in w.heads {
        var j: nat :| HeadFrom(cr, jobs, w, j, n);
        OthersOrSelf(cr, jobs, w, i, j, n);
        assert HeadFrom(cr, jobs, w', j, n);
      } else {
        assert HeadFrom(cr, jobs, w', i, n);
      }
    }
    if exists j: nat :: HeadFrom(cr, jobs, w', j, n) {
      var j: nat :| HeadFrom(cr, jobs, w', j, n);
      if j != i {
        OthersStay(cr, jobs, w, i, j, n);
        assert HeadFrom(cr, jobs, w, j, n);
      } else if !w.threads[i].pc.AtHeadInsert? {
        assert HeadFrom(cr, jobs, w, i, n);
      }
    }
  }

  lemma OthersOrSelf(cr: Crypto, jobs: seq<Job>, w: World, i: nat, j: nat, n: Node)
    requires Inv(cr, jobs, w) && Enabled(w, i)
    ensures HeadFrom(cr, jobs, w, j, n) ==> HeadFrom(cr, jobs, Step(cr, jobs[i], w, i), j, n)
    ensures TailFrom(cr, jobs, w, j, n) ==> TailFrom(cr, jobs, Step(cr, jobs[i], w, i), j, n)
  {
    hide SharedOk, Excluded, ThreadOk, LoopStep, SameMoney, LastTip, HeadOfJob, TailOfJob;
    if j != i {
      OthersStay(cr, jobs, w, i, j, n);
    } else {
      OwnInsertions(cr, jobs, w, i);
    }
  }

  lemma TailsStepIn(cr: Crypto, jobs: seq<Job>, w: World, i: nat, j: nat, n: Node)
    requires Inv(cr, jobs, w) && Enabled(w, i) && DistinctTails(cr, jobs)
    requires TailFrom(cr, jobs, Step(cr, jobs[i], w, i), j, n)
    ensures var w' := Step(cr, jobs[i], w, i); n.blk.blkHash in w'.tails && w'.tails[n.blk.blkHash] == n
  {
    hide SameMoney, LoopStep, LastTip, HeadOfJob, TailOfJob, Excluded, HeadFrom;
    OwnInsertions(cr, jobs, w, i);
    assert ThreadOk(cr, jobs[i], w.threads[i]);
    if j != i {
      OthersStay(cr, jobs, w, i, j, n);
      assert TailFrom(cr, jobs, w, j, n);
    } else if !w.threads[i].pc.AtTailInsert? {
      assert TailFrom(cr, jobs, w, i, n);
    }
  }

  lemma TailsStepFrom(cr: Crypto, jobs: seq<Job>, w: World, i: nat, h: Hash)
    requires Inv(cr, jobs, w) && Enabled(w, i)
    requires h in Step(cr, jobs[i], w, i).tails
    ensures var w' := Step(cr, jobs[i], w, i);
            exists j: nat :: TailFrom(cr, jobs, w', j, w'.tails[h]) && w'.tails[h].blk.blkHash == h
  {
    hide SameMoney, LoopStep, LastTip, HeadOfJob, TailOfJob, Excluded, HeadFrom;
    var w' := Step(cr, jobs[i], w, i);
    OwnInsertions(cr, jobs, w, i);
    assert ThreadOk(cr, jobs[i], w.threads[i]);
    if h in w.tails && w'.tails[h] == w.tails[h] {
      var j: nat :| TailFrom(cr, jobs, w, j, w.tails[h]) && w.tails[h].blk.blkHash == h;
      OthersOrSelf(cr, jobs, w, i, j, w.tails[h]);
      assert TailFrom(cr, jobs, w', j, w'.tails[h]);
    } else {
      assert TailFrom(cr, jobs, w', i, w'.tails[h]);
    }
  }

  lemma InvStep(cr: Crypto, jobs: seq<Job>, w: World, i: nat)
    requires Inv(cr, jobs, w) && Enabled(w, i) && DistinctTails(cr, jobs)
    ensures Inv(cr, jobs, Step(cr, jobs[i], w, i))
  {
    ThreadStepOk(cr, jobs[i], w, i);
    StepExcludes(cr, jobs[i], w, i);
    StepShares(cr, jobs, w, i);
    hide ThreadOk, Excluded, SharedOk, LoopStep, SameMoney, LastTip;
  }

  /** The invariant holds in every reachable world. */
  lemma {:induction false} RunInv(cr: Crypto, jobs: seq<Job>, schedule: seq<nat>)
    requires DistinctTails(cr, jobs) && WorldAfter(cr, jobs, schedule).Some?
    ensures Inv(cr, jobs, WorldAfter(cr, jobs, schedule).value)
    decreases |schedule|
  {
    hide Inv, Step, DistinctTails;
    if schedule == [] {
      InvStart(cr, jobs);
    } else {
      RunInv(cr, jobs, schedule[..|schedule| - 1]);
      InvStep(cr, jobs, WorldAfter(cr, jobs, schedule[..|schedule| - 1]).value, schedule[|schedule| - 1]);
    }
  }

  // ---------- every run ends ----------

  /** The steps a thread can still take: one a block, five at the end, and three more if its head is still to come. */
  function Left(job: Job, t: Thread): nat {
    var loop := (if t.k < |job.seg| then |job.seg| - t.k else 0) + (if t.k == 0 < |job.seg| then 8 else 5);
    match t.pc
    case AtHeadLock => loop + 3
    case AtHeadInsert => loop + 2
    case AtHeadUnlock => loop + 1
    case AtLoop => loop
    case AtCompare => 4
    case AtTailLock => 3
    case AtTailInsert => 2
    case AtTailUnlock => 1
    case Finished => 0
  }

  function AllLeft(jobs: seq<Job>, ts: seq<Thread>): nat
    requires |jobs| == |ts|
  {
    if ts == [] then 0 else Left(jobs[0], ts[0]) + AllLeft(jobs[1..], ts[1..])
  }

  lemma {:induction false} AllLeftUpdate(jobs: seq<Job>, ts: seq<Thread>, i: nat, t: Thread)
    requires |jobs| == |ts| && i < |ts|
    ensures AllLeft(jobs, ts[i := t]) == AllLeft(jobs, ts) - Left(jobs[i], ts[i]) + Left(jobs[i], t)
  {
    hide Left;
    if i > 0 {
      AllLeftUpdate(jobs[1..], ts[1..], i - 1, t);
      assert ts[i := t][1..] == ts[1..][i - 1 := t];
    } else {
      assert ts[i := t][1..] == ts[1..];
    }
  }

  lemma StepCounts(cr: Crypto, job: Job, w: World, i: nat)
    requires Enabled(w, i)
    ensures Step(cr, job, w, i).threads == w.threads[i := Step(cr, job, w, i).threads[i]]
    ensures Left(job, Step(cr, job, w, i).threads[i]) < Left(job, w.threads[i])
  {
    hide Accept, SameMoney, LastTip;
  }

  /** A schedule cannot go on for longer than the work there was at the start. */
  lemma {:induction false} StepsAddUp(cr: Crypto, jobs: seq<Job>, schedule: seq<nat>)
    requires WorldAfter(cr, jobs, schedule).Some?
    ensures |schedule| + AllLeft(jobs, WorldAfter(cr, jobs, schedule).value.threads)
         <= AllLeft(jobs, StartWorld(jobs).threads)
    decreases |schedule|
  {
    hide Step, Left, AllLeft;
    if schedule != [] {
      var before, i := WorldAfter(cr, jobs, schedule[..|schedule| - 1]).value, schedule[|schedule| - 1];
      StepsAddUp(cr, jobs, schedule[..|schedule| - 1]);
      StepCounts(cr, jobs[i], before, i);
      AllLeftUpdate(jobs, before.threads, i, Step(cr, jobs[i], before, i).threads[i]);
    }
  }

  lemma {:induction false} AllLeftAppend(jobs: seq<Job>, ts: seq<Thread>, job: Job, t: Thread)
    requires |jobs| == |ts|
    ensures AllLeft(jobs + [job], ts + [t]) == AllLeft(jobs, ts) + Left(job, t)
  {
    hide Left;
    if ts != [] {
      AllLeftAppend(jobs[1..], ts[1..], job, t);
      assert (jobs + [job])[1..] == jobs[1..] + [job] && (ts + [t])[1..] == ts[1..] + [t];
    }
  }

  lemma {:induction false} StartLeft(chunks: seq<seq<BlockData>>, maps: seq<Balances>, m: nat)
    requires m <= |chunks| == |maps|
    ensures AllLeft(JobsUpTo(chunks, maps, m), Idle(m)) <= |Flatten(chunks[..m])| + 8 * m
    ensures AllLeft(JobsUpTo(chunks, maps, m), Idle(m)) <= 4 * |Flatten(chunks[..m])| + 5 * m
  {
    hide Flatten;
    if m == 0 {
      assert Flatten(chunks[..0]) == [] by { assert chunks[..0] == []; EmptyFlatten(); }
    } else {
      StartLeft(chunks, maps, m - 1);
      FlattenUpTo(chunks, m - 1);
      var job, t := Job(InitOf(maps, m - 1), chunks[m - 1], maps[m - 1]), Thread(AtLoop, 0, ReadState(map[], []));
      AllLeftAppend(JobsUpTo(chunks, maps, m - 1), Idle(m - 1), job, t);
    }
  }

  /**
   * No schedule of the chunk threads has more steps than one for each block and eight for each chunk. As an empty chunk
   * takes five at most, four for each block and five for each chunk is a bound as well.
   */
  lemma RunsAreBounded(cr: Crypto, chunks: seq<seq<BlockData>>, maps: seq<Balances>, schedule: seq<nat>)
    requires |chunks| == |maps| && WorldAfter(cr, JobsOf(chunks, maps), schedule).Some?
    ensures |schedule| <= |Flatten(chunks)| + 8 * |chunks|
    ensures |schedule| <= 4 * |Flatten(chunks)| + 5 * |chunks|
  {
    hide WorldAfter, Flatten, AllLeft;
    StepsAddUp(cr, JobsOf(chunks, maps), schedule);
    StartLeft(chunks, maps, |chunks|);
    assert chunks[..|chunks|] == chunks;
  }

  ghost predicate AllFinished(w: World) {
    forall i :: 0 <= i < |w.threads| ==> w.threads[i].pc.Finished?
  }

  /** There is no deadlock: until all threads have finished, one of them can move. */
  lemma SomeThreadCanMove(cr: Crypto, jobs: seq<Job>, w: World)
    requires Inv(cr, jobs, w) && !AllFinished(w)
    ensures exists i: nat :: Enabled(w, i)
  {
    hide ThreadOk, SharedOk;
    if w.owner.Some? {
      assert Enabled(w, w.owner.value);
    } else {
      var i :| 0 <= i < |w.threads| && !w.threads[i].pc.Finished?;
      assert Enabled(w, i);
    }
  }

  // ---------- how every run ends ----------

  function JobsUpTo(chunks: seq<seq<BlockData>>, maps: seq<Balances>, m: nat): (jobs: seq<Job>)
    requires m <= |chunks| == |maps|
    ensures |jobs| == m && forall c :: 0 <= c < m ==> jobs[c] == Job(InitOf(maps, c), chunks[c], maps[c])
  {
    if m == 0 then []
    else JobsUpTo(chunks, maps, m - 1) + [Job(InitOf(maps, m - 1), chunks[m - 1], maps[m - 1])]
  }

  function JobsOf(chunks: seq<seq<BlockData>>, maps: seq<Balances>): seq<Job>
    requires |chunks| == |maps|
  {
    JobsUpTo(chunks, maps, |chunks|)
  }

  lemma ChunksHaveDistinctTails(cr: Crypto, chunks: seq<seq<BlockData>>, maps: seq<Balances>)
    requires ChunkedChain(chunks, maps)
    ensures DistinctTails(cr, JobsOf(chunks, maps))
  {
    hide TailOf, OnSegment, LinkedChain;
    var jobs := JobsOf(chunks, maps);
    forall i, j | 0 <= i < |jobs| && 0 <= j < |jobs| && SameTail(cr, jobs[i], jobs[j]) ensures i == j {
      var s, t := TailOfJob(cr, jobs[i]).value, TailOfJob(cr, jobs[j]).value;
      var a := TailPlace(cr, chunks, maps, i, s);
      var b := TailPlace(cr, chunks, maps, j, t);
      PlaceOnSegment(cr, InitOf(maps, i), chunks[i], s, a);
      PlaceOnSegment(cr, InitOf(maps, j), chunks[j], t, b);
      SamePlace(chunks, maps, i, a, j, b);
    }
  }

  /**
   * Every complete run over the chunks of a linked chain ends with the heads and tails of the separate chunk runs, so
   * the outcome does not depend on the schedule.
   */
  lemma EveryScheduleAgrees(cr: Crypto, chunks: seq<seq<BlockData>>, maps: seq<Balances>, schedule: seq<nat>)
    requires ChunkedChain(chunks, maps)
    requires WorldAfter(cr, JobsOf(chunks, maps), schedule).Some?
    requires AllFinished(WorldAfter(cr, JobsOf(chunks, maps), schedule).value)
    ensures var w := WorldAfter(cr, JobsOf(chunks, maps), schedule).value;
            && w.tails == Tails(cr, chunks, maps)
            && w.heads == HeadSet(ChunkOuts(cr, chunks, maps))
  {
    hide LinkedChain, WorldAfter, TailMap, ThreadOk, DistinctTails, HeadOf, TailOf, Excluded;
    var jobs := JobsOf(chunks, maps);
    ChunksHaveDistinctTails(cr, chunks, maps);
    RunInv(cr, jobs, schedule);
    var w, outs := WorldAfter(cr, jobs, schedule).value, ChunkOuts(cr, chunks, maps);
    FinishedTails(cr, chunks, maps, w);
    FinishedHeads(cr, chunks, maps, w);
  }

  ghost function HeadSet(outs: seq<ChunkOut>): set<Node> {
    set c | 0 <= c < |outs| && outs[c].head.Some? :: outs[c].head.value
  }

  lemma JobOut(cr: Crypto, chunks: seq<seq<BlockData>>, maps: seq<Balances>, c: nat)
    requires c < |chunks| == |maps|
    ensures var job, out := JobsOf(chunks, maps)[c], ChunkOuts(cr, chunks, maps)[c];
            HeadOfJob(cr, job) == out.head && TailOfJob(cr, job) == out.tail
  {
    hide HeadOf, TailOf;
    ChunkOutAt(cr, chunks, maps, c);
  }

  lemma FinishedTails(cr: Crypto, chunks: seq<seq<BlockData>>, maps: seq<Balances>, w: World)
    requires |chunks| == |maps|
    requires Inv(cr, JobsOf(chunks, maps), w) && AllFinished(w)
    ensures w.tails == Tails(cr, chunks, maps)
  {
    hide HeadOfJob, TailOfJob, ThreadOk, Excluded, HeadFrom, TailMap, ChunkOuts;
    var jobs, outs := JobsOf(chunks, maps), ChunkOuts(cr, chunks, maps);
    TailMapHolds(outs);
    forall h | h in w.tails ensures h in TailMap(outs) {
      var i: nat :| TailFrom(cr, jobs, w, i, w.tails[h]) && w.tails[h].blk.blkHash == h;
      JobOut(cr, chunks, maps, i);
      assert IsTailOf(outs, i, w.tails[h]);
    }
    forall h | h in TailMap(outs) ensures h in w.tails && w.tails[h] == TailMap(outs)[h] {
      var d: nat :| IsTailOf(outs, d, TailMap(outs)[h]);
      JobOut(cr, chunks, maps, d);
      assert TailFrom(cr, jobs, w, d, TailMap(outs)[h]);
    }
  }

  lemma FinishedHeads(cr: Crypto, chunks: seq<seq<BlockData>>, maps: seq<Balances>, w: World)
    requires |chunks| == |maps|
    requires Inv(cr, JobsOf(chunks, maps), w) && AllFinished(w)
    ensures w.heads == HeadSet(ChunkOuts(cr, chunks, maps))
  {
    hide HeadOfJob, TailOfJob, Excluded, TailFrom, ChunkOuts, ReadBlocks;
    var jobs, outs := JobsOf(chunks, maps), ChunkOuts(cr, chunks, maps);
    forall n ensures n in w.heads <==> n in HeadSet(outs) {
      if n in w.heads {
        var i: nat :| HeadFrom(cr, jobs, w, i, n);
        JobOut(cr, chunks, maps, i);
      }
      if n in HeadSet(outs) {
        var c :| 0 <= c < |outs| && outs[c].head == Some(n);
        JobOut(cr, chunks, maps, c);
        HeadNeedsBlock(cr, jobs[c]);
        assert ThreadOk(cr, jobs[c], w.threads[c]);
        assert HeadFrom(cr, jobs, w, c, n);
      }
    }
  }

  lemma HeadNeedsBlock(cr: Crypto, job: Job)
    ensures HeadOfJob(cr, job).Some? ==> job.seg != []
  {
  }

  // ---------- what is printed after any run ----------

  /** The stitching of `main` on the heads and tails that the threads left: a longest tail, if all heads were found. */
  ghost predicate WorldReports(w: World, chunks: nat, h: Hash, length: nat) {
    && (forall n :: n in w.heads ==> n.blk.prevHash in w.tails)
    && h in w.tails && StitchedLength(w.tails, w.tails[h], chunks) == length
    && forall o :: o in w.tails ==> StitchedLength(w.tails, w.tails[o], chunks) <= length
  }

  lemma HeadsFoundInWorld(outs: seq<ChunkOut>)
    ensures (forall n :: n in HeadSet(outs) ==> n.blk.prevHash in TailMap(outs)) <==> AllHeadsFound(outs)
  {
    hide TailMap;
    if forall n :: n in HeadSet(outs) ==> n.blk.prevHash in TailMap(outs) {
      forall c {:trigger outs[c]} | 0 <= c < |outs| && outs[c].head.Some?
        ensures outs[c].head.value.blk.prevHash in TailMap(outs)
      {
        assert outs[c].head.value in HeadSet(outs);
      }
    }
  }

  lemma FinishedReports(cr: Crypto, chunks: seq<seq<BlockData>>, maps: seq<Balances>, schedule: seq<nat>, h: Hash,
                        length: nat)
    requires ChunkedChain(chunks, maps)
    requires WorldAfter(cr, JobsOf(chunks, maps), schedule).Some?
    requires AllFinished(WorldAfter(cr, JobsOf(chunks, maps), schedule).value)
    ensures WorldReports(WorldAfter(cr, JobsOf(chunks, maps), schedule).value, |chunks|, h, length)
            <==> Reports(ChunkOuts(cr, chunks, maps), h, length)
  {
    EveryScheduleAgrees(cr, chunks, maps, schedule);
    HeadsFoundInWorld(ChunkOuts(cr, chunks, maps));
    hide WorldAfter, LinkedChain, TailMap, StitchedLength, AllHeadsFound, HeadSet, ChunkOutsUpTo;
  }

  /**
   * After every complete run, whatever its schedule, the whole chain is reported and the maps after empty chunks repeat
   * the ones before exactly when the sequential reader accepts all blocks and every stored map is right up to zero
   * entries.
   */
  lemma EveryScheduleReportsIff(cr: Crypto, chunks: seq<seq<BlockData>>, maps: seq<Balances>, schedule: seq<nat>)
    requires ChunkedChain(chunks, maps)
    requires WorldAfter(cr, JobsOf(chunks, maps), schedule).Some?
    requires AllFinished(WorldAfter(cr, JobsOf(chunks, maps), schedule).value)
    ensures var w, blocks := WorldAfter(cr, JobsOf(chunks, maps), schedule).value, Flatten(chunks);
            && blocks != []
            && (WorldReports(w, |chunks|, blocks[|blocks| - 1].blkHash, |blocks|)
                && EmptyMapsRight(chunks, maps, |chunks|)
                <==> SequentialAgrees(cr, chunks, maps))
  {
    hide WorldAfter, WorldReports, Reports, SequentialAgrees, EmptyMapsRight, Flatten, LinkedSegment, ChunkOuts;
    var blocks := Flatten(chunks);
    FinishedReports(cr, chunks, maps, schedule, blocks[|blocks| - 1].blkHash, |blocks|);
    IndexedIffSequential(cr, chunks, maps);
  }
}
