/**
 * `realloc` queues the free of its block before it knows whether it can move it. Which blocks outlive that, and
 * what the recorder's book then lacks, over whole runs of a session.
 */
module SessionSurvivors {
  import opened Bits
  import opened HeapBook
  import opened HeapSession

  /** There is a block at `x` whose allocation was recorded. */
  predicate RecordedBlock(s: State, x: U64) {
    x in s.blocks && s.blocks[x].recorded.Some?
  }

  /** In this step `realloc` fails on the recorded block at `x` and hands it back. */
  ghost predicate FailsOn(s: State, s': State, x: U64) {
    RecordedBlock(s, x) && exists t :: FailRealloc(s, s', t) && s.threads[t].pc.x == x
  }

  /** In this step the block at `x` is given up, by the real free or by a `realloc` that succeeds. */
  ghost predicate GivenUp(s: State, s': State, x: U64) {
    exists t :: GivesUp(s, s', t, x)
  }

  ghost predicate GivesUp(s: State, s': State, t: Tid, x: U64) {
    && t in s.threads && s.threads[t].pc.Acting? && s.threads[t].pc.x == x
    && (ActFree(s, s', t) || exists y, sampled, size, site :: ActRealloc(s, s', t, y, sampled, size, site))
  }

  /** Some `realloc` of the recorded block at `x` has failed, and the block has not been given up since. */
  ghost predicate OutlivedRealloc(states: seq<State>, n: nat, x: U64)
    requires n < |states|
  {
    exists k, m :: FailedAt(states, k, m, x) && m <= n && KeptSince(states, m, n, x)
  }

  ghost predicate FailedAt(states: seq<State>, k: int, m: int, x: U64) {
    0 <= k && m == k + 1 && m < |states| && FailsOn(states[k], states[m], x)
  }

  ghost predicate KeptSince(states: seq<State>, m: int, n: nat, x: U64)
    requires n < |states|
  {
    forall i, j :: 0 <= i && m <= i && j == i + 1 && j <= n ==> !GivenUp(states[i], states[j], x)
  }

  /** A shim has stamped the free of `x` and has not called the allocator yet. */
  ghost predicate UnderWay(s: State, x: U64) {
    exists t :: t in s.threads && BeforeAct(s.threads[t].pc, x)
  }

  predicate BeforeAct(pc: Pc, x: U64) {
    (pc.Flushing? || pc.Filling? || pc.Acting?) && pc.x == x
  }

  /** A recorded block that is still there although a free of it was stamped. */
  predicate Survivor(s: State, x: U64) {
    RecordedBlock(s, x) && s.blocks[x].freed
  }

  // ---- One step ----

  /** What a step does to a survivor at `x`, and how one comes about. */
  ghost predicate StepOk(s: State, s': State, x: U64) {
    && (Survivor(s, x) && !GivenUp(s, s', x) ==> Survivor(s', x))
    && (FailsOn(s, s', x) ==> Survivor(s', x))
    && (Survivor(s', x) && !UnderWay(s', x) ==> (Survivor(s, x) && !UnderWay(s, x)) || FailsOn(s, s', x))
  }

  lemma FailureLeavesSurvivor(s: State, s': State, x: U64)
    requires Owned(s.blocks, s.threads) && FailsOn(s, s', x)
    ensures Survivor(s', x)
  {
    var t :| FailRealloc(s, s', t) && s.threads[t].pc.x == x;
    assert Owns(s.blocks, t, s.threads[t].pc);
  }

  lemma OwnBlock(s: State, t: Tid, x: U64)
    requires Owned(s.blocks, s.threads) && t in s.threads && BeforeAct(s.threads[t].pc, x)
    ensures x in s.blocks && s.blocks[x].freed
  {
    assert Owns(s.blocks, t, s.threads[t].pc);
  }

  /** A step that neither ends a free of `x` nor makes or ends a survivor there. */
  ghost predicate SameAt(s: State, s': State, x: U64) {
    && (Survivor(s', x) <==> Survivor(s, x))
    && (forall t :: t in s.threads && BeforeAct(s.threads[t].pc, x) ==>
          t in s'.threads && BeforeAct(s'.threads[t].pc, x))
  }

  lemma SameIsOk(s: State, s': State, x: U64)
    requires Owned(s.blocks, s.threads) && SameAt(s, s', x)
    ensures StepOk(s, s', x)
  {
    if FailsOn(s, s', x) {
      FailureLeavesSurvivor(s, s', x);
    }
    hide Survivor, GivenUp, FailsOn, BeforeAct;
    if UnderWay(s, x) {
      var t :| t in s.threads && BeforeAct(s.threads[t].pc, x);
      assert t in s'.threads && BeforeAct(s'.threads[t].pc, x);
    }
  }

  lemma StartOk(s: State, s': State, t: Tid, y: U64, x: U64)
    requires Owned(s.blocks, s.threads)
    requires
      || MallocUnsampled(s, s', t, y)
      || (exists size, site :: MallocSampled(s, s', t, y, size, site))
      || (exists after :: StartFree(s, s', t, y, after))
    ensures StepOk(s, s', x)
  {
    hide Owned, StepOk;
    assert SameAt(s, s', x);
    SameIsOk(s, s', x);
  }

  lemma AllocStepOk(s: State, s': State, t: Tid, x: U64)
    requires Owned(s.blocks, s.threads)
    requires ReserveAlloc(s, s', t) || SkipRecord(s, s', t) || StampAlloc(s, s', t) || PublishAlloc(s, s', t)
    ensures StepOk(s, s', x)
  {
    assert Owns(s.blocks, t, s.threads[t].pc);
    hide Owned, StepOk;
    assert SameAt(s, s', x);
    SameIsOk(s, s', x);
  }

  lemma FlushStepOk(s: State, s': State, t: Tid, x: U64)
    requires Owned(s.blocks, s.threads)
    requires ReserveFlush(s, s', t) || LoseBatch(s, s', t) || PublishFlush(s, s', t)
    ensures StepOk(s, s', x)
  {
    hide Owned, StepOk, Moved;
    assert SameAt(s, s', x);
    SameIsOk(s, s', x);
  }

  lemma StampFreeOk(s: State, s': State, t: Tid, stale: bool, x: U64)
    requires Owned(s.blocks, s.threads) && StampFree(s, s', t, stale)
    ensures StepOk(s, s', x)
  {
    if s.threads[t].pc.x == x {
      assert BeforeAct(s'.threads[t].pc, x);
      assert UnderWay(s', x);
      if FailsOn(s, s', x) {
        FailureLeavesSurvivor(s, s', x);
      }
    } else {
      assert SameAt(s, s', x);
      SameIsOk(s, s', x);
    }
  }

  lemma EndOk(s: State, s': State, t: Tid, x: U64)
    requires Owned(s.blocks, s.threads)
    requires ActFree(s, s', t) || exists y, sampled, size, site :: ActRealloc(s, s', t, y, sampled, size, site)
    ensures StepOk(s, s', x)
  {
    assert Owns(s.blocks, t, s.threads[t].pc);
    if FailsOn(s, s', x) {
      FailureLeavesSurvivor(s, s', x);
    }
    if s.threads[t].pc.x == x {
      assert GivesUp(s, s', t, x);
      assert !Survivor(s', x);
    } else {
      assert SameAt(s, s', x);
      SameIsOk(s, s', x);
    }
  }

  lemma FailOk(s: State, s': State, t: Tid, x: U64)
    requires Owned(s.blocks, s.threads) && FailRealloc(s, s', t)
    ensures StepOk(s, s', x)
  {
    assert Owns(s.blocks, t, s.threads[t].pc);
    if s.threads[t].pc.x == x {
      assert Survivor(s', x) <==> Survivor(s, x);
      assert Survivor(s', x) ==> FailsOn(s, s', x);
    } else {
      assert SameAt(s, s', x);
      SameIsOk(s, s', x);
    }
  }

  lemma ThreadStepOk(s: State, s': State, t: Tid, x: U64)
    requires Owned(s.blocks, s.threads) && ThreadStep(s, s', t)
    ensures StepOk(s, s', x)
  {
    hide Owned, StepOk, MallocUnsampled, MallocSampled, ReserveAlloc, SkipRecord, StampAlloc, PublishAlloc, StartFree,
      StampFree, ReserveFlush, LoseBatch, PublishFlush, ActFree, ActRealloc, FailRealloc;
    if stale :| StampFree(s, s', t, stale) {
      StampFreeOk(s, s', t, stale, x);
    } else if ActFree(s, s', t) {
      EndOk(s, s', t, x);
    } else if y, sampled, size, site :| ActRealloc(s, s', t, y, sampled, size, site) {
      EndOk(s, s', t, x);
    } else if FailRealloc(s, s', t) {
      FailOk(s, s', t, x);
    } else if y :| MallocUnsampled(s, s', t, y) {
      StartOk(s, s', t, y, x);
    } else if y, size, site :| MallocSampled(s, s', t, y, size, site) {
      StartOk(s, s', t, y, x);
    } else if y, after :| StartFree(s, s', t, y, after) {
      StartOk(s, s', t, y, x);
    } else if ReserveFlush(s, s', t) || LoseBatch(s, s', t) || PublishFlush(s, s', t) {
      FlushStepOk(s, s', t, x);
    } else {
      AllocStepOk(s, s', t, x);
    }
  }

  lemma RecorderStepOk(s: State, s': State, x: U64)
    requires Owned(s.blocks, s.threads) && (Detach(s, s') || Consume(s, s'))
    ensures StepOk(s, s', x)
  {
    hide Owned, StepOk, Numbers, Processed, Counted;
    assert SameAt(s, s', x);
    SameIsOk(s, s', x);
  }

  lemma NextOk(s: State, s': State, x: U64)
    requires Owned(s.blocks, s.threads) && Next(s, s')
    ensures StepOk(s, s', x)
  {
    hide Owned, ThreadStep, Detach, Consume, StepOk;
    if t :| ThreadStep(s, s', t) {
      ThreadStepOk(s, s', t, x);
    } else {
      RecorderStepOk(s, s', x);
    }
  }

  lemma OwnedInRun(states: seq<State>, n: nat)
    requires Run(states) && n < |states|
    ensures Owned(states[n].blocks, states[n].threads)
  {
    RunInv(states, n);
    hide Run;
  }

  lemma StepOfRun(states: seq<State>, n: nat, x: U64)
    requires Run(states) && n + 1 < |states|
    ensures StepOk(states[n], states[n + 1], x)
  {
    hide Init, Owned, Next, StepOk;
    OwnedInRun(states, n);
    NextOk(states[n], states[n + 1], x);
  }

  // ---- Whole runs ----

  lemma NoSurvivorAtFirst(states: seq<State>, x: U64)
    requires Run(states)
    ensures !Survivor(states[0], x)
  {
  }

  lemma EnderIsUnderWay(s: State, s': State, x: U64)
    requires GivenUp(s, s', x)
    ensures UnderWay(s, x)
  {
    var t :| GivesUp(s, s', t, x);
    assert BeforeAct(s.threads[t].pc, x);
  }

  lemma KeptLonger(states: seq<State>, m: int, n: nat, x: U64)
    requires n + 1 < |states| && KeptSince(states, m, n, x) && !GivenUp(states[n], states[n + 1], x)
    ensures KeptSince(states, m, n + 1, x)
  {
    hide GivenUp;
  }

  /** A survivor that no shim is working on has outlived a `realloc` that failed. */
  lemma {:induction false} SurvivorOutlived(states: seq<State>, n: nat, x: U64)
    requires Run(states) && n < |states| && Survivor(states[n], x) && !UnderWay(states[n], x)
    ensures OutlivedRealloc(states, n, x)
    decreases n
  {
    hide Run, Survivor, FailsOn, UnderWay, KeptSince;
    if n == 0 {
      NoSurvivorAtFirst(states, x);
    } else {
      StepOfRun(states, n - 1, x);
      if FailsOn(states[n - 1], states[n], x) {
        assert FailedAt(states, n - 1, n, x);
        KeptSinceNow(states, n, x);
      } else {
        SurvivorOutlived(states, n - 1, x);
        var k, m :| FailedAt(states, k, m, x) && m <= n - 1 && KeptSince(states, m, n - 1, x);
        if GivenUp(states[n - 1], states[n], x) {
          EnderIsUnderWay(states[n - 1], states[n], x);
        }
        KeptLonger(states, m, n - 1, x);
      }
    }
  }

  lemma KeptSinceNow(states: seq<State>, n: nat, x: U64)
    requires n < |states|
    ensures KeptSince(states, n, n, x)
  {
    hide GivenUp;
  }

  /** What outlived a failed `realloc` is a survivor. */
  lemma {:induction false} OutlivedSurvives(states: seq<State>, k: int, m: int, n: nat, x: U64)
    requires Run(states) && n < |states| && FailedAt(states, k, m, x) && m <= n && KeptSince(states, m, n, x)
    ensures Survivor(states[n], x)
    decreases n
  {
    hide Run, Survivor, FailsOn, GivenUp;
    StepOfRun(states, n - 1, x);
    if m == n {
    } else {
      OutlivedSurvives(states, k, m, n - 1, x);
      assert !GivenUp(states[n - 1], states[n], x);
    }
  }

  lemma SurvivorMeans(states: seq<State>, n: nat, x: U64)
    requires Run(states) && n < |states|
    ensures Survivor(states[n], x) <==>
            OutlivedRealloc(states, n, x) || (RecordedBlock(states[n], x) && UnderWay(states[n], x))
  {
    hide Run, Owned, FailedAt, KeptSince;
    OwnedInRun(states, n);
    if UnderWay(states[n], x) {
      var t :| t in states[n].threads && BeforeAct(states[n].threads[t].pc, x);
      OwnBlock(states[n], t, x);
    } else if Survivor(states[n], x) {
      SurvivorOutlived(states, n, x);
    }
    if OutlivedRealloc(states, n, x) {
      var k, m :| FailedAt(states, k, m, x) && m <= n && KeptSince(states, m, n, x);
      OutlivedSurvives(states, k, m, n, x);
    }
  }

  // ---- What the book lacks ----

  /**
   * Once the recorder has seen everything that happened at an address, its book is right about that address, in
   * that it has an entry there exactly when there is a recorded block, if and only if no `realloc` of that block
   * has failed and no free of it is under way.
   */
  lemma BookIsRightIff(states: seq<State>, n: nat, x: U64)
    requires Run(states) && n < |states| && AllSeen(states[n], x)
    ensures (x in states[n].book <==> RecordedBlock(states[n], x)) <==>
            !OutlivedRealloc(states, n, x) && !(RecordedBlock(states[n], x) && UnderWay(states[n], x))
  {
    hide Run, AllSeen, OutlivedRealloc, UnderWay;
    SurvivorMeans(states, n, x);
    BookIsExact(states, n, x);
  }

  lemma NothingUnderWay(s: State, x: U64)
    requires CaughtUp(s)
    ensures !UnderWay(s, x)
  {
  }

  lemma SettledAt(states: seq<State>, n: nat, x: U64)
    requires Run(states) && n < |states| && CaughtUp(states[n])
    ensures OutlivedRealloc(states, n, x) <==> Survivor(states[n], x)
    ensures x in states[n].book <==> RecordedBlock(states[n], x) && !Survivor(states[n], x)
  {
    hide Run, Inv, CaughtUp, AllSeen, OutlivedRealloc, UnderWay;
    RunInv(states, n);
    NothingUnderWay(states[n], x);
    CaughtUpIsSeen(states[n], x);
    SurvivorMeans(states, n, x);
    BookIsExact(states, n, x);
  }

  /**
   * The settled book is right everywhere if and only if no block that is still there has outlived a `realloc` that
   * failed, and what it lacks are exactly those blocks.
   */
  lemma SettledBookIsRightIff(states: seq<State>, n: nat)
    requires Run(states) && n < |states| && CaughtUp(states[n])
    ensures (forall x :: x in states[n].book <==> RecordedBlock(states[n], x)) <==>
            forall x :: !OutlivedRealloc(states, n, x)
    ensures forall x :: RecordedBlock(states[n], x) && x !in states[n].book <==> OutlivedRealloc(states, n, x)
  {
    hide Run, CaughtUp, OutlivedRealloc;
    forall x: U64
      ensures OutlivedRealloc(states, n, x) <==> Survivor(states[n], x)
      ensures x in states[n].book <==> RecordedBlock(states[n], x) && !Survivor(states[n], x)
    {
      SettledAt(states, n, x);
    }
  }

  lemma OutlivedMeansFailed(states: seq<State>, n: nat, x: U64) returns (k: nat, t: Tid)
    requires n < |states| && OutlivedRealloc(states, n, x)
    ensures k + 1 <= n && FailRealloc(states[k], states[k + 1], t)
  {
    var i, m :| FailedAt(states, i, m, x) && m <= n && KeptSince(states, m, n, x);
    hide FailRealloc;
    k := i;
    t :| FailRealloc(states[k], states[m], t);
  }

  /** If no `realloc` fails in the whole run, the settled book holds exactly the recorded blocks. */
  lemma WithoutFailuresBookIsRight(states: seq<State>, n: nat)
    requires Run(states) && n < |states| && CaughtUp(states[n])
    requires forall i, j, t :: 0 <= i && j == i + 1 && j <= n ==> !FailRealloc(states[i], states[j], t)
    ensures forall x :: x in states[n].book <==> RecordedBlock(states[n], x)
  {
    hide Run, CaughtUp, RecordedBlock, FailRealloc, OutlivedRealloc;
    SettledBookIsRightIff(states, n);
    forall x: U64
      ensures !OutlivedRealloc(states, n, x)
    {
      if OutlivedRealloc(states, n, x) {
        var k, t := OutlivedMeansFailed(states, n, x);
      }
    }
  }
}
